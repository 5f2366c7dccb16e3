/** Decoding HTML character references with a bounded look-ahead, and reading attributes. */
module HtmlEntities {
  import opened Wrappers
  import opened Text

  /** The largest distance between an ampersand and the semicolon that ends its reference. */
  const WINDOW := 13

  // ---------------------------------------------------------------- one reference

  function NamedEntity(name: string): Option<char> {
    if name == "lt" then Some('<')
    else if name == "gt" then Some('>')
    else if name == "quot" then Some('"')
    else if name == "apos" then Some('\'')
    else if name == "amp" then Some('&')
    else if name == "nbsp" then Some(' ')
    else if name == "auml" then Some('a')
    else if name == "Auml" then Some('A')
    else if name == "ouml" then Some('o')
    else if name == "Ouml" then Some('O')
    else if name == "uuml" then Some('u')
    else if name == "Uuml" then Some('U')
    else if name == "szlig" then Some('?')
    else None
  }

  function DigitIn(radix: nat, c: char): Option<nat> {
    var d :=
      if IsDigit(c) then c as int - '0' as int
      else if 'a' <= c <= 'f' then c as int - 'a' as int + 10
      else if 'A' <= c <= 'F' then c as int - 'A' as int + 10
      else 16;
    if d < radix then Some(d) else None
  }

  /** The value of a text of digits; None where one of them is no digit. */
  function ValueIn(radix: nat, digits: string): Option<nat>
    requires radix == 10 || radix == 16
  {
    if digits == "" then Some(0)
    else
      match (ValueIn(radix, digits[..|digits| - 1]), DigitIn(radix, digits[|digits| - 1]))
      case (Some(high), Some(low)) => Some(radix * high + low)
      case _ => None
  }

  /** An unsigned 32-bit number: an optional plus sign and at least one digit. */
  function ParseU32(radix: nat, text: string): Option<nat>
    requires radix == 10 || radix == 16
  {
    var digits := if text != "" && text[0] == '+' then text[1..] else text;
    if digits == "" then None
    else
      match ValueIn(radix, digits)
      case None => None
      case Some(n) => if n < 0x1_0000_0000 then Some(n) else None
  }

  predicate IsScalar(n: nat) { n < 0xD800 || 0xE000 <= n < 0x11_0000 }

  function CharFrom(n: Option<nat>): Option<char> {
    if n.Some? && IsScalar(n.value) then Some(n.value as char) else None
  }

  /** What the text between '&' and ';' stands for. */
  function DecodedEntity(entity: string): Option<char> {
    if "#x" <= entity || "#X" <= entity then CharFrom(ParseU32(16, entity[2..]))
    else if "#" <= entity then CharFrom(ParseU32(10, entity[1..]))
    else NamedEntity(entity)
  }

  // ---------------------------------------------------------------- the decoder

  /** The number of characters before the next semicolon, if it comes soon enough. */
  function NextSemicolon(s: string, limit: nat): (j: Option<nat>)
    ensures j.Some? ==> j.value < |s| && j.value < limit && s[j.value] == ';' && forall k :: 0 <= k < j.value ==> s[k] != ';'
    ensures j.None? ==> forall k :: 0 <= k < |s| && k < limit ==> s[k] != ';'
    decreases |s|
  {
    if s == "" || limit == 0 then None
    else if s[0] == ';' then Some(0)
    else
      match NextSemicolon(s[1..], limit - 1)
      case None => None
      case Some(j) => Some(j + 1)
  }

  /** The text that replaces the reference `&entity;`. */
  function Replacement(entity: string): string {
    match DecodedEntity(entity)
    case Some(c) => [c]
    case None => "&" + entity + ";"
  }

  /** The decoder in one pass from left to right. */
  function Decode(s: string): string
    decreases |s|
  {
    if s == "" then ""
    else if s[0] != '&' then [s[0]] + Decode(s[1..])
    else
      match NextSemicolon(s[1..], WINDOW)
      case None => "&" + Decode(s[1..])
      case Some(j) => Replacement(s[1..j + 1]) + Decode(s[j + 2..])
  }

  lemma DecodePlain(s: string)
    requires s != "" && s[0] != '&'
    ensures Decode(s) == [s[0]] + Decode(s[1..])
  {
  }

  /** An ampersand that no semicolon follows soon enough stands for itself. */
  lemma DecodeBare(s: string)
    requires s != "" && s[0] == '&' && forall k :: 1 <= k < |s| && k <= WINDOW ==> s[k] != ';'
    ensures Decode(s) == "&" + Decode(s[1..])
  {
  }

  /** A reference is replaced as a whole, and decoding goes on behind it. */
  lemma DecodeReference(s: string, j: nat)
    requires 1 <= j < |s| && j <= WINDOW && s[0] == '&' && s[j] == ';' && forall k :: 1 <= k < j ==> s[k] != ';'
    ensures Decode(s) == Replacement(s[1..j]) + Decode(s[j + 1..])
  {
    hide Replacement;
    var k := NextSemicolon(s[1..], WINDOW);
    assert s[1..][j - 1] == ';';
    assert k == Some(j - 1);
  }

  lemma Regroup(a: string, b: string, c: string)
    ensures a + (b + c) == (a + b) + c
  {
  }

  function DecodeFrom(value: string, i: nat): string
    requires i <= |value|
  {
    Decode(value[i..])
  }

  /** The same three steps at an index of a longer text, after some output. */
  lemma StepPast(value: string, i: nat, out: string)
    requires i < |value| && value[i] != '&'
    ensures out + DecodeFrom(value, i) == (out + [value[i]]) + DecodeFrom(value, i + 1)
  {
    hide Decode;
    DecodePlain(value[i..]);
    assert value[i..][1..] == value[i + 1..];
    Regroup(out, [value[i]], Decode(value[i + 1..]));
  }

  lemma StepBare(value: string, i: nat, out: string)
    requires i < |value| && value[i] == '&' && forall k :: i < k < |value| && k <= i + WINDOW ==> value[k] != ';'
    ensures out + DecodeFrom(value, i) == (out + [value[i]]) + DecodeFrom(value, i + 1)
  {
    hide Decode;
    DecodeBare(value[i..]);
    assert value[i..][1..] == value[i + 1..];
    Regroup(out, [value[i]], Decode(value[i + 1..]));
  }

  lemma StepOver(value: string, i: nat, j: nat, out: string)
    requires i < j < |value| && j <= i + WINDOW && value[i] == '&' && value[j] == ';'
    requires forall k :: i < k < j ==> value[k] != ';'
    ensures out + DecodeFrom(value, i) == (out + Replacement(value[i + 1..j])) + DecodeFrom(value, j + 1)
  {
    var rest := value[i..];
    hide Decode, Replacement;
    DecodeReference(rest, j - i);
    assert rest[1..j - i] == value[i + 1..j] && rest[j - i + 1..] == value[j + 1..];
    Regroup(out, Replacement(value[i + 1..j]), Decode(value[j + 1..]));
  }

  /** The windowed loop over indices computes the same text. */
  method DecodeHtmlEntities(value: string) returns (out: string)
    ensures out == Decode(value)
  {
    out := "";
    DecodeEnds(value);
    hide Replacement, DecodeFrom, Decode;
    var i := 0;
    while i < |value|
      invariant 0 <= i <= |value|
      invariant out + DecodeFrom(value, i) == Decode(value)
    {
      if value[i] != '&' {
        StepPast(value, i, out);
        out := out + [value[i]];
        i := i + 1;
        continue;
      }
      var j := i + 1;
      while j < |value| && value[j] != ';' && j - i <= 12
        invariant i + 1 <= j <= |value| && j - i <= WINDOW
        invariant forall k :: i < k < j ==> value[k] != ';'
      {
        j := j + 1;
      }
      if j >= |value| || value[j] != ';' {
        StepBare(value, i, out);
        out := out + [value[i]];
        i := i + 1;
        continue;
      }
      var entity := value[i + 1..j];
      StepOver(value, i, j, out);
      out := out + Replacement(entity);
      i := j + 1;
    }
  }

  lemma DecodeEnds(value: string)
    ensures DecodeFrom(value, 0) == Decode(value) && DecodeFrom(value, |value|) == ""
  {
    assert value[0..] == value && value[|value|..] == "";
  }

  // ---------------------------------------------------------------- what decoding promises

  /** Text without an ampersand stays as it is, in front of anything. */
  lemma {:induction false} PlainTextStays(a: string, b: string)
    requires '&' !in a
    ensures Decode(a + b) == a + Decode(b)
  {
    if a == "" {
      assert a + b == b;
    } else {
      hide Replacement;
      assert (a + b)[1..] == a[1..] + b && a == [a[0]] + a[1..];
      PlainTextStays(a[1..], b);
      Regroup([a[0]], a[1..], Decode(b));
    }
  }

  lemma DecodeIsTheIdentityWithoutAmpersands(s: string)
    requires '&' !in s
    ensures Decode(s) == s
  {
    PlainTextStays(s, "");
    assert s + "" == s;
  }

  lemma {:induction false} DecodingNeverGrows(s: string)
    ensures |Decode(s)| <= |s|
    decreases |s|
  {
    hide DecodedEntity;
    if s == "" {
    } else if s[0] != '&' || NextSemicolon(s[1..], WINDOW).None? {
      DecodingNeverGrows(s[1..]);
    } else {
      DecodingNeverGrows(s[NextSemicolon(s[1..], WINDOW).value + 2..]);
    }
  }

  /** The reference with this text between '&' and ';', in front of more text. */
  lemma ReferenceDecodes(entity: string, rest: string)
    requires |entity| < WINDOW && ';' !in entity
    ensures Decode("&" + entity + ";" + rest) == Replacement(entity) + Decode(rest)
  {
    var s := "&" + entity + ";" + rest;
    var j := |entity| + 1;
    assert s[j] == ';' && s[1..j] == entity && s[j + 1..] == rest;
    forall k | 1 <= k < j ensures s[k] != ';' {
      assert s[k] == entity[k - 1];
    }
    hide Decode, Replacement;
    DecodeReference(s, j);
  }

  // ---------------------------------------------------------------- escaping

  /** The five characters that escaping replaces. */
  function EscapeName(c: char): Option<string> {
    if c == '&' then Some("amp")
    else if c == '<' then Some("lt")
    else if c == '>' then Some("gt")
    else if c == '"' then Some("quot")
    else if c == '\'' then Some("apos")
    else None
  }

  function EscapedChar(c: char): string {
    match EscapeName(c)
    case Some(name) => "&" + name + ";"
    case None => [c]
  }

  function Escape(s: string): string {
    if s == "" then "" else EscapedChar(s[0]) + Escape(s[1..])
  }

  lemma EscapeNameIsDecoded(c: char)
    requires EscapeName(c).Some?
    ensures var name := EscapeName(c).value; |name| < WINDOW && ';' !in name && Replacement(name) == [c]
  {
    var name := EscapeName(c).value;
    assert name[0] != '#';
    assert "gt"[0] != "lt"[0] && "apos"[0] != "quot"[0];
  }

  lemma EscapedCharDecodes(c: char, rest: string)
    ensures Decode(EscapedChar(c) + rest) == [c] + Decode(rest)
  {
    hide Decode, Replacement;
    if EscapeName(c).Some? {
      EscapeNameIsDecoded(c);
      hide EscapeName;
      ReferenceDecodes(EscapeName(c).value, rest);
    } else {
      PlainTextStays([c], rest);
    }
  }

  /** Decoding undoes five-character escaping, whatever the text, and whatever follows it. */
  lemma {:induction false} DecodeUndoesEscape(s: string, rest: string)
    ensures Decode(Escape(s) + rest) == s + Decode(rest)
  {
    hide Decode, EscapedChar;
    if s == "" {
      assert Escape(s) + rest == rest;
    } else {
      EscapedCharDecodes(s[0], Escape(s[1..]) + rest);
      DecodeUndoesEscape(s[1..], rest);
      Regroup(EscapedChar(s[0]), Escape(s[1..]), rest);
      Regroup([s[0]], s[1..], Decode(rest));
      assert [s[0]] + s[1..] == s;
    }
  }

  lemma EscapeRoundTrip(s: string)
    ensures Decode(Escape(s)) == s
  {
    DecodeUndoesEscape(s, "");
    assert Escape(s) + "" == Escape(s) && Decode("") == "";
  }

  // ---------------------------------------------------------------- numeric references

  function HexDigit(d: nat): (c: char)
    requires d < 16
    ensures DigitIn(16, c) == Some(d) && c != '+' && c != ';'
  {
    if d < 10 then ('0' as int + d) as char else ('a' as int + d - 10) as char
  }

  function Hexadecimal(n: nat): string {
    if n < 16 then [HexDigit(n)] else Hexadecimal(n / 16) + [HexDigit(n % 16)]
  }

  lemma {:induction false} DecimalReads(n: nat, k: nat)
    requires 1 <= k && n < Power(10, k)
    ensures ValueIn(10, Decimal(n)) == Some(n) && 1 <= |Decimal(n)| <= k
    decreases k
  {
    var s := Decimal(n);
    if n < 10 {
      assert s[..0] == "" && ValueIn(10, "") == Some(0);
    } else {
      assert n / 10 < Power(10, k - 1);
      DecimalReads(n / 10, k - 1);
      assert s[..|s| - 1] == Decimal(n / 10);
    }
  }

  lemma {:induction false} HexadecimalReads(n: nat, k: nat)
    requires 1 <= k && n < Power(16, k)
    ensures ValueIn(16, Hexadecimal(n)) == Some(n) && 1 <= |Hexadecimal(n)| <= k
    ensures '+' !in Hexadecimal(n) && ';' !in Hexadecimal(n)
    decreases k
  {
    var s := Hexadecimal(n);
    if n < 16 {
      assert s[..0] == "" && ValueIn(16, "") == Some(0);
    } else {
      assert n / 16 < Power(16, k - 1);
      HexadecimalReads(n / 16, k - 1);
      assert s[..|s| - 1] == Hexadecimal(n / 16);
    }
  }

  lemma DigitsOfScalars(n: nat)
    requires IsScalar(n)
    ensures n < Power(10, 7) && n < Power(16, 6)
  {
    assert Power(10, 3) == 1000 && Power(10, 6) == 1000 * Power(10, 3);
    assert Power(16, 3) == 4096 && Power(16, 6) == 4096 * Power(16, 3);
  }

  lemma DecimalEntity(n: nat)
    requires IsScalar(n)
    ensures var entity := "#" + Decimal(n);
            |entity| < WINDOW && ';' !in entity && Replacement(entity) == [n as char]
  {
    DigitsOfScalars(n);
    DecimalReads(n, 7);
    var digits := Decimal(n);
    var entity := "#" + digits;
    assert entity[1] == digits[0] && entity[1..] == digits && IsDigit(digits[0]);
    assert forall i :: 0 <= i < |digits| ==> IsDigit(digits[i]);
    hide ValueIn, Decimal, NamedEntity;
  }

  lemma HexadecimalEntity(x: char, n: nat)
    requires IsScalar(n) && (x == 'x' || x == 'X')
    ensures var entity := ['#', x] + Hexadecimal(n);
            |entity| < WINDOW && ';' !in entity && Replacement(entity) == [n as char]
  {
    DigitsOfScalars(n);
    HexadecimalReads(n, 6);
    var digits := Hexadecimal(n);
    var entity := ['#', x] + digits;
    assert entity[..2] == ['#', x] && entity[2..] == digits && digits[0] in digits;
    hide ValueIn, Hexadecimal, NamedEntity;
  }

  /** Decimal and hexadecimal references of every Unicode scalar value decode to it. */
  lemma NumericReferencesDecode(x: char, n: nat, rest: string)
    requires IsScalar(n) && (x == 'x' || x == 'X')
    ensures Decode("&" + ("#" + Decimal(n)) + ";" + rest) == [n as char] + Decode(rest)
    ensures Decode("&" + (['#', x] + Hexadecimal(n)) + ";" + rest) == [n as char] + Decode(rest)
  {
    DecimalEntity(n);
    HexadecimalEntity(x, n);
    hide Decode, Replacement, Decimal, Hexadecimal;
    ReferenceDecodes("#" + Decimal(n), rest);
    ReferenceDecodes(['#', x] + Hexadecimal(n), rest);
  }

  // ---------------------------------------------------------------- names that lose something

  predicate HasUmlaut(v: char) { v == 'a' || v == 'o' || v == 'u' || v == 'A' || v == 'O' || v == 'U' }

  lemma UmlautEntity(v: char)
    requires HasUmlaut(v)
    ensures Replacement([v] + "uml") == [v] && ';' !in [v] + "uml"
  {
    var entity := [v] + "uml";
    assert entity[0] == v && entity[1..] == "uml";
    assert forall w: char :: [w, 'u', 'm', 'l'][0] == w;
    assert "auml"[1..] == "uml" && "Auml"[1..] == "uml" && "ouml"[1..] == "uml";
    assert "Ouml"[1..] == "uml" && "uuml"[1..] == "uml" && "Uuml"[1..] == "uml";
  }

  /** An umlaut reference decodes to the letter it is named after, without its dots. */
  lemma UmlautsLoseTheirDots(v: char, rest: string)
    requires HasUmlaut(v)
    ensures Decode("&" + ([v] + "uml") + ";" + rest) == [v] + Decode(rest)
  {
    UmlautEntity(v);
    hide Decode, Replacement;
    ReferenceDecodes([v] + "uml", rest);
  }
}
