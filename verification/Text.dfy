/** Strings as the three languages of the repository see them: trimming, splitting, joining
    and decimal printing.  Every parser and printer below is built from these. */
module Text {
  import opened Wrappers

  /** Whose notion of white space a trim uses. */
  datatype Dialect = Rust | Python

  predicate IsSpace(d: Dialect, c: char) {
    || '\U{09}' <= c <= '\U{0D}'
    || c == ' '
    || c == '\U{85}' || c == '\U{A0}' || c == '\U{1680}' || c == '\U{3000}'
    || c == '\U{2028}' || c == '\U{2029}' || c == '\U{202F}' || c == '\U{205F}'
    || '\U{2000}' <= c <= '\U{200A}'
    || (d.Python? && '\U{1C}' <= c <= '\U{1F}')
  }

  function TrimStart(d: Dialect, s: string): (t: string)
    ensures t != "" ==> !IsSpace(d, t[0])
    ensures |t| <= |s| && t == s[|s| - |t|..]
  {
    if s != "" && IsSpace(d, s[0]) then TrimStart(d, s[1..]) else s
  }

  function TrimEnd(d: Dialect, s: string): (t: string)
    ensures t != "" ==> !IsSpace(d, t[|t| - 1])
    ensures t <= s
  {
    if s != "" && IsSpace(d, s[|s| - 1]) then TrimEnd(d, s[..|s| - 1]) else s
  }

  function Trim(d: Dialect, s: string): (t: string)
    ensures Trimmed(d, t)
    ensures Trimmed(d, s) ==> t == s
  {
    TrimEnd(d, TrimStart(d, s))
  }

  lemma TrimKeepsChars(d: Dialect, s: string)
    ensures forall c :: c in Trim(d, s) ==> c in s
  {
    var t := TrimStart(d, s);
    assert forall c :: c in TrimEnd(d, t) ==> c in t;
  }

  predicate Trimmed(d: Dialect, s: string) {
    s != "" ==> !IsSpace(d, s[0]) && !IsSpace(d, s[|s| - 1])
  }

  /** A text is trimmed as soon as its two ends are not white space. */
  lemma TrimmedByEnds(d: Dialect, first: string, middle: string, last: string)
    requires first != "" && last != ""
    requires !IsSpace(d, first[0]) && !IsSpace(d, last[|last| - 1])
    ensures Trimmed(d, first + middle + last)
  {
    hide IsSpace;
    var s := first + middle + last;
    assert s[0] == first[0] && s[|s| - 1] == last[|last| - 1];
  }

  /** One space in front of trimmed text is dropped. */
  lemma TrimLeadingSpace(d: Dialect, s: string)
    requires Trimmed(d, s)
    ensures Trim(d, " " + s) == s
  {
    var t := " " + s;
    assert IsSpace(d, t[0]) && t[1..] == s;
    hide IsSpace;
    assert TrimStart(d, t) == TrimStart(d, s);
    assert TrimStart(d, s) == s;
  }

  lemma TrimLeavesOut(d: Dialect, text: string, c: char)
    requires c !in text
    ensures c !in Trim(d, text)
  {
    TrimKeepsChars(d, text);
  }

  lemma {:induction false} TrimStartBefore(d: Dialect, a: string, sep: char, b: string)
    requires !IsSpace(d, sep)
    ensures TrimStart(d, a + [sep] + b) == TrimStart(d, a) + [sep] + b
  {
    hide IsSpace;
    var s := a + [sep] + b;
    if a == "" {
      assert s[0] == sep;
    } else {
      assert s[0] == a[0] && s[1..] == a[1..] + [sep] + b;
      if IsSpace(d, a[0]) {
        TrimStartBefore(d, a[1..], sep, b);
      }
    }
  }

  lemma {:induction false} TrimEndAfter(d: Dialect, a: string, sep: char, b: string)
    requires !IsSpace(d, sep)
    ensures TrimEnd(d, a + [sep] + b) == a + [sep] + TrimEnd(d, b)
  {
    hide IsSpace;
    var s := a + [sep] + b;
    if b == "" {
      assert s[|s| - 1] == sep;
    } else {
      assert s[|s| - 1] == b[|b| - 1] && s[..|s| - 1] == a + [sep] + b[..|b| - 1];
      if IsSpace(d, b[|b| - 1]) {
        TrimEndAfter(d, a, sep, b[..|b| - 1]);
      }
    }
  }

  lemma {:induction false} TrimStartKeepsTheLast(d: Dialect, b: string, c: char)
    requires IsSpace(d, c)
    ensures TrimStart(d, b + [c]) == if TrimStart(d, b) == "" then "" else TrimStart(d, b) + [c]
  {
    hide IsSpace;
    var s := b + [c];
    if b == "" {
      assert s[1..] == "";
    } else if IsSpace(d, b[0]) {
      var rest := b[1..];
      assert s[1..] == rest + [c];
      TrimStartKeepsTheLast(d, rest, c);
    }
  }

  lemma TrimEndDrops(d: Dialect, t: string, c: char)
    requires IsSpace(d, c)
    ensures TrimEnd(d, t + [c]) == TrimEnd(d, t)
  {
    hide IsSpace;
    assert (t + [c])[..|t|] == t;
  }

  lemma {:induction false} TrimIgnoresTheEnd(d: Dialect, b: string)
    ensures Trim(d, TrimEnd(d, b)) == Trim(d, b)
  {
    if b != "" && IsSpace(d, b[|b| - 1]) {
      var init, c := b[..|b| - 1], b[|b| - 1];
      TrimIgnoresTheEnd(d, init);
      assert b == init + [c];
      TrimEndDrops(d, init, c);
      TrimStartKeepsTheLast(d, init, c);
      TrimEndDrops(d, TrimStart(d, init), c);
      hide TrimEnd, TrimStart, IsSpace;
    } else {
      hide IsSpace, TrimStart;
    }
  }

  lemma {:induction false} TrimStartKeepsOut(d: Dialect, s: string, c: char)
    requires c !in s
    ensures c !in TrimStart(d, s)
  {
  }

  function ToUpper(s: string): (t: string)
    ensures |t| == |s|
    ensures forall i :: 0 <= i < |s| ==> t[i] == UpperChar(s[i])
  {
    seq(|s|, i requires 0 <= i < |s| => UpperChar(s[i]))
  }

  function ToLower(s: string): (t: string)
    ensures |t| == |s|
    ensures forall i :: 0 <= i < |s| ==> t[i] == LowerChar(s[i])
  {
    seq(|s|, i requires 0 <= i < |s| => LowerChar(s[i]))
  }

  function UpperChar(c: char): char {
    if 'a' <= c <= 'z' then (c as int - 32) as char else c
  }

  function LowerChar(c: char): char {
    if 'A' <= c <= 'Z' then (c as int + 32) as char else c
  }

  predicate IsDigit(c: char) { '0' <= c <= '9' }

  predicate IsLetter(c: char) { 'a' <= c <= 'z' || 'A' <= c <= 'Z' }

  // ---------------------------------------------------------------- splitting and joining

  function Split(s: string, sep: char): (parts: seq<string>)
    ensures |parts| >= 1
    ensures forall p :: p in parts ==> sep !in p
    ensures forall p, c :: p in parts && c in p ==> c in s
  {
    if s == "" then [""]
    else if s[0] == sep then [""] + Split(s[1..], sep)
    else
      var rest := Split(s[1..], sep);
      [[s[0]] + rest[0]] + rest[1..]
  }

  lemma {:induction false} SplitWhole(s: string, sep: char)
    requires sep !in s
    ensures Split(s, sep) == [s]
  {
    if s != "" {
      SplitWhole(s[1..], sep);
      assert [s[0]] + s[1..] == s;
    }
  }

  lemma {:induction false} SplitFirst(a: string, sep: char, b: string)
    requires sep !in a
    ensures Split(a + [sep] + b, sep) == [a] + Split(b, sep)
  {
    var s := a + [sep] + b;
    if a == "" {
      assert s[1..] == b;
    } else {
      assert s[1..] == a[1..] + [sep] + b;
      SplitFirst(a[1..], sep, b);
      assert [a[0]] + a[1..] == a;
    }
  }

  lemma {:induction false} SplitConcat(a: string, sep: char, b: string)
    ensures Split(a + [sep] + b, sep) == Split(a, sep) + Split(b, sep)
  {
    var s := a + [sep] + b;
    if a == "" {
      assert s[1..] == b;
    } else {
      assert s[0] == a[0] && s[1..] == a[1..] + [sep] + b;
      SplitConcat(a[1..], sep, b);
    }
  }

  function Join(parts: seq<string>, sep: string): string {
    if |parts| == 0 then ""
    else if |parts| == 1 then parts[0]
    else parts[0] + sep + Join(parts[1..], sep)
  }

  lemma {:induction false} SplitJoin(parts: seq<string>, sep: char)
    requires parts != []
    requires forall p :: p in parts ==> sep !in p
    ensures Split(Join(parts, [sep]), sep) == parts
  {
    if |parts| == 1 {
      SplitWhole(parts[0], sep);
    } else {
      SplitJoin(parts[1..], sep);
      SplitFirst(parts[0], sep, Join(parts[1..], [sep]));
    }
  }

  /** Joining what was split gives the text back. */
  lemma {:induction false} JoinSplit(s: string, sep: char)
    ensures Join(Split(s, sep), [sep]) == s
  {
    if s != "" {
      var rest := Split(s[1..], sep);
      JoinSplit(s[1..], sep);
      assert s == [s[0]] + s[1..];
      if s[0] == sep {
        assert Split(s, sep)[1..] == rest;
      } else if |rest| > 1 {
        var parts := [[s[0]] + rest[0]] + rest[1..];
        assert parts[1..] == rest[1..];
      }
    }
  }

  /** The text before and after the first separator, as `split_once` and `partition` give it. */
  function SplitOnce(s: string, sep: char): (r: Option<(string, string)>)
    ensures r.None? <==> sep !in s
    ensures r.Some? ==> s == r.value.0 + [sep] + r.value.1 && sep !in r.value.0
  {
    if s == "" then None
    else if s[0] == sep then Some(("", s[1..]))
    else
      match SplitOnce(s[1..], sep)
      case None => None
      case Some((a, b)) => Some(([s[0]] + a, b))
  }

  lemma {:induction false} SplitOnceAt(a: string, sep: char, b: string)
    requires sep !in a
    ensures SplitOnce(a + [sep] + b, sep) == Some((a, b))
  {
    var s := a + [sep] + b;
    if a == "" {
      assert s[1..] == b;
    } else {
      assert s[1..] == a[1..] + [sep] + b;
      SplitOnceAt(a[1..], sep, b);
      assert [a[0]] + a[1..] == a;
    }
  }

  // ---------------------------------------------------------------- decimal text

  function DigitChar(d: nat): (c: char)
    requires d < 10
    ensures IsDigit(c) && DigitValue(c) == d
  {
    ('0' as int + d) as char
  }

  function DigitValue(c: char): nat
    requires IsDigit(c)
  {
    c as int - '0' as int
  }

  predicate AllDigits(s: string) { forall i :: 0 <= i < |s| ==> IsDigit(s[i]) }

  function Decimal(n: nat): (s: string)
    ensures s != "" && AllDigits(s)
  {
    if n < 10 then [DigitChar(n)] else Decimal(n / 10) + [DigitChar(n % 10)]
  }

  function DecimalValue(s: string): nat
    requires AllDigits(s)
  {
    if s == "" then 0 else 10 * DecimalValue(s[..|s| - 1]) + DigitValue(s[|s| - 1])
  }

  lemma {:induction false} DecimalRoundTrip(n: nat)
    ensures DecimalValue(Decimal(n)) == n
  {
    if n >= 10 {
      DecimalRoundTrip(n / 10);
      var s := Decimal(n);
      assert s[..|s| - 1] == Decimal(n / 10);
    } else {
      assert Decimal(n)[..0] == "";
    }
  }

  lemma DecimalInjective(m: nat, n: nat)
    requires Decimal(m) == Decimal(n)
    ensures m == n
  {
    DecimalRoundTrip(m);
    DecimalRoundTrip(n);
  }

  function Power(b: nat, k: nat): nat { if k == 0 then 1 else b * Power(b, k - 1) }

  lemma {:induction false} DecimalIsShort(n: nat, k: nat)
    requires 1 <= k && n < Power(10, k)
    ensures |Decimal(n)| <= k
    decreases k
  {
    if n >= 10 {
      DecimalIsShort(n / 10, k - 1);
    }
  }

  /** How a signed integer prints. */
  function SignedText(n: int): (s: string)
    ensures s != "" && (s[0] == '-' <==> n < 0) && (n >= 0 ==> AllDigits(s))
    ensures IsDigit(s[|s| - 1])
  {
    if n < 0 then "-" + Decimal(-n) else Decimal(n)
  }

  lemma SignedTextInjective(m: int, n: int)
    requires SignedText(m) == SignedText(n)
    ensures m == n
  {
    var s := SignedText(m);
    if m < 0 {
      assert s[1..] == Decimal(-m) == Decimal(-n);
      DecimalInjective(-m, -n);
    } else {
      DecimalInjective(m, n);
    }
  }
}
