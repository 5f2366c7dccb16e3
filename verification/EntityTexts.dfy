/** Which texts between an ampersand and a semicolon stand for a character, and for which. */
module EntityTexts {
  import opened Wrappers
  import opened Text
  import opened HtmlEntities

  // ---------------------------------------------------------------- names

  const NAMES := map[
    "lt" := '<', "gt" := '>', "quot" := '"', "apos" := '\'', "amp" := '&', "nbsp" := ' ', "szlig" := '?',
    "auml" := 'a', "ouml" := 'o', "uuml" := 'u', "Auml" := 'A', "Ouml" := 'O', "Uuml" := 'U']

  /** The named references, and no others. */
  lemma NamesExactly(name: string)
    requires name != "" && name[0] != '#'
    ensures DecodedEntity(name) == if name in NAMES then Some(NAMES[name]) else None
  {
  }

  // ---------------------------------------------------------------- numbers

  lemma LowerDigit(c: char)
    ensures DigitIn(16, LowerChar(c)) == DigitIn(16, c)
  {
  }

  lemma {:induction false} LowerValue(s: string)
    ensures ValueIn(16, ToLower(s)) == ValueIn(16, s)
  {
    if s != "" {
      LowerValue(s[..|s| - 1]);
      LowerDigit(s[|s| - 1]);
      hide DigitIn, LowerChar;
      assert ToLower(s)[..|s| - 1] == ToLower(s[..|s| - 1]);
    }
  }

  lemma LowerNumber(s: string)
    ensures ParseU32(16, ToLower(s)) == ParseU32(16, s)
  {
    if s != "" && s[0] == '+' {
      assert ToLower(s)[1..] == ToLower(s[1..]);
      LowerValue(s[1..]);
    } else {
      assert s != "" ==> LowerChar(s[0]) != '+';
      LowerValue(s);
    }
    hide ValueIn;
  }

  /** Hexadecimal references may be written in either case. */
  lemma HexadecimalIgnoresCase(s: string)
    ensures DecodedEntity("#x" + s) == DecodedEntity("#X" + s) == DecodedEntity("#x" + ToLower(s))
  {
    LowerNumber(s);
    hide ParseU32, CharFrom;
    assert ("#x" + s)[2..] == s && ("#X" + s)[2..] == s && ("#x" + ToLower(s))[2..] == ToLower(s);
  }

  /** Without digits, or with anything else behind an optional plus sign, there is no character. */
  lemma NumbersNeedDigits(s: string)
    requires s == "" || (s[0] != 'x' && s[0] != 'X')
    requires s == "" || s == "+" || exists i :: 0 <= i < |s| && !IsDigit(s[i]) && (i == 0 ==> s[0] != '+')
    ensures DecodedEntity("#" + s) == None
  {
    assert ("#" + s)[1..] == s;
    NoneIsNoChar();
    hide CharFrom, ParseU32;
    if s == "" || s == "+" {
      NothingIsNoNumber(s);
    } else {
      var i :| 0 <= i < |s| && !IsDigit(s[i]) && (i == 0 ==> s[0] != '+');
      NoDigitNoNumber(s, i);
    }
  }

  lemma NoneIsNoChar()
    ensures CharFrom(None) == None
  {
  }

  lemma NothingIsNoNumber(s: string)
    requires s == "" || s == "+"
    ensures ParseU32(10, s) == None
  {
  }

  lemma {:induction false} NoDigitNoValue(s: string, i: nat)
    requires i < |s| && !IsDigit(s[i])
    ensures ValueIn(10, s) == None
  {
    if i < |s| - 1 {
      NoDigitNoValue(s[..|s| - 1], i);
    }
  }

  lemma NoDigitNoNumber(s: string, i: nat)
    requires i < |s| && !IsDigit(s[i]) && (i == 0 ==> s[0] != '+')
    ensures ParseU32(10, s) == None
  {
    if s[0] == '+' {
      NoDigitNoValue(s[1..], i - 1);
    } else {
      NoDigitNoValue(s, i);
    }
  }

  lemma {:induction false} DecimalIsRead(n: nat)
    ensures ValueIn(10, Decimal(n)) == Some(n)
  {
    var s := Decimal(n);
    if n >= 10 {
      DecimalIsRead(n / 10);
      assert s[..|s| - 1] == Decimal(n / 10);
    } else {
      assert s[..0] == "" && ValueIn(10, "") == Some(0);
    }
  }

  /** Surrogates and numbers beyond the last code point stand for nothing; all others for the
      character of that number. */
  lemma DecimalReferencesExactly(n: nat)
    ensures DecodedEntity("#" + Decimal(n)) ==
      if 0xD800 <= n <= 0xDFFF || n >= 0x11_0000 then None else Some(n as char)
  {
    DecimalIsRead(n);
    var s := Decimal(n);
    assert IsDigit(s[0]);
    hide ValueIn, Decimal;
    assert ("#" + s)[1..] == s;
  }
}
