/** Which character references the decoder overlooks: a bare ampersand close before one takes the
    reference's semicolon for its own. */
module HiddenReferences {
  import opened Wrappers
  import opened Text
  import opened HtmlEntities

  lemma {:induction false} OnlyDigitsHaveAValue(radix: nat, digits: string, k: nat)
    requires (radix == 10 || radix == 16) && k < |digits| && DigitIn(radix, digits[k]).None?
    ensures ValueIn(radix, digits).None?
  {
    if k < |digits| - 1 {
      OnlyDigitsHaveAValue(radix, digits[..|digits| - 1], k);
    }
  }

  /** A reference that contains an ampersand stands for nothing. */
  lemma AmpersandSpoilsAReference(entity: string, k: nat)
    requires k < |entity| && entity[k] == '&'
    ensures DecodedEntity(entity).None?
  {
    if "#x" <= entity || "#X" <= entity {
      NoNumberWithAmpersand(16, entity[2..], k - 2);
    } else if "#" <= entity {
      NoNumberWithAmpersand(10, entity[1..], k - 1);
    }
  }

  lemma NoNumberWithAmpersand(radix: nat, text: string, k: nat)
    requires (radix == 10 || radix == 16) && k < |text| && text[k] == '&'
    ensures ParseU32(radix, text).None?
  {
    if text[0] == '+' {
      OnlyDigitsHaveAValue(radix, text[1..], k - 1);
    } else {
      OnlyDigitsHaveAValue(radix, text, k);
    }
  }

  /** A bare ampersand hides the reference that follows it within the window: both are copied. */
  lemma BareAmpersandHidesTheNextReference(before: string, name: string, rest: string)
    requires ';' !in before && ';' !in name && |before| + 1 + |name| < WINDOW
    ensures var entity := before + "&" + name;
            Decode("&" + entity + ";" + rest) == "&" + entity + ";" + Decode(rest)
  {
    var entity := before + "&" + name;
    AmpersandSpoilsAReference(entity, |before|);
    ReferenceDecodes(entity, rest);
    hide Decode, DecodedEntity;
  }

  /** At i stands an ampersand that no semicolon follows, close enough to take the semicolon of a
      reference with n characters behind the text for its own. */
  ghost predicate HidesAt(a: string, i: nat, n: nat) {
    && i < |a| && a[i] == '&' && |a| - i + n + 1 <= WINDOW
    && forall k :: i < k < |a| ==> a[k] != ';'
  }

  ghost predicate Hides(a: string, n: nat) { exists i: nat :: HidesAt(a, i, n) }

  lemma HidesBehind(a: string, d: nat, n: nat)
    requires d <= |a| && forall i: nat :: i < d ==> !HidesAt(a, i, n)
    ensures Hides(a, n) <==> Hides(a[d..], n)
  {
    if i: nat :| HidesAt(a, i, n) {
      assert HidesAt(a[d..], i - d, n);
    }
    if i: nat :| HidesAt(a[d..], i, n) {
      HidesShifted(a, d, i, n);
    }
  }

  lemma HidesShifted(a: string, d: nat, i: nat, n: nat)
    requires d <= |a| && HidesAt(a[d..], i, n)
    ensures HidesAt(a, d + i, n)
  {
    forall k | d + i < k < |a|
      ensures a[k] != ';'
    {
      assert a[k] == a[d..][k - d];
    }
  }

  /** A reference in front of more text. */
  function Reference(e: string, rest: string): string { "&" + e + ";" + rest }

  /** What decoding should make of text, reference and rest. */
  ghost predicate DecodesBehind(a: string, e: string, c: char, rest: string) {
    Decode(a + Reference(e, rest)) == Decode(a) + ([c] + Decode(rest))
  }

  /** Decoding the same prefix on both sides leaves the same question about what follows. */
  lemma SamePrefix(a: string, tail: string, p: string, e: string, c: char, rest: string)
    requires Decode(a + Reference(e, rest)) == p + Decode(tail + Reference(e, rest)) && Decode(a) == p + Decode(tail)
    ensures DecodesBehind(a, e, c, rest) <==> DecodesBehind(tail, e, c, rest)
  {
    hide Decode, Reference;
    var wanted := [c] + Decode(rest);
    Regroup(p, Decode(tail), wanted);
    Cancel(p, Decode(tail + Reference(e, rest)), Decode(tail) + wanted);
  }

  lemma Cancel(p: string, x: string, y: string)
    ensures p + x == p + y <==> x == y
  {
    assert (p + x)[|p|..] == x && (p + y)[|p|..] == y;
  }

  lemma PlainBefore(a: string, e: string, c: char, rest: string)
    requires a != "" && a[0] != '&'
    ensures DecodesBehind(a, e, c, rest) <==> DecodesBehind(a[1..], e, c, rest)
  {
    var s := a + Reference(e, rest);
    assert s[0] == a[0] && s[1..] == a[1..] + Reference(e, rest);
    DecodePlain(s);
    DecodePlain(a);
    hide Decode, Reference;
    SamePrefix(a, a[1..], [a[0]], e, c, rest);
  }

  lemma ReferenceBefore(a: string, j: nat, e: string, c: char, rest: string)
    requires 1 <= j < |a| && j <= WINDOW && a[0] == '&' && a[j] == ';' && forall k :: 1 <= k < j ==> a[k] != ';'
    ensures DecodesBehind(a, e, c, rest) <==> DecodesBehind(a[j + 1..], e, c, rest)
  {
    var s := a + Reference(e, rest);
    assert forall k :: 0 <= k <= j ==> s[k] == a[k];
    assert s[1..j] == a[1..j] && s[j + 1..] == a[j + 1..] + Reference(e, rest);
    hide Decode, Reference, Replacement;
    DecodeReference(s, j);
    DecodeReference(a, j);
    SamePrefix(a, a[j + 1..], Replacement(a[1..j]), e, c, rest);
  }

  /** An ampersand too far from the reference, and from any semicolon before it, stands alone. */
  lemma BareBefore(a: string, e: string, c: char, rest: string)
    requires a != "" && a[0] == '&' && !HidesAt(a, 0, |e|) && ';' !in e
    requires forall k :: 1 <= k < |a| && k <= WINDOW ==> a[k] != ';'
    ensures DecodesBehind(a, e, c, rest) <==> DecodesBehind(a[1..], e, c, rest)
  {
    var s := a + Reference(e, rest);
    forall k | 1 <= k < |s| && k <= WINDOW
      ensures s[k] != ';'
    {
      if k < |a| {
        assert s[k] == a[k];
      } else if |a| < k <= |a| + |e| {
        assert s[k] == e[k - |a| - 1];
      }
    }
    assert s[0] == '&' && s[1..] == a[1..] + Reference(e, rest);
    hide Decode, Reference;
    DecodeBare(s);
    DecodeBare(a);
    SamePrefix(a, a[1..], "&", e, c, rest);
  }

  lemma HiddenBefore(a: string, e: string, c: char, rest: string)
    requires HidesAt(a, 0, |e|) && ';' !in e
    ensures !DecodesBehind(a, e, c, rest)
  {
    var before := a[1..];
    assert a == "&" + before;
    assert ';' !in before;
    assert "&" + (before + "&" + e) + ";" + rest == a + Reference(e, rest);
    hide Decode, Reference, HidesAt;
    BareAmpersandHidesTheNextReference(before, e, rest);
    DecodingNeverGrows(a);
  }

  /** A reference that stands for a character is decoded, and the text before it as it would be
      alone, exactly when no ampersand before it hides it. */
  lemma {:induction false} ReferenceDecodesExactly(a: string, e: string, c: char, rest: string)
    requires |e| < WINDOW && ';' !in e && '&' !in e && DecodedEntity(e) == Some(c)
    ensures Decode(a + Reference(e, rest)) == Decode(a) + ([c] + Decode(rest)) <==> !Hides(a, |e|)
    decreases |a|
  {
    hide Decode, DecodedEntity, Reference;
    if a == "" {
      FirstReference(e, c, rest);
    } else if a[0] != '&' {
      PlainBefore(a, e, c, rest);
      HidesBehind(a, 1, |e|);
      ReferenceDecodesExactly(a[1..], e, c, rest);
    } else if HidesAt(a, 0, |e|) {
      HiddenBefore(a, e, c, rest);
    } else {
      var j := FirstSemicolon(a);
      if j.Some? {
        ReferenceBefore(a, j.value, e, c, rest);
        HidesBehind(a, j.value + 1, |e|);
        ReferenceDecodesExactly(a[j.value + 1..], e, c, rest);
      } else {
        BareBefore(a, e, c, rest);
        HidesBehind(a, 1, |e|);
        ReferenceDecodesExactly(a[1..], e, c, rest);
      }
    }
  }

  lemma FirstReference(e: string, c: char, rest: string)
    requires |e| < WINDOW && ';' !in e && DecodedEntity(e) == Some(c)
    ensures DecodesBehind("", e, c, rest) && !Hides("", |e|)
  {
    hide DecodedEntity;
    ReferenceDecodes(e, rest);
    assert "" + Reference(e, rest) == "&" + e + ";" + rest;
    assert Decode("") == "";
  }

  /** The first semicolon the window reaches behind the first character. */
  lemma FirstSemicolon(a: string) returns (j: Option<nat>)
    requires a != ""
    ensures j.Some? ==> 1 <= j.value < |a| && j.value <= WINDOW && a[j.value] == ';' && forall k :: 1 <= k < j.value ==> a[k] != ';'
    ensures j.None? ==> forall k :: 1 <= k < |a| && k <= WINDOW ==> a[k] != ';'
  {
    assert forall k :: 1 <= k < |a| ==> a[k] == a[1..][k - 1];
    match NextSemicolon(a[1..], WINDOW)
    case None => j := None;
    case Some(i) => j := Some(i + 1);
  }
}
