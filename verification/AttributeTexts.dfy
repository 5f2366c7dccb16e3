/** Which text of a piece of HTML is an attribute's value, position by position. */
module AttributeTexts {
  import opened Wrappers
  import opened Text
  import opened HtmlEntities
  import opened HtmlAttributes

  predicate IsBlank(c: char) { c == ' ' || '\U{09}' <= c <= '\U{0A}' || '\U{0C}' <= c <= '\U{0D}' }

  predicate IsOfName(c: char) { '0' <= c <= '9' || 'a' <= c <= 'z' || 'A' <= c <= 'Z' || c == '-' || c == '_' }

  predicate AllBlank(s: string, from: nat, to: nat) { from <= to <= |s| && forall k :: from <= k < to ==> IsBlank(s[k]) }

  /** Equal but for the case of a letter. */
  predicate SameLetter(c: char, d: char) {
    || c == d
    || ('A' <= c <= 'Z' && c as int + 32 == d as int)
    || ('a' <= c <= 'z' && d as int + 32 == c as int)
  }

  // ---------------------------------------------------------------- where an attribute is assigned

  /** The name begins at i, in any case, and is not the end of a longer name; after blanks an equals
      sign stands right before `from`. */
  predicate IsAssigned(s: string, attr: string, i: nat, from: nat) {
    && i + |attr| < from <= |s|
    && (forall k :: 0 <= k < |attr| ==> SameLetter(s[i + k], attr[k]))
    && (i > 0 ==> !IsOfName(s[i - 1]))
    && AllBlank(s, i + |attr|, from - 1) && s[from - 1] == '='
  }

  lemma SameLetterExactly(c: char, d: char)
    ensures SameLetter(c, d) <==> LowerChar(c) == LowerChar(d)
  {
  }

  lemma NamesAgreeExactly(s: string, attr: string, i: nat)
    requires i + |attr| <= |s|
    ensures ToLower(s)[i..i + |attr|] == ToLower(attr) <==> forall k :: 0 <= k < |attr| ==> SameLetter(s[i + k], attr[k])
  {
    forall k | 0 <= k < |attr|
      ensures ToLower(s)[i..i + |attr|][k] == ToLower(attr)[k] <==> SameLetter(s[i + k], attr[k])
    {
      SameLetterExactly(s[i + k], attr[k]);
    }
    hide LowerChar, SameLetter;
  }

  lemma NameCharExactly(c: char)
    ensures IsNameChar(LowerChar(c)) <==> IsOfName(c)
    ensures IsAsciiSpace(c) <==> IsBlank(c)
  {
  }

  lemma NameAtExactly(s: string, attr: string, i: nat)
    requires i + |attr| <= |s|
    ensures NameAt(s, attr, i) <==>
      (forall k :: 0 <= k < |attr| ==> SameLetter(s[i + k], attr[k])) && (i > 0 ==> !IsOfName(s[i - 1]))
  {
    NamesAgreeExactly(s, attr, i);
    if i > 0 {
      NameCharExactly(s[i - 1]);
    }
    hide IsNameChar, IsOfName, SameLetter, LowerChar;
  }

  lemma BlanksAreSkipped(s: string, p: nat, q: nat)
    requires AllBlank(s, p, q) && (q < |s| ==> !IsBlank(s[q]))
    ensures SkipSpaces(s, p) == q
  {
    var r := SkipSpaces(s, p);
    if r < q {
      NameCharExactly(s[r]);
    } else if q < r {
      NameCharExactly(s[q]);
    }
    hide IsBlank, IsAsciiSpace;
  }

  lemma SkippedAreBlank(s: string, p: nat)
    requires p <= |s|
    ensures AllBlank(s, p, SkipSpaces(s, p)) && (SkipSpaces(s, p) < |s| ==> !IsBlank(s[SkipSpaces(s, p)]))
  {
    var q := SkipSpaces(s, p);
    forall k | p <= k < |s|
      ensures IsAsciiSpace(s[k]) <==> IsBlank(s[k])
    {
      NameCharExactly(s[k]);
    }
    hide IsBlank, IsAsciiSpace;
  }

  lemma AssignedExactly(s: string, attr: string, i: nat)
    ensures AssignedAt(s, attr, i) <==> exists from :: IsAssigned(s, attr, i, from)
    ensures forall from :: IsAssigned(s, attr, i, from) ==> SkipSpaces(s, i + |attr|) + 1 == from
  {
    hide ToLower, IsOfName, SameLetter;
    if i + |attr| <= |s| {
      NameAtExactly(s, attr, i);
      hide NameAt;
      var p := SkipSpaces(s, i + |attr|);
      SkippedAreBlank(s, i + |attr|);
      assert !IsBlank('=');
      if AssignedAt(s, attr, i) {
        assert IsAssigned(s, attr, i, p + 1);
      }
      forall from: nat | IsAssigned(s, attr, i, from)
        ensures p + 1 == from
      {
        BlanksAreSkipped(s, i + |attr|, from - 1);
      }
    }
  }

  // ---------------------------------------------------------------- its value

  /** The text from a to b is the value behind an equals sign: after blanks, up to the quote it
      begins with, or up to a blank, '>' or '/', or else up to the end. */
  predicate IsValue(s: string, from: nat, a: nat, b: nat) {
    && from <= a <= b <= |s|
    && if a > from && AllBlank(s, from, a - 1) && s[a - 1] in "\"'"
       then (forall k :: a <= k < b ==> s[k] != s[a - 1]) && (b < |s| ==> s[b] == s[a - 1])
       else
         && AllBlank(s, from, a) && (a < |s| ==> !IsBlank(s[a]) && s[a] !in "\"'")
         && (forall k :: a <= k < b ==> !IsBlank(s[k]) && s[k] != '>' && s[k] != '/')
         && (b < |s| ==> IsBlank(s[b]) || s[b] == '>' || s[b] == '/')
  }

  lemma ValueIsRead(s: string, from: nat, a: nat, b: nat)
    requires from <= |s| && IsValue(s, from, a, b)
    ensures RawValue(s, from) == s[a..b]
  {
    forall k | 0 <= k < |s|
      ensures (IsAsciiSpace(s[k]) <==> IsBlank(s[k])) && (IsQuote(s[k]) <==> s[k] in "\"'")
    {
      NameCharExactly(s[k]);
    }
    assert !IsBlank('"') && !IsBlank('\'');
    hide IsBlank, IsAsciiSpace;
    if a > from && AllBlank(s, from, a - 1) && s[a - 1] in "\"'" {
      BlanksAreSkipped(s, from, a - 1);
      var q := FindChar(s, a, s[a - 1]);
      assert q == b;
    } else {
      BlanksAreSkipped(s, from, a);
      var q := UnquotedEnd(s, a);
      assert q == b;
    }
  }

  // ---------------------------------------------------------------- the whole search

  lemma {:induction false} NothingAssigned(s: string, attr: string, i: nat)
    requires forall j, from :: j >= i ==> !IsAssigned(s, attr, j, from)
    ensures Extracted(s, attr, i).None?
    decreases |s| + 1 - i
  {
    AssignedExactly(s, attr, i);
    hide IsAssigned, AssignedAt, ValueAt;
    if i + |attr| <= |s| {
      NothingAssigned(s, attr, i + 1);
    }
  }

  /** The search finds nothing exactly when the attribute is assigned nowhere. */
  lemma NothingIsFoundExactly(s: string, attr: string)
    ensures Extracted(s, attr, 0).None? <==> forall i, from :: !IsAssigned(s, attr, i, from)
  {
    hide Extracted, ValueAt;
    if forall i, from :: !IsAssigned(s, attr, i, from) {
      NothingAssigned(s, attr, 0);
    } else {
      var i, from :| IsAssigned(s, attr, i, from);
      AssignedExactly(s, attr, i);
      var k := FirstAssigned(s, attr, 0, i);
      FirstAssignmentDecides(s, attr, 0, k);
    }
  }

  lemma {:induction false} FirstAssigned(s: string, attr: string, j: nat, i: nat) returns (k: nat)
    requires j <= i && AssignedAt(s, attr, i) && NotAssignedIn(s, attr, 0, j)
    ensures k <= i && AssignedAt(s, attr, k) && NotAssignedIn(s, attr, 0, k)
    decreases i - j
  {
    hide AssignedAt;
    k := j;
    if !AssignedAt(s, attr, j) {
      k := FirstAssigned(s, attr, j + 1, i);
    }
  }

  /** Otherwise it returns the value of the first assignment, decoded. */
  lemma FirstValueIsFound(s: string, attr: string, i: nat, from: nat, a: nat, b: nat)
    requires IsAssigned(s, attr, i, from) && IsValue(s, from, a, b)
    requires forall j, f :: 0 <= j < i ==> !IsAssigned(s, attr, j, f)
    ensures Extracted(s, attr, 0) == Some(Decode(s[a..b]))
  {
    ValueIsRead(s, from, a, b);
    hide *;
    ValueHere(s, attr, i, from);
    NoneBefore(s, attr, i);
    FirstAssignmentDecides(s, attr, 0, i);
  }

  lemma ValueHere(s: string, attr: string, i: nat, from: nat)
    requires IsAssigned(s, attr, i, from) && from <= |s|
    ensures AssignedAt(s, attr, i) && ValueAt(s, attr, i) == Decode(RawValue(s, from))
  {
    AssignedExactly(s, attr, i);
    hide IsAssigned, NameAt, RawValue, Decode;
  }

  lemma NoneBefore(s: string, attr: string, i: nat)
    requires forall j, f :: 0 <= j < i ==> !IsAssigned(s, attr, j, f)
    ensures NotAssignedIn(s, attr, 0, i)
  {
    hide IsAssigned, AssignedAt;
    forall j | 0 <= j < i
      ensures !AssignedAt(s, attr, j)
    {
      AssignedExactly(s, attr, j);
    }
  }
}
