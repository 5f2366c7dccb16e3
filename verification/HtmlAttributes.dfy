/** Reading an attribute out of a piece of HTML. */
module HtmlAttributes {
  import opened Wrappers
  import opened Text
  import opened HtmlEntities

  predicate IsAsciiSpace(c: char) { c == ' ' || c == '\t' || c == '\n' || c == '\U{0C}' || c == '\r' }

  predicate IsNameChar(c: char) { IsDigit(c) || IsLetter(c) || c == '_' || c == '-' }

  function SkipSpaces(s: string, p: nat): (q: nat)
    requires p <= |s|
    ensures p <= q <= |s| && (q < |s| ==> !IsAsciiSpace(s[q]))
    ensures forall k :: p <= k < q ==> IsAsciiSpace(s[k])
    decreases |s| - p
  {
    if p < |s| && IsAsciiSpace(s[p]) then SkipSpaces(s, p + 1) else p
  }

  function FindChar(s: string, p: nat, c: char): (q: nat)
    requires p <= |s|
    ensures p <= q <= |s| && (q < |s| ==> s[q] == c)
    ensures forall k :: p <= k < q ==> s[k] != c
    decreases |s| - p
  {
    if p < |s| && s[p] != c then FindChar(s, p + 1, c) else p
  }

  predicate EndsUnquoted(c: char) { IsAsciiSpace(c) || c == '>' || c == '/' }

  function UnquotedEnd(s: string, p: nat): (q: nat)
    requires p <= |s|
    ensures p <= q <= |s| && (q < |s| ==> EndsUnquoted(s[q]))
    ensures forall k :: p <= k < q ==> !EndsUnquoted(s[k])
    decreases |s| - p
  {
    if p < |s| && !EndsUnquoted(s[p]) then UnquotedEnd(s, p + 1) else p
  }

  /** The attribute's name stands at i, in any case, not as the tail of a longer name. */
  predicate NameAt(s: string, attr: string, i: nat) {
    && i + |attr| <= |s| && ToLower(s)[i..i + |attr|] == ToLower(attr)
    && (i == 0 || !IsNameChar(ToLower(s)[i - 1]))
  }

  /** ... and an equals sign follows, spaces aside. */
  predicate AssignedAt(s: string, attr: string, i: nat) {
    NameAt(s, attr, i) && var p := SkipSpaces(s, i + |attr|); p < |s| && s[p] == '='
  }

  predicate IsQuote(c: char) { c == '"' || c == '\'' }

  /** The value that starts behind the equals sign, still escaped. */
  function RawValue(s: string, p: nat): string
    requires p <= |s|
  {
    var q := SkipSpaces(s, p);
    if q == |s| then ""
    else if IsQuote(s[q]) then s[q + 1..FindChar(s, q + 1, s[q])]
    else s[q..UnquotedEnd(s, q)]
  }

  function ValueAt(s: string, attr: string, i: nat): string
    requires AssignedAt(s, attr, i)
  {
    Decode(RawValue(s, SkipSpaces(s, i + |attr|) + 1))
  }

  function Extracted(s: string, attr: string, i: nat): Option<string>
    decreases |s| + 1 - i
  {
    if i + |attr| > |s| then None
    else if AssignedAt(s, attr, i) then Some(ValueAt(s, attr, i))
    else Extracted(s, attr, i + 1)
  }

  /** Skips spaces, then reads up to the closing quote or to the end of the bare word. */
  method ReadValue(s: string, from: nat) returns (value: string)
    requires from <= |s|
    ensures value == Decode(RawValue(s, from))
  {
    hide Decode;
    var p := from;
    while p < |s| && IsAsciiSpace(s[p])
      invariant from <= p <= |s| && SkipSpaces(s, p) == SkipSpaces(s, from)
    {
      p := p + 1;
    }
    if p >= |s| {
      DecodeEnds("");
      return "";
    }
    var first := s[p];
    if IsQuote(first) {
      p := p + 1;
      var start := p;
      while p < |s| && s[p] != first
        invariant start <= p <= |s| && FindChar(s, p, first) == FindChar(s, start, first)
      {
        p := p + 1;
      }
      value := DecodeHtmlEntities(s[start..p]);
      return;
    }
    var start := p;
    while p < |s| && !EndsUnquoted(s[p])
      invariant start <= p <= |s| && UnquotedEnd(s, p) == UnquotedEnd(s, start)
    {
      p := p + 1;
    }
    value := DecodeHtmlEntities(s[start..p]);
  }

  method ExtractAttr(s: string, attr: string) returns (value: Option<string>)
    ensures value == Extracted(s, attr, 0)
  {
    hide ToLower, Decode, RawValue, IsNameChar, IsAsciiSpace;
    var lower, lowerAttr := ToLower(s), ToLower(attr);
    var i := 0;
    while i + |attr| <= |s|
      invariant Extracted(s, attr, i) == Extracted(s, attr, 0)
      decreases |s| - i
    {
      if lower[i..i + |attr|] != lowerAttr {
        i := i + 1;
        continue;
      }
      if i > 0 && IsNameChar(lower[i - 1]) {
        i := i + 1;
        continue;
      }
      var p := i + |attr|;
      while p < |s| && IsAsciiSpace(s[p])
        invariant p <= |s| && SkipSpaces(s, p) == SkipSpaces(s, i + |attr|)
      {
        p := p + 1;
      }
      if p >= |s| || s[p] != '=' {
        i := i + 1;
        continue;
      }
      var text := ReadValue(s, p + 1);
      return Some(text);
    }
    value := None;
  }

  // ---------------------------------------------------------------- writing and reading back

  ghost predicate SpacesIn(s: string, p: nat, q: nat) { q <= |s| && forall k :: p <= k < q ==> IsAsciiSpace(s[k]) }

  ghost predicate NoQuotesIn(s: string, p: nat, q: nat) { q <= |s| && forall k :: p <= k < q ==> !IsQuote(s[k]) }

  ghost predicate NotAssignedIn(s: string, attr: string, p: nat, q: nat) {
    forall j :: p <= j < q ==> !AssignedAt(s, attr, j)
  }

  /** The first place where the attribute is assigned decides. */
  lemma {:induction false} FirstAssignmentDecides(s: string, attr: string, i: nat, k: nat)
    requires i <= k && AssignedAt(s, attr, k) && NotAssignedIn(s, attr, i, k)
    ensures Extracted(s, attr, i) == Some(ValueAt(s, attr, k))
    decreases k - i
  {
    hide AssignedAt, ValueAt;
    assert k + |attr| <= |s| by {
      AssignedInside(s, attr, k);
    }
    if i < k {
      FirstAssignmentDecides(s, attr, i + 1, k);
    }
  }

  lemma AssignedInside(s: string, attr: string, k: nat)
    requires AssignedAt(s, attr, k)
    ensures k + |attr| <= |s|
  {
    hide ToLower;
  }

  lemma {:induction false} SpacesEndAt(s: string, p: nat, q: nat)
    requires p <= q < |s| && !IsAsciiSpace(s[q]) && SpacesIn(s, p, q)
    ensures SkipSpaces(s, p) == q
  {
    hide IsAsciiSpace;
    var r := SkipSpaces(s, p);
    assert r == q;
  }

  lemma {:induction false} CharFoundAt(s: string, p: nat, c: char, q: nat)
    requires p <= q < |s| && s[q] == c && forall k :: p <= k < q ==> s[k] != c
    ensures FindChar(s, p, c) == q
  {
    var r := FindChar(s, p, c);
    assert r == q;
  }

  lemma EscapedCharHasNoQuotes(c: char)
    ensures forall d :: d in EscapedChar(c) ==> !IsQuote(d)
  {
  }

  lemma {:induction false} EscapedTextHasNoQuotes(s: string)
    ensures forall c :: c in Escape(s) ==> !IsQuote(c)
  {
    if s != "" {
      EscapedTextHasNoQuotes(s[1..]);
      EscapedCharHasNoQuotes(s[0]);
      hide EscapedChar, IsQuote;
    }
  }

  /** A quoted text without quotes is the raw value. */
  lemma QuotedTextIsRead(s: string, p: nat, open: nat, end: nat)
    requires p <= open < end < |s| && IsQuote(s[open]) && s[end] == s[open]
    requires SpacesIn(s, p, open) && NoQuotesIn(s, open + 1, end)
    ensures RawValue(s, p) == s[open + 1..end]
  {
    SpacesEndAt(s, p, open);
    CharFoundAt(s, open + 1, s[open], end);
  }

  lemma SliceHasNoQuotes(s: string, from: nat, to: nat, value: string)
    requires from <= to <= |s| && s[from..to] == Escape(value)
    ensures NoQuotesIn(s, from, to)
  {
    EscapedTextHasNoQuotes(value);
    hide IsQuote, Escape;
    assert forall k :: from <= k < to ==> s[k] == s[from..to][k - from];
  }

  lemma AssignedFrom(s: string, attr: string, at: nat, equals: nat)
    requires NameAt(s, attr, at) && at + |attr| <= equals < |s| && s[equals] == '='
    requires SpacesIn(s, at + |attr|, equals)
    ensures AssignedAt(s, attr, at) && ValueAt(s, attr, at) == Decode(RawValue(s, equals + 1))
  {
    hide NameAt, RawValue, Decode, SpacesIn, IsAsciiSpace;
    assert !IsAsciiSpace('=') by {
      EqualsIsNoSpace();
    }
    SpacesEndAt(s, at + |attr|, equals);
  }

  lemma EqualsIsNoSpace()
    ensures !IsAsciiSpace('=')
  {
  }

  /** A quoted, escaped value that is written as the first assignment of an attribute is read
      back, however the name is spelled and whatever spaces surround the equals sign. */
  lemma AttributeReadsBack(s: string, attr: string, at: nat, equals: nat, open: nat, end: nat, value: string)
    requires NameAt(s, attr, at) && NotAssignedIn(s, attr, 0, at)
    requires at + |attr| <= equals < open < end < |s| && s[equals] == '=' && IsQuote(s[open]) && s[end] == s[open]
    requires SpacesIn(s, at + |attr|, equals) && SpacesIn(s, equals + 1, open)
    requires s[open + 1..end] == Escape(value)
    ensures Extracted(s, attr, 0) == Some(value)
  {
    hide *;
    SliceHasNoQuotes(s, open + 1, end, value);
    AssignedFrom(s, attr, at, equals);
    QuotedTextIsRead(s, equals + 1, open, end);
    EscapeRoundTrip(value);
    FirstAssignmentDecides(s, attr, 0, at);
  }
}
