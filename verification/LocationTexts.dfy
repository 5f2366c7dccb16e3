/** Which texts name a place in the warehouse, and which place. */
module LocationTexts {
  import opened Wrappers
  import opened Text
  import opened IntakeText

  predicate IsSectionLetter(c: char) { 'A' <= c <= 'K' || c == 'M' }

  /** A slot text: at least one digit, then letters, in capitals. */
  predicate IsSlotText(t: string, n: nat) {
    && 1 <= n <= |t|
    && (forall k :: 0 <= k < n ==> '0' <= t[k] <= '9')
    && (forall k :: n <= k < |t| ==> 'A' <= t[k] <= 'Z')
  }

  lemma SectionLetters(s: string)
    requires s != ""
    ensures s[..1] in SECTIONS <==> IsSectionLetter(s[0])
  {
    assert s[..1] == [s[0]];
    forall i | 0 <= i < |SECTIONS|
      ensures SECTIONS[i] == [SECTIONS[i][0]] && IsSectionLetter(SECTIONS[i][0])
    {
    }
    if IsSectionLetter(s[0]) {
      assert [s[0]] in SECTIONS by {
        LetterIsASection(s[0]);
      }
    }
  }

  lemma LetterIsASection(c: char)
    requires IsSectionLetter(c)
    ensures [c] in SECTIONS
  {
    var i := if c == 'M' then 11 else c as int - 'A' as int;
    assert 0 <= i < 12 && SECTIONS[i] == [c];
  }

  lemma {:induction false} DigitsEndAt(t: string, n: nat)
    requires n <= |t| && (forall k :: 0 <= k < n ==> IsDigit(t[k])) && (n < |t| ==> !IsDigit(t[n]))
    ensures LeadingDigits(t) == n
  {
    if n > 0 {
      DigitsEndAt(t[1..], n - 1);
    }
  }

  lemma PartsOfASlot(t: string, n: nat)
    requires IsSlotText(t, n)
    ensures SlotParts(t) == Some((t[..n], t[n..])) && t[..n] != "" && AllDigits(t[..n])
  {
    DigitsEndAt(t, n);
    assert forall k :: 0 <= k < |t[n..]| ==> IsLetter(t[n..][k]);
  }

  lemma SlotOfParts(t: string)
    requires ToUpper(t) == t && SlotParts(t).Some? && SlotParts(t).value.0 != ""
    ensures IsSlotText(t, LeadingDigits(t))
  {
    var n := LeadingDigits(t);
    assert t[..n] != "";
    forall k | 0 <= k < n
      ensures '0' <= t[k] <= '9'
    {
      assert IsDigit(t[..n][k]);
    }
    forall k | n <= k < |t|
      ensures 'A' <= t[k] <= 'Z'
    {
      assert t[n..][k - n] in t[n..];
      assert ToUpper(t)[k] == UpperChar(t[k]);
    }
  }

  /** The number that a text of digits writes, by its digits' places. */
  function PlaceValue(digits: string): nat
    requires forall k :: 0 <= k < |digits| ==> '0' <= digits[k] <= '9'
  {
    if digits == "" then 0
    else (digits[0] as int - '0' as int) * Power(10, |digits| - 1) + PlaceValue(digits[1..])
  }

  lemma {:induction false} PlacesAddUp(digits: string)
    requires AllDigits(digits)
    ensures DecimalValue(digits) == PlaceValue(digits)
    decreases |digits|
  {
    if digits != "" {
      SnocPlace(digits);
      PlacesAddUp(digits[..|digits| - 1]);
    }
  }

  lemma {:induction false} SnocPlace(digits: string)
    requires AllDigits(digits) && digits != ""
    ensures PlaceValue(digits) == 10 * PlaceValue(digits[..|digits| - 1]) + DigitValue(digits[|digits| - 1])
  {
    var n := |digits| - 1;
    var init := digits[..n];
    if n == 0 {
      assert Power(10, 0) == 1 && digits[1..] == "";
    } else {
      var tail := digits[1..];
      SnocPlace(tail);
      assert tail[..n - 1] == init[1..] && tail[n - 1] == digits[n];
      assert Power(10, n) == 10 * Power(10, n - 1);
      var d := digits[0] as int - '0' as int;
      assert d * Power(10, n) == 10 * (d * Power(10, n - 1));
    }
  }

  /** The first n characters of a slot text write this number, which is positive and fits 32 bits. */
  predicate WritesSlot(t: string, n: nat, slot: int) {
    IsSlotText(t, n) && slot == PlaceValue(t[..n]) && 1 <= slot <= 0x7FFF_FFFF
  }

  /** The text names this place: a section letter, perhaps blanks, and a slot text; the place is
      written without the blanks. */
  ghost predicate Names(text: string, seat: Location) {
    var s := ToUpper(Trim(Rust, text));
    && 1 <= |s| <= 64 && IsSectionLetter(s[0])
    && seat.section == s[..1] && seat.text == s[..1] + Trim(Rust, s[1..])
    && exists n: nat :: WritesSlot(Trim(Rust, s[1..]), n, seat.slot)
  }

  lemma SlotIsParsed(raw: string, n: nat, slot: int)
    requires ToUpper(raw) == raw && WritesSlot(Trim(Rust, raw), n, slot)
    ensures ParsedSlot(raw) == Ok((slot, Trim(Rust, raw)))
  {
    var t := Trim(Rust, raw);
    UpperStays(raw);
    PartsOfASlot(t, n);
    PlacesAddUp(t[..n]);
    assert t[..n] + t[n..] == t;
    hide Trim, ToUpper, SlotParts, DecimalValue, PlaceValue, AllDigits, IsSlotText;
  }

  lemma ParsedSlotWasWritten(raw: string)
    requires ToUpper(raw) == raw && ParsedSlot(raw).Ok?
    ensures ParsedSlot(raw).value.1 == Trim(Rust, raw)
    ensures WritesSlot(Trim(Rust, raw), LeadingDigits(Trim(Rust, raw)), ParsedSlot(raw).value.0)
  {
    var t := Trim(Rust, raw);
    var n := LeadingDigits(t);
    UpperStays(raw);
    hide Trim, ToUpper, DecimalValue, PlaceValue, IsSlotText, LeadingDigits;
    assert SlotParts(t) == Some((t[..n], t[n..])) && t[..n] + t[n..] == t;
    SlotOfParts(t);
    PlacesAddUp(t[..n]);
  }

  /** Capitals stay capitals when trimmed. */
  lemma UpperStays(s: string)
    requires ToUpper(s) == s
    ensures ToUpper(Trim(Rust, s)) == Trim(Rust, s)
  {
    var t := Trim(Rust, s);
    TrimKeepsChars(Rust, s);
    forall i | 0 <= i < |t|
      ensures UpperChar(t[i]) == t[i]
    {
      assert t[i] in s;
      var k :| 0 <= k < |s| && s[k] == t[i];
      assert ToUpper(s)[k] == UpperChar(s[k]);
    }
    assert ToUpper(t) == t;
  }

  lemma UpperIsUpper(s: string)
    ensures ToUpper(ToUpper(s)) == ToUpper(s)
    ensures forall k :: 0 <= k <= |s| ==> ToUpper(ToUpper(s)[k..]) == ToUpper(s)[k..]
  {
    assert forall c :: UpperChar(UpperChar(c)) == UpperChar(c);
  }

  /** A text is read as a place exactly when it names it. */
  lemma LocationIsReadExactly(text: string, seat: Location)
    ensures ParsedLocation(text) == Ok(seat) <==> Names(text, seat)
  {
    var s := ToUpper(Trim(Rust, text));
    UpperIsUpper(Trim(Rust, text));
    hide Trim, ToUpper, ParsedSlot, WritesSlot, IsSectionLetter;
    if s != "" {
      SectionLetters(s);
      assert ToUpper(s[1..]) == s[1..];
      if ParsedSlot(s[1..]).Ok? {
        ParsedSlotWasWritten(s[1..]);
      }
      forall n: nat | WritesSlot(Trim(Rust, s[1..]), n, seat.slot)
        ensures ParsedSlot(s[1..]) == Ok((seat.slot, Trim(Rust, s[1..])))
      {
        SlotIsParsed(s[1..], n, seat.slot);
      }
    }
  }
}
