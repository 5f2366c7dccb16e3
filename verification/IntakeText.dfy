/** The text rules an intake request passes through before it reaches the tables. */
module IntakeText {
  import opened Wrappers
  import opened Text

  const I32_MAX := 0x7FFF_FFFF
  const I32_MIN := -0x8000_0000

  const SECTIONS: seq<string> := ["A", "B", "C", "D", "E", "F", "G", "H", "I", "J", "K", "M"]

  datatype IntakeError =
    | InvalidQrCode
    | InvalidKidNumber
    | InvalidBoxTotal
    | InvalidSection
    | InvalidSlotNumber
    | InvalidLocation
    | InvalidDeleteMode
    | AdminRequired
    | PoolExhausted
    | DuplicateIntake
    | NotFound
    | StorageFailure

  datatype Strategy = SameIfExists | AlwaysNew | Manual | PoolAuto

  datatype Location = Location(section: string, slot: int, text: string)

  function NormalizeQrCode(raw: string): Result<string, IntakeError> {
    var qr := Trim(Rust, raw);
    if qr == "" || |qr| > 512 || exists c :: c in qr && IsForbiddenControl(c) then Err(InvalidQrCode) else Ok(qr)
  }

  predicate IsForbiddenControl(c: char) {
    (c < ' ' && c != '\n' && c != '\r' && c != '\t') || '\U{7F}' <= c <= '\U{9F}'
  }

  function NormalizeKidNumber(raw: string): Result<string, IntakeError> {
    var kid := ToUpper(Trim(Rust, raw));
    if kid == "" || |kid| > 64 then Err(InvalidKidNumber) else Ok(kid)
  }

  function NormalizeProductKey(raw: Option<string>): Option<string> {
    if raw.None? then None
    else
      var key := ToUpper(Trim(Rust, raw.value));
      if key == "" then None else Some(key)
  }

  function NormalizeBoxTotal(value: int): Result<int, IntakeError> {
    if 1 <= value <= 20 then Ok(value) else Err(InvalidBoxTotal)
  }

  function NormalizeSection(raw: string): Result<string, IntakeError> {
    var section := ToUpper(Trim(Rust, raw));
    if |section| == 1 && section in SECTIONS then Ok(section) else Err(InvalidSection)
  }

  function NormalizeStrategy(raw: Option<string>): Strategy {
    var name := if raw.None? then "" else ToLower(Trim(Rust, raw.value));
    if name == "always_new" then AlwaysNew
    else if name == "manual" then Manual
    else if name == "pool_auto" then PoolAuto
    else SameIfExists
  }

  // ---------------------------------------------------------------- the internal index

  predicate IsOrderIdChar(c: char) { IsDigit(c) || IsLetter(c) || c == '-' || c == '_' }

  /** The part of a QR code before its first bar, when it can serve as an order id. */
  function ExtractOrderId(qr: string): (id: Option<string>)
    ensures id.Some? ==> 1 <= |id.value| <= 64 && forall c :: c in id.value ==> IsOrderIdChar(c)
  {
    var first := Trim(Rust, Split(qr, '|')[0]);
    if first == "" || |first| > 64 || exists c :: c in first && !IsOrderIdChar(c) then None else Some(first)
  }

  function StripRepeated(prefix: string, s: string): string
    requires prefix != ""
    decreases |s|
  {
    if prefix <= s then StripRepeated(prefix, s[|prefix|..]) else s
  }

  function CompactKid(kid: string): string {
    Trim(Rust, StripRepeated("kid-", StripRepeated("KID-", Trim(Rust, kid))))
  }

  function OrderForIndex(qr: string): (order: string)
    ensures order != "" && IsOrderIdChar(order[|order| - 1])
  {
    var order := ExtractOrderId(qr);
    if order.None? then "NOORDER"
    else
      assert order.value[|order.value| - 1] in order.value;
      order.value
  }

  /** Created index texts survive the trim that deletion applies to them. */
  function InternalIndex(unitIndex: int, kid: string, qr: string): (index: string)
    ensures index != "" && Trimmed(Rust, index)
  {
    var order := OrderForIndex(qr);
    var middle := "-" + CompactKid(kid) + "-";
    IndexIsTrimmed(unitIndex, middle, order);
    SignedText(unitIndex) + middle + order
  }

  lemma IndexIsTrimmed(unitIndex: int, middle: string, order: string)
    requires order != "" && IsOrderIdChar(order[|order| - 1])
    ensures var index := SignedText(unitIndex) + middle + order; index != "" && Trimmed(Rust, index)
  {
    var signed := SignedText(unitIndex);
    assert signed[0] == '-' || IsDigit(signed[0]);
    assert !IsSpace(Rust, signed[0]) && !IsSpace(Rust, order[|order| - 1]);
    hide IsSpace, SignedText;
    TrimmedByEnds(Rust, signed, middle, order);
  }

  // ---------------------------------------------------------------- warehouse locations

  function ComposeLocation(slot: int, section: string): string {
    section + SignedText(slot)
  }

  function LeadingDigits(s: string): (n: nat)
    ensures n <= |s|
    ensures AllDigits(s[..n])
    ensures n < |s| ==> !IsDigit(s[n])
  {
    if s == "" || !IsDigit(s[0]) then 0 else 1 + LeadingDigits(s[1..])
  }

  /** The digits and the letter suffix of a slot text, if it has no other characters. */
  function SlotParts(s: string): (r: Option<(string, string)>)
    ensures r.Some? ==> AllDigits(r.value.0) && r.value.0 + r.value.1 == s
  {
    var n := LeadingDigits(s);
    if exists c :: c in s[n..] && !IsLetter(c) then None else Some((s[..n], s[n..]))
  }

  /** A slot text is a number with an optional suffix of letters. */
  function ParsedSlot(raw: string): Result<(int, string), IntakeError> {
    var parts := SlotParts(ToUpper(Trim(Rust, raw)));
    if parts.None? || parts.value.0 == "" then Err(InvalidLocation)
    else
      var slot := DecimalValue(parts.value.0);
      if 1 <= slot <= I32_MAX then Ok((slot, parts.value.0 + parts.value.1)) else Err(InvalidLocation)
  }

  function NormalizeLocationText(raw: string): Result<string, IntakeError> {
    var s := ToUpper(Trim(Rust, raw));
    if s == "" || |s| > 64 then Err(InvalidLocation) else Ok(s)
  }

  function ParsedLocation(raw: string): Result<Location, IntakeError> {
    match NormalizeLocationText(raw)
    case Err(e) => Err(e)
    case Ok(s) =>
      if s[..1] !in SECTIONS then Err(InvalidLocation)
      else
        match ParsedSlot(s[1..])
        case Err(e) => Err(e)
        case Ok((slot, slotText)) => Ok(Location(s[..1], slot, s[..1] + slotText))
  }

  lemma {:induction false} LeadingDigitsAll(s: string)
    requires AllDigits(s)
    ensures LeadingDigits(s) == |s|
  {
    if s != "" {
      LeadingDigitsAll(s[1..]);
    }
  }

  lemma DigitsAreTrimmed(digits: string)
    requires AllDigits(digits)
    ensures Trim(Rust, digits) == digits
  {
    hide Trim, TrimStart, TrimEnd;
    assert digits != "" ==> IsDigit(digits[0]) && IsDigit(digits[|digits| - 1]);
    assert Trimmed(Rust, digits);
  }

  lemma DigitsAreUpper(digits: string)
    requires AllDigits(digits)
    ensures ToUpper(digits) == digits
  {
  }

  lemma DigitsAreParts(digits: string)
    requires AllDigits(digits)
    ensures SlotParts(digits) == Some((digits, ""))
  {
    LeadingDigitsAll(digits);
    assert digits[..|digits|] == digits && digits[|digits|..] == "";
  }

  lemma DigitsAreASlot(slot: int)
    requires 1 <= slot <= I32_MAX
    ensures ParsedSlot(Decimal(slot)) == Ok((slot, Decimal(slot)))
  {
    hide SlotParts, Decimal, DecimalValue, Trim, ToUpper;
    DigitsAreTrimmed(Decimal(slot));
    DigitsAreUpper(Decimal(slot));
    DigitsAreParts(Decimal(slot));
    DecimalRoundTrip(slot);
    assert Decimal(slot) + "" == Decimal(slot);
  }

  lemma ComposedIsNormal(section: string, digits: string)
    requires section in SECTIONS && AllDigits(digits) && digits != "" && |section + digits| <= 64
    ensures NormalizeLocationText(section + digits) == Ok(section + digits)
  {
    var s := section + digits;
    assert |section| == 1 && IsLetter(section[0]) && UpperChar(section[0]) == section[0];
    TrimmedByEnds(Rust, section, "", digits);
    assert section + "" + digits == s;
    DigitsAreUpper(digits);
    forall i | 0 <= i < |s| ensures ToUpper(s)[i] == s[i] {
      assert s[i] == if i == 0 then section[0] else digits[i - 1];
      assert i > 0 ==> ToUpper(digits)[i - 1] == digits[i - 1];
    }
    assert ToUpper(s) == s;
  }

  lemma ComposedIsShort(section: string, slot: int)
    requires section in SECTIONS && 1 <= slot <= I32_MAX
    ensures |ComposeLocation(slot, section)| <= 11
  {
    assert Power(10, 5) == 100000 && Power(10, 10) == 100000 * Power(10, 5);
    DecimalIsShort(slot, 10);
  }

  /** A location the allocator prints is read back as the same section and slot. */
  lemma LocationRoundTrip(section: string, slot: int)
    requires section in SECTIONS && 1 <= slot <= I32_MAX
    ensures ParsedLocation(ComposeLocation(slot, section)) == Ok(Location(section, slot, ComposeLocation(slot, section)))
  {
    ComposedIsShort(section, slot);
    hide ParsedSlot, NormalizeLocationText;
    var s := ComposeLocation(slot, section);
    assert |section| == 1 && s[..1] == section && s[1..] == Decimal(slot);
    ComposedIsNormal(section, Decimal(slot));
    DigitsAreASlot(slot);
  }

  /** The reading loop behind SlotParts. */
  method SplitSlotText(normalized: string) returns (r: Option<(string, string)>)
    ensures r == SlotParts(normalized)
  {
    var digits, suffix, seenSuffix := "", "", false;
    var i := 0;
    ghost var n := LeadingDigits(normalized);
    while i < |normalized|
      invariant 0 <= i <= |normalized|
      invariant digits == normalized[..if i < n then i else n]
      invariant suffix == if i < n then "" else normalized[n..i]
      invariant seenSuffix == (i > n)
      invariant forall c :: c in suffix ==> IsLetter(c)
    {
      var ch := normalized[i];
      if IsDigit(ch) && !seenSuffix {
        digits := digits + [ch];
      } else if IsLetter(ch) {
        seenSuffix := true;
        suffix := suffix + [ch];
      } else {
        assert i >= n && normalized[n..][i - n] == ch;
        return None;
      }
      i := i + 1;
    }
    assert normalized[n..|normalized|] == normalized[n..];
    r := Some((digits, suffix));
  }

  method ParseSlot(raw: string) returns (r: Result<(int, string), IntakeError>)
    ensures r == ParsedSlot(raw)
  {
    var parts := SplitSlotText(ToUpper(Trim(Rust, raw)));
    if parts.None? || parts.value.0 == "" {
      return Err(InvalidLocation);
    }
    var slot := DecimalValue(parts.value.0);
    if slot < 1 || slot > I32_MAX {
      return Err(InvalidLocation);
    }
    r := Ok((slot, parts.value.0 + parts.value.1));
  }
}
