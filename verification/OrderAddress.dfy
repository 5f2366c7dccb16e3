/** Which remote order a memo goes to, in the fields of the orders the profiles return. */
module OrderAddress {
  import opened Wrappers
  import opened Text
  import opened OrderTable
  import opened MemoSync

  // ---------------------------------------------------------------- one order

  /** The order's own number is a positive decimal number. */
  predicate HasNumber(o: SoldOrder) {
    && (forall i :: 0 <= i < |o.orderId| ==> '0' <= o.orderId[i] <= '9')
    && exists i :: 0 <= i < |o.orderId| && o.orderId[i] != '0'
  }

  /** The order itself or one of its items carries the external id. */
  predicate Carries(o: SoldOrder, id: string) {
    || o.orderId == id
    || o.orderIdAlt == id
    || (exists i :: 0 <= i < |o.items| && o.items[i].platformOrderId == id)
    || (exists i :: 0 <= i < |o.items| && o.items[i].ebayTransactionId == id)
  }

  predicate IsAddressee(o: SoldOrder, id: string) { HasNumber(o) && Carries(o, id) }

  lemma {:induction false} PositiveExactly(s: string)
    requires AllDigits(s)
    ensures DecimalValue(s) > 0 <==> exists i :: 0 <= i < |s| && s[i] != '0'
  {
    if s != "" {
      var init, last := s[..|s| - 1], |s| - 1;
      PositiveExactly(init);
      assert forall i :: 0 <= i < last ==> init[i] == s[i];
      assert DigitValue(s[last]) > 0 <==> s[last] != '0';
    }
  }

  lemma QualifiesExactly(o: SoldOrder, id: string)
    ensures Qualifies(o, id) <==> IsAddressee(o, id)
  {
    assert AllDigits(o.orderId) <==> forall i :: 0 <= i < |o.orderId| ==> '0' <= o.orderId[i] <= '9';
    if AllDigits(o.orderId) {
      PositiveExactly(o.orderId);
    }
    hide DecimalValue, AllDigits;
  }

  // ---------------------------------------------------------------- the search

  /** Order k of profile p is the first addressee, profiles in order and orders in order. */
  ghost predicate FirstAddressee(profiles: seq<string>, id: string, lookup: Lookup, p: nat, k: nat) {
    && p < |profiles| && lookup(profiles[p]).Some? && k < |lookup(profiles[p]).value|
    && IsAddressee(lookup(profiles[p]).value[k], id)
    && (forall j :: 0 <= j < k ==> !IsAddressee(lookup(profiles[p]).value[j], id))
    && (forall q :: 0 <= q < p ==> NoAddressee(lookup(profiles[q]), id))
  }

  /** A profile whose request failed has no orders. */
  predicate NoAddressee(orders: Option<seq<SoldOrder>>, id: string) {
    orders.Some? ==> forall j :: 0 <= j < |orders.value| ==> !IsAddressee(orders.value[j], id)
  }

  lemma NoneQualifies(lookup: Lookup, profile: string, id: string)
    ensures NoAddressee(lookup(profile), id) <==> forall o :: o in OrdersOf(lookup, profile) ==> !Qualifies(o, id)
  {
    forall o | o in OrdersOf(lookup, profile)
      ensures Qualifies(o, id) <==> IsAddressee(o, id)
    {
      QualifiesExactly(o, id);
    }
    hide Qualifies, IsAddressee;
    var orders := OrdersOf(lookup, profile);
    assert forall j :: 0 <= j < |orders| ==> orders[j] in orders;
  }

  /** The search returns the first addressee of the trimmed external id. */
  lemma FirstAddresseeIsFound(profiles: seq<string>, externalId: string, lookup: Lookup, p: nat, k: nat)
    requires Trim(Python, externalId) != "" && FirstAddressee(profiles, Trim(Python, externalId), lookup, p, k)
    ensures Resolved(profiles, externalId, lookup)
      == Some(Identity(ToUpper(profiles[p]), lookup(profiles[p]).value[k].orderId))
  {
    var id := Trim(Python, externalId);
    var orders := OrdersOf(lookup, profiles[p]);
    hide IsAddressee, Qualifies, Trim;
    forall j | 0 <= j <= k
      ensures Qualifies(orders[j], id) <==> IsAddressee(orders[j], id)
    {
      QualifiesExactly(orders[j], id);
    }
    forall q | 0 <= q < p
      ensures forall o :: o in OrdersOf(lookup, profiles[q]) ==> !Qualifies(o, id)
    {
      NoneQualifies(lookup, profiles[q], id);
    }
    FirstProfileWins(profiles, id, lookup, p, k);
  }

  /** It returns none exactly when the external id is blank or no profile has an addressee. */
  lemma NothingIsFoundExactly(profiles: seq<string>, externalId: string, lookup: Lookup)
    ensures Resolved(profiles, externalId, lookup).None? <==>
      || Trim(Python, externalId) == ""
      || forall q :: 0 <= q < |profiles| ==> NoAddressee(lookup(profiles[q]), Trim(Python, externalId))
  {
    var id := Trim(Python, externalId);
    hide NoAddressee, Qualifies, Trim, OrdersOf;
    NothingQualifies(profiles, id, lookup);
    forall q | 0 <= q < |profiles|
      ensures NoAddressee(lookup(profiles[q]), id) <==> forall o :: o in OrdersOf(lookup, profiles[q]) ==> !Qualifies(o, id)
    {
      NoneQualifies(lookup, profiles[q], id);
    }
    assert forall q :: 0 <= q < |profiles| ==> profiles[q] in profiles;
  }

  // ---------------------------------------------------------------- the push

  /** The profiles a push asks: the row's own one if it has one. */
  predicate Asks(row: Row, profiles: seq<string>) {
    profiles == if row.profile.None? || row.profile == Some("") then ["JV", "XL", "CH"] else [row.profile.value]
  }

  lemma {:induction false} KidIsBlankExactly(numbers: seq<string>)
    ensures PrimaryKid(numbers) == "" <==> forall i :: 0 <= i < |numbers| ==> Trim(Python, numbers[i]) == ""
  {
    hide Trim;
    if numbers != [] {
      KidIsBlankExactly(numbers[1..]);
    }
  }

  /** This is the number of the first addressee, with the profile that returned it. */
  ghost predicate IsFirstAddressee(to: Identity, profiles: seq<string>, id: string, lookup: Lookup) {
    exists p: nat, k: nat :: FirstAddressee(profiles, id, lookup, p, k)
      && to.profile == ToUpper(profiles[p]) && to.orderId == lookup(profiles[p]).value[k].orderId
  }

  /** There is nothing to ask with, or nobody to address. */
  ghost predicate HasNoAddressee(row: Row, kidNumbers: seq<string>, profiles: seq<string>, lookup: Lookup) {
    || (forall i :: 0 <= i < |kidNumbers| ==> Trim(Python, kidNumbers[i]) == "")
    || Trim(Python, row.orderId) == ""
    || forall q :: 0 <= q < |profiles| ==> NoAddressee(lookup(profiles[q]), Trim(Python, row.orderId))
  }

  /** Every call a push makes goes to the first addressee of the row's external id, with the row's
      memo; it makes none exactly when there is no addressee. */
  lemma PushGoesToTheAddressee(row: Row, step: Step, profiles: seq<string>)
    requires step.Push? && Asks(row, profiles)
    ensures forall c :: c in Pushed(row, step).1 ==>
      && IsFirstAddressee(c.to, profiles, Trim(Python, row.orderId), step.lookup)
      && c.pk == row.pk && c.memo == (if row.memo.None? then "" else row.memo.value)
    ensures Pushed(row, step).1 == [] <==> HasNoAddressee(row, step.kidNumbers, profiles, step.lookup)
  {
    PushOf(row, step);
    var found := IdentityFor(row, step.kidNumbers, step.lookup);
    IdentityOfThePush(row, step.kidNumbers, step.lookup, profiles);
    hide IdentityFor, Pushed, Concluded, IsFirstAddressee, HasNoAddressee, ToUpper, Trim, Attempts;
    if found.Some? {
      AttemptsFollowTheRule(row.pk, found.value, MemoText(row.memo), step.reply, 0);
    }
  }

  lemma IdentityOfThePush(row: Row, kidNumbers: seq<string>, lookup: Lookup, profiles: seq<string>)
    requires Asks(row, profiles)
    ensures IdentityFor(row, kidNumbers, lookup).None? <==> HasNoAddressee(row, kidNumbers, profiles, lookup)
    ensures IdentityFor(row, kidNumbers, lookup).Some? ==>
      IsFirstAddressee(IdentityFor(row, kidNumbers, lookup).value, profiles, Trim(Python, row.orderId), lookup)
  {
    KidIsBlankExactly(kidNumbers);
    assert profiles == ProfilesFor(row);
    NothingIsFoundExactly(profiles, row.orderId, lookup);
    hide Resolved, Trim, PrimaryKid, NoAddressee, IsFirstAddressee;
    if IdentityFor(row, kidNumbers, lookup).Some? {
      FoundIsTheFirst(profiles, row.orderId, lookup);
    }
  }

  lemma FoundIsTheFirst(profiles: seq<string>, externalId: string, lookup: Lookup)
    requires Resolved(profiles, externalId, lookup).Some?
    ensures IsFirstAddressee(Resolved(profiles, externalId, lookup).value, profiles, Trim(Python, externalId), lookup)
  {
    var id := Trim(Python, externalId);
    assert id != "";
    NothingIsFoundExactly(profiles, externalId, lookup);
    hide Resolved, Trim, NoAddressee;
    var p := FirstProfile(profiles, id, lookup, 0);
    var k := FirstOrder(lookup(profiles[p]).value, id, 0);
    FirstAddresseeIsFound(profiles, externalId, lookup, p, k);
  }

  lemma {:induction false} FirstProfile(profiles: seq<string>, id: string, lookup: Lookup, from: nat) returns (p: nat)
    requires exists q :: from <= q < |profiles| && !NoAddressee(lookup(profiles[q]), id)
    requires forall q :: 0 <= q < from ==> NoAddressee(lookup(profiles[q]), id)
    ensures p < |profiles| && !NoAddressee(lookup(profiles[p]), id) && forall q :: 0 <= q < p ==> NoAddressee(lookup(profiles[q]), id)
    decreases |profiles| - from
  {
    hide NoAddressee;
    p := from;
    if NoAddressee(lookup(profiles[from]), id) {
      p := FirstProfile(profiles, id, lookup, from + 1);
    }
  }

  lemma {:induction false} FirstOrder(orders: seq<SoldOrder>, id: string, from: nat) returns (k: nat)
    requires exists j :: from <= j < |orders| && IsAddressee(orders[j], id)
    requires forall j :: 0 <= j < from ==> !IsAddressee(orders[j], id)
    ensures k < |orders| && IsAddressee(orders[k], id) && forall j :: 0 <= j < k ==> !IsAddressee(orders[j], id)
    decreases |orders| - from
  {
    hide IsAddressee;
    k := from;
    if !IsAddressee(orders[from], id) {
      k := FirstOrder(orders, id, from + 1);
    }
  }
}
