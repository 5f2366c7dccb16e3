/** When a single sync of a whole lookup result is enough. */
module OneSync {
  import opened Wrappers
  import opened OrderTable
  import opened OrderSync

  /** How often the result carries an id. */
  function Times(orders: seq<RemoteOrder>, id: string): nat {
    if orders == [] then 0
    else Times(orders[..|orders| - 1], id) + if orders[|orders| - 1].orderId == id then 1 else 0
  }

  /** The other ids of the result neither list this one nor are listed by it. */
  ghost predicate Apart(orders: seq<RemoteOrder>, id: string) {
    forall o :: o in orders && o.orderId != id ==> ApartFrom(o, id)
  }

  predicate ApartFrom(o: RemoteOrder, id: string) { id !in SplitIds(o.orderId) && o.orderId !in SplitIds(id) }

  /** A row that lists this id lists no other id of the result. */
  ghost predicate ListedAlone(rows: seq<Row>, orders: seq<RemoteOrder>, id: string) {
    forall r, o :: r in rows && IsLegacy(r, id) && o in orders && o.orderId != id ==> !IsLegacy(r, o.orderId)
  }

  ghost predicate SameListings(before: seq<Row>, after: seq<Row>, id: string) {
    forall r :: IsLegacy(r, id) ==> (r in before <==> r in after)
  }

  ghost predicate NoNewListings(before: seq<Row>, after: seq<Row>, id: string) {
    forall r :: r in after && IsLegacy(r, id) ==> r in before
  }

  /** The upsert of another order leaves the rows of this id as they are. */
  lemma OtherUpsert(t: Table, o: RemoteOrder, now: int, id: string)
    requires Valid(t) && o.orderId != id && ApartFrom(o, id)
    requires forall r :: r in t.rows && IsLegacy(r, id) ==> !IsLegacy(r, o.orderId)
    ensures HasId(Upserted(t, o, now).0.rows, id) <==> HasId(t.rows, id)
    ensures SameListings(t.rows, Upserted(t, o, now).0.rows, id)
  {
    if HasId(t.rows, id) {
      UpsertKeepsOtherIds(t, o, now, id);
    }
    OtherListings(t, o, now, id);
  }

  lemma OtherListings(t: Table, o: RemoteOrder, now: int, id: string)
    requires Valid(t) && o.orderId != id && ApartFrom(o, id)
    requires forall r :: r in t.rows && IsLegacy(r, id) ==> !IsLegacy(r, o.orderId)
    ensures HasId(Upserted(t, o, now).0.rows, id) ==> HasId(t.rows, id)
    ensures SameListings(t.rows, Upserted(t, o, now).0.rows, id)
  {
    hide SplitIds;
    if HasId(t.rows, o.orderId) {
      var exact :| exact in t.rows && exact.orderId == o.orderId;
      AbsorbedRows(t, o, now, exact);
    } else if LegacyRows(t.rows, o.orderId) != [] {
      AdoptedRows(t, o, now);
    } else {
      CreatedRows(t, o, now);
    }
    hide Upserted;
  }

  lemma OwnUpsert(t: Table, o: RemoteOrder, now: int)
    requires Valid(t)
    ensures NoNewListings(t.rows, Upserted(t, o, now).0.rows, o.orderId)
  {
    hide SplitIds;
    if HasId(t.rows, o.orderId) {
      var exact :| exact in t.rows && exact.orderId == o.orderId;
      AbsorbedRows(t, o, now, exact);
    } else if LegacyRows(t.rows, o.orderId) != [] {
      AdoptedRows(t, o, now);
    } else {
      CreatedRows(t, o, now);
    }
    hide Upserted;
  }

  /** What a sync does to the rows of one id, by how often the result carries it. */
  lemma {:induction false} SyncOfOneId(t: Table, orders: seq<RemoteOrder>, now: int, id: string)
    requires Valid(t) && Apart(orders, id) && ListedAlone(t.rows, orders, id)
    ensures NoNewListings(t.rows, SyncedAll(t, orders, now).rows, id)
    ensures Times(orders, id) == 0 ==>
      SameListings(t.rows, SyncedAll(t, orders, now).rows, id) && (HasId(SyncedAll(t, orders, now).rows, id) <==> HasId(t.rows, id))
    ensures Times(orders, id) >= 1 ==> HasId(SyncedAll(t, orders, now).rows, id)
    ensures Times(orders, id) == 1 ==>
      (NoLegacy(SyncedAll(t, orders, now).rows, id) <==> HasId(t.rows, id) || AtMostOneLegacy(t.rows, id))
    ensures Times(orders, id) >= 2 ==> NoLegacy(SyncedAll(t, orders, now).rows, id)
  {
    if orders != [] {
      var init, last := orders[..|orders| - 1], orders[|orders| - 1];
      var before := SyncedAll(t, init, now);
      assert last in orders && forall o :: o in init ==> o in orders;
      hide Valid, IsLegacy, SplitIds, HasId, ApartFrom, Upserted;
      SyncOfOneId(t, init, now, id);
      SyncKeepsValid(t, init, now);
      if last.orderId == id {
        UpsertIsCanonical(before, last, now);
        OneUpsertClearsExactly(before, last, now);
        OwnUpsert(before, last, now);
      } else {
        OtherUpsert(before, last, now, id);
      }
    }
  }

  lemma ResultIsApart(orders: seq<RemoteOrder>, k: nat)
    requires Independent(orders) && k < |orders|
    ensures Apart(orders, orders[k].orderId) && Times(orders, orders[k].orderId) >= 1
  {
    hide SplitIds;
    CarriedAtLeastOnce(orders, k);
  }

  lemma {:induction false} CarriedAtLeastOnce(orders: seq<RemoteOrder>, k: nat)
    requires k < |orders|
    ensures Times(orders, orders[k].orderId) >= 1
  {
    if k < |orders| - 1 {
      CarriedAtLeastOnce(orders[..|orders| - 1], k);
    }
  }

  /** Checked before the sync: the id has its own row already, or at most one row lists it, or the
      result carries the id twice. */
  ghost predicate OneSyncClears(rows: seq<Row>, orders: seq<RemoteOrder>, id: string) {
    HasId(rows, id) || AtMostOneLegacy(rows, id) || Times(orders, id) >= 2
  }

  /** One sync of a whole result settles the table exactly when each of its ids meets that, for
      tables in which no row lists two ids of the result. */
  lemma OneSyncSettlesExactly(t: Table, orders: seq<RemoteOrder>, now: int)
    requires Valid(t) && Independent(orders)
    requires forall k :: 0 <= k < |orders| ==> ListedAlone(t.rows, orders, orders[k].orderId)
    ensures Settled(SyncedAll(t, orders, now).rows, orders) <==>
      forall k :: 0 <= k < |orders| ==> OneSyncClears(t.rows, orders, orders[k].orderId)
  {
    hide HasId, NoLegacy, AtMostOneLegacy, ListedAlone, Independent, Valid;
    forall k | 0 <= k < |orders|
      ensures HasId(SyncedAll(t, orders, now).rows, orders[k].orderId)
      ensures NoLegacy(SyncedAll(t, orders, now).rows, orders[k].orderId) <==> OneSyncClears(t.rows, orders, orders[k].orderId)
    {
      ResultIsApart(orders, k);
      SyncOfOneId(t, orders, now, orders[k].orderId);
    }
  }

  /** Rows that list several ids of the result can settle although each id is listed twice: of two
      rows that both list two ids, each id adopts one. */
  lemma SharedListingsSettle(a: Row, b: Row, o1: RemoteOrder, o2: RemoteOrder, now: int)
    requires a.pk != b.pk && a.orderId != b.orderId && o1.orderId != o2.orderId
    requires CleanId(o1.orderId) && CleanId(o2.orderId)
    requires IsLegacy(a, o1.orderId) && IsLegacy(a, o2.orderId) && IsLegacy(b, o1.orderId) && IsLegacy(b, o2.orderId)
    ensures Valid(TwoRows(a, b)) && !OneSyncClears(TwoRows(a, b).rows, [o1, o2], o1.orderId)
    ensures Settled(SyncedAll(TwoRows(a, b), [o1, o2], now).rows, [o1, o2])
  {
    hide *;
    TwoRowsAreValid(a, b);
    ListedTwice(a, b, o1, o2);
    BothAdopt(a, b, o1, o2, now);
  }

  lemma ListedTwice(a: Row, b: Row, o1: RemoteOrder, o2: RemoteOrder)
    requires a.pk != b.pk && o1.orderId != o2.orderId && IsLegacy(a, o1.orderId) && IsLegacy(b, o1.orderId)
    ensures !HasId(TwoRows(a, b).rows, o1.orderId) && !OneSyncClears(TwoRows(a, b).rows, [o1, o2], o1.orderId)
  {
    hide *;
    TwoRowsListTwice(a, b, o1.orderId);
    CarriedOnce(o1, o2);
    NotCleared(TwoRows(a, b).rows, [o1, o2], o1.orderId);
  }

  lemma BothAdopt(a: Row, b: Row, o1: RemoteOrder, o2: RemoteOrder, now: int)
    requires a.pk != b.pk && o1.orderId != o2.orderId && Valid(TwoRows(a, b)) && !HasId(TwoRows(a, b).rows, o1.orderId)
    requires CleanId(o1.orderId) && CleanId(o2.orderId)
    requires IsLegacy(a, o1.orderId) && IsLegacy(a, o2.orderId) && IsLegacy(b, o1.orderId) && IsLegacy(b, o2.orderId)
    ensures Settled(SyncedAll(TwoRows(a, b), [o1, o2], now).rows, [o1, o2])
  {
    var t := TwoRows(a, b);
    assert t.rows == [a, b] && a != b;
    hide *;
    var other := FirstAdopts(t, a, b, o1, now);
    var once := Upserted(t, o1, now).0;
    UpsertKeepsValid(t, o1, now);
    SecondAdopts(once, other, o1, o2, now);
    TwoUpserts(t, o1, o2, now);
    CleanRowsAreSettled(Upserted(once, o2, now).0.rows, o1, o2);
  }

  lemma NotCleared(rows: seq<Row>, orders: seq<RemoteOrder>, id: string)
    requires !HasId(rows, id) && !AtMostOneLegacy(rows, id) && Times(orders, id) == 1
    ensures !OneSyncClears(rows, orders, id)
  {
    hide HasId, AtMostOneLegacy, Times;
  }

  lemma CleanRowsAreSettled(rows: seq<Row>, o1: RemoteOrder, o2: RemoteOrder)
    requires CleanId(o1.orderId) && CleanId(o2.orderId) && HasId(rows, o1.orderId) && HasId(rows, o2.orderId)
    requires forall r :: r in rows ==> r.orderId == o1.orderId || r.orderId == o2.orderId
    ensures Settled(rows, [o1, o2])
  {
    hide *;
    CleanIdListsItself(o1.orderId);
    CleanIdListsItself(o2.orderId);
    NothingLegacy(rows, o1.orderId, o2.orderId);
    NothingLegacy(rows, o2.orderId, o1.orderId);
    SettledByBoth(rows, o1, o2);
  }

  lemma NothingLegacy(rows: seq<Row>, id: string, other: string)
    requires SplitIds(other) == {other} && forall r :: r in rows ==> r.orderId == id || r.orderId == other
    ensures NoLegacy(rows, id)
  {
    hide SplitIds;
  }

  lemma SettledByBoth(rows: seq<Row>, o1: RemoteOrder, o2: RemoteOrder)
    requires HasId(rows, o1.orderId) && HasId(rows, o2.orderId) && NoLegacy(rows, o1.orderId) && NoLegacy(rows, o2.orderId)
    ensures Settled(rows, [o1, o2])
  {
    hide HasId, NoLegacy;
  }

  lemma CarriedOnce(o1: RemoteOrder, o2: RemoteOrder)
    requires o1.orderId != o2.orderId
    ensures Times([o1, o2], o1.orderId) == 1
  {
    assert [o1, o2][..1] == [o1] && [o1][..0] == [];
    assert Times([], o1.orderId) == 0;
  }

  lemma TwoUpserts(t: Table, o1: RemoteOrder, o2: RemoteOrder, now: int)
    ensures SyncedAll(t, [o1, o2], now) == Upserted(Upserted(t, o1, now).0, o2, now).0
  {
    hide Upserted;
    assert [o1, o2][..1] == [o1];
    SyncOfOne(t, o1, now);
  }

  lemma FirstAdopts(t: Table, a: Row, b: Row, o: RemoteOrder, now: int) returns (other: Row)
    requires t.rows == [a, b] && Valid(t) && a != b && !HasId(t.rows, o.orderId)
    requires IsLegacy(a, o.orderId) && IsLegacy(b, o.orderId)
    ensures other in [a, b] && other in Upserted(t, o, now).0.rows && HasId(Upserted(t, o, now).0.rows, o.orderId)
    ensures forall r :: r in Upserted(t, o, now).0.rows ==> r.orderId == o.orderId || r == other
  {
    assert a in t.rows && forall r :: r in t.rows <==> r == a || r == b;
    assert LegacyRows(t.rows, o.orderId) != [];
    AdoptedRows(t, o, now);
    hide Upserted, SplitIds;
    UpsertGivesARow(t, o, now);
    other := if LegacyRows(t.rows, o.orderId)[0] == a then b else a;
  }

  lemma SecondAdopts(t: Table, other: Row, o1: RemoteOrder, o2: RemoteOrder, now: int)
    requires Valid(t) && HasId(t.rows, o1.orderId) && o1.orderId != o2.orderId
    requires CleanId(o1.orderId) && CleanId(o2.orderId)
    requires other in t.rows && IsLegacy(other, o2.orderId)
    requires forall r :: r in t.rows ==> r.orderId == o1.orderId || r == other
    ensures HasId(Upserted(t, o2, now).0.rows, o1.orderId) && HasId(Upserted(t, o2, now).0.rows, o2.orderId)
    ensures forall r :: r in Upserted(t, o2, now).0.rows ==> r.orderId == o1.orderId || r.orderId == o2.orderId
  {
    OnlyOneListsIt(t, other, o1, o2);
    CleanIdListsItself(o1.orderId);
    hide *;
    UpsertGivesARow(t, o2, now);
    UpsertKeepsOtherIds(t, o2, now, o1.orderId);
    AdoptedRows(t, o2, now);
    assert Written(other.(orderId := o2.orderId), o2, now).orderId == o2.orderId;
  }

  lemma OnlyOneListsIt(t: Table, other: Row, o1: RemoteOrder, o2: RemoteOrder)
    requires o1.orderId != o2.orderId && CleanId(o1.orderId) && other in t.rows && IsLegacy(other, o2.orderId)
    requires forall r :: r in t.rows ==> r.orderId == o1.orderId || r == other
    ensures !HasId(t.rows, o2.orderId) && LegacyRows(t.rows, o2.orderId) != [] && LegacyRows(t.rows, o2.orderId)[0] == other
  {
    CleanIdListsItself(o1.orderId);
    hide SplitIds, CleanId;
    assert other in LegacyRows(t.rows, o2.orderId);
    assert LegacyRows(t.rows, o2.orderId)[0] in LegacyRows(t.rows, o2.orderId);
  }
}
