/** What syncing a lookup result achieves: one canonical row per remote order, no leftovers
    after a second sync, nothing but a time stamp after a third. */
module OrderSync {
  import opened Wrappers
  import opened Text
  import opened OrderTable

  ghost predicate HasId(rows: seq<Row>, id: string) { exists r :: r in rows && r.orderId == id }

  ghost predicate NoLegacy(rows: seq<Row>, id: string) { forall r :: r in rows ==> !IsLegacy(r, id) }

  ghost predicate AtMostOneLegacy(rows: seq<Row>, id: string) {
    forall a, b :: a in rows && b in rows && IsLegacy(a, id) && IsLegacy(b, id) ==> a == b
  }

  lemma InReplaced(rows: seq<Row>, id: string, row: Row, r: Row)
    requires HasId(rows, id)
    ensures r in ReplaceId(rows, id, row) <==> r == row || (r in rows && r.orderId != id)
  {
    var after := ReplaceId(rows, id, row);
    if r in after {
      var i :| 0 <= i < |after| && after[i] == r;
      assert rows[i] in rows;
    }
    var h :| h in rows && h.orderId == id;
    var k :| 0 <= k < |rows| && rows[k] == h;
    assert after[k] == row;
    if r in rows && r.orderId != id {
      var i :| 0 <= i < |rows| && rows[i] == r;
      assert after[i] == r;
    }
  }

  /** No canonical row yet: the first row that lists the id becomes it, the others stay. */
  lemma AdoptedRows(t: Table, o: RemoteOrder, now: int)
    requires Valid(t) && !HasId(t.rows, o.orderId) && LegacyRows(t.rows, o.orderId) != []
    ensures var adopted := LegacyRows(t.rows, o.orderId)[0];
            && adopted in t.rows && IsLegacy(adopted, o.orderId)
            && forall r :: r in Upserted(t, o, now).0.rows
                <==> r == Written(adopted.(orderId := o.orderId), o, now) || (r in t.rows && r != adopted)
  {
    var adopted := LegacyRows(t.rows, o.orderId)[0];
    assert adopted in LegacyRows(t.rows, o.orderId);
    var row := Written(adopted.(orderId := o.orderId), o, now);
    assert Upserted(t, o, now).0.rows == ReplaceId(t.rows, adopted.orderId, row);
    forall r
      ensures r in ReplaceId(t.rows, adopted.orderId, row) <==> r == row || (r in t.rows && r != adopted)
    {
      InReplaced(t.rows, adopted.orderId, row, r);
      if r in t.rows && r.orderId == adopted.orderId {
        SameId(t.rows, r, adopted);
      }
    }
  }

  /** A canonical row exists: it is rewritten, and every other row that lists the id goes. */
  lemma AbsorbedRows(t: Table, o: RemoteOrder, now: int, exact: Row)
    requires Valid(t) && exact in t.rows && exact.orderId == o.orderId
    ensures var kept := exact.(additionalItems := MergedItems(exact.additionalItems, LegacyRows(t.rows, o.orderId)));
            forall r :: r in Upserted(t, o, now).0.rows
              <==> r == Written(kept, o, now) || (r in t.rows && r.orderId != o.orderId && !IsLegacy(r, o.orderId))
  {
    var found := t.rows[FindExact(t.rows, o.orderId).value];
    SameId(t.rows, found, exact);
    var kept := exact.(additionalItems := MergedItems(exact.additionalItems, LegacyRows(t.rows, o.orderId)));
    var rest := WithoutLegacy(t.rows, o.orderId);
    assert exact in rest;
    forall r
      ensures r in ReplaceId(rest, o.orderId, Written(kept, o, now)) <==>
        r == Written(kept, o, now) || (r in t.rows && r.orderId != o.orderId && !IsLegacy(r, o.orderId))
    {
      InReplaced(rest, o.orderId, Written(kept, o, now), r);
    }
  }

  lemma CreatedRows(t: Table, o: RemoteOrder, now: int)
    requires !HasId(t.rows, o.orderId) && LegacyRows(t.rows, o.orderId) == []
    ensures forall r :: r in Upserted(t, o, now).0.rows <==> r in t.rows || r == NewRow(t.nextPk, o, now)
  {
    assert forall i :: 0 <= i < |t.rows| ==> t.rows[i] in t.rows;
  }

  // ---------------------------------------------------------------- one upsert

  lemma UpsertGivesARow(t: Table, o: RemoteOrder, now: int)
    requires Valid(t)
    ensures HasId(Upserted(t, o, now).0.rows, o.orderId)
  {
    if HasId(t.rows, o.orderId) {
      var exact :| exact in t.rows && exact.orderId == o.orderId;
      AbsorbedRows(t, o, now, exact);
      hide IsLegacy, Upserted;
    } else if LegacyRows(t.rows, o.orderId) != [] {
      AdoptedRows(t, o, now);
      hide IsLegacy, Upserted;
    } else {
      CreatedRows(t, o, now);
      hide IsLegacy, Upserted;
    }
  }

  /** Afterwards the remote order has its row; the row is the only one with that id. */
  lemma UpsertIsCanonical(t: Table, o: RemoteOrder, now: int)
    requires Valid(t)
    ensures HasId(Upserted(t, o, now).0.rows, o.orderId)
    ensures forall a, b | a in Upserted(t, o, now).0.rows && b in Upserted(t, o, now).0.rows ::
              a.orderId == o.orderId && b.orderId == o.orderId ==> a == b
  {
    UpsertGivesARow(t, o, now);
    UpsertKeepsValid(t, o, now);
    hide Upserted, HasId;
    var after := Upserted(t, o, now).0.rows;
    forall a, b | a in after && b in after && a.orderId == o.orderId && b.orderId == o.orderId
      ensures a == b
    {
      SameId(after, a, b);
    }
  }

  /** One upsert clears every other listing of the id exactly when the canonical row was there
      already or at most one row listed the id. */
  lemma OneUpsertClearsExactly(t: Table, o: RemoteOrder, now: int)
    requires Valid(t)
    ensures NoLegacy(Upserted(t, o, now).0.rows, o.orderId)
      <==> HasId(t.rows, o.orderId) || AtMostOneLegacy(t.rows, o.orderId)
  {
    if HasId(t.rows, o.orderId) {
      var exact :| exact in t.rows && exact.orderId == o.orderId;
      AbsorbedRows(t, o, now, exact);
    } else if LegacyRows(t.rows, o.orderId) != [] {
      AdoptedRows(t, o, now);
    } else {
      CreatedRows(t, o, now);
      assert forall r :: r in t.rows ==> r !in LegacyRows(t.rows, o.orderId);
    }
  }

  /** Another canonical row survives when its id does not list the new one. */
  lemma UpsertKeepsOtherIds(t: Table, o: RemoteOrder, now: int, x: string)
    requires Valid(t) && HasId(t.rows, x) && (x == o.orderId || o.orderId !in SplitIds(x))
    ensures HasId(Upserted(t, o, now).0.rows, x)
  {
    if x == o.orderId {
      UpsertIsCanonical(t, o, now);
    } else {
      var r :| r in t.rows && r.orderId == x;
      if HasId(t.rows, o.orderId) {
        var exact :| exact in t.rows && exact.orderId == o.orderId;
        AbsorbedRows(t, o, now, exact);
      } else if LegacyRows(t.rows, o.orderId) != [] {
        AdoptedRows(t, o, now);
      } else {
        CreatedRows(t, o, now);
      }
      assert r in Upserted(t, o, now).0.rows;
    }
  }

  /** With the canonical row present no id appears anywhere, so cleared ids stay clear. */
  lemma UpsertKeepsClear(t: Table, o: RemoteOrder, now: int, x: string)
    requires Valid(t) && HasId(t.rows, o.orderId) && NoLegacy(t.rows, x)
    ensures NoLegacy(Upserted(t, o, now).0.rows, x)
  {
    var exact :| exact in t.rows && exact.orderId == o.orderId;
    AbsorbedRows(t, o, now, exact);
  }

  // ---------------------------------------------------------------- one, two and three syncs

  /** No remote id of the result lists another one; comma-free trimmed ids never do. */
  ghost predicate Independent(orders: seq<RemoteOrder>) {
    forall i, j :: 0 <= i < |orders| && 0 <= j < |orders| ==>
      orders[i].orderId == orders[j].orderId || orders[j].orderId !in SplitIds(orders[i].orderId)
  }

  lemma CleanIdsAreIndependent(orders: seq<RemoteOrder>)
    requires forall i :: 0 <= i < |orders| ==> CleanId(orders[i].orderId)
    ensures Independent(orders)
  {
    forall i | 0 <= i < |orders|
      ensures SplitIds(orders[i].orderId) == {orders[i].orderId}
    {
      CleanIdListsItself(orders[i].orderId);
    }
  }

  lemma {:induction false} SyncKeepsValid(t: Table, orders: seq<RemoteOrder>, now: int)
    requires Valid(t)
    ensures Valid(SyncedAll(t, orders, now))
  {
    hide Valid;
    if orders != [] {
      SyncKeepsValid(t, orders[..|orders| - 1], now);
      UpsertKeepsValid(SyncedAll(t, orders[..|orders| - 1], now), orders[|orders| - 1], now);
    }
  }

  lemma {:induction false} SyncKeepsOtherIds(t: Table, orders: seq<RemoteOrder>, now: int, x: string)
    requires Valid(t) && HasId(t.rows, x)
    requires forall j :: 0 <= j < |orders| ==> x == orders[j].orderId || orders[j].orderId !in SplitIds(x)
    ensures HasId(SyncedAll(t, orders, now).rows, x)
  {
    if orders != [] {
      var init, last := orders[..|orders| - 1], orders[|orders| - 1];
      hide Valid, HasId, SplitIds;
      SyncKeepsOtherIds(t, init, now, x);
      SyncKeepsValid(t, init, now);
      UpsertKeepsOtherIds(SyncedAll(t, init, now), last, now, x);
    }
  }

  /** After one sync every remote order has exactly one canonical row. */
  lemma {:induction false} SyncGivesEveryOrderARow(t: Table, orders: seq<RemoteOrder>, now: int, k: nat)
    requires Valid(t) && Independent(orders) && k < |orders|
    ensures HasId(SyncedAll(t, orders, now).rows, orders[k].orderId)
  {
    var init, last := orders[..|orders| - 1], orders[|orders| - 1];
    hide Valid, HasId, SplitIds;
    SyncKeepsValid(t, init, now);
    if k == |init| {
      UpsertIsCanonical(SyncedAll(t, init, now), last, now);
    } else {
      assert Independent(init);
      SyncGivesEveryOrderARow(t, init, now, k);
      UpsertKeepsOtherIds(SyncedAll(t, init, now), last, now, orders[k].orderId);
    }
  }

  /** With every canonical row in place, a sync clears all other listings of all its ids. */
  lemma {:induction false} SyncClearsEveryId(t: Table, orders: seq<RemoteOrder>, now: int, k: nat)
    requires Valid(t) && Independent(orders) && k < |orders|
    requires forall i :: 0 <= i < |orders| ==> HasId(t.rows, orders[i].orderId)
    ensures NoLegacy(SyncedAll(t, orders, now).rows, orders[k].orderId)
  {
    var init, last := orders[..|orders| - 1], orders[|orders| - 1];
    var before := SyncedAll(t, init, now);
    hide Valid, HasId, NoLegacy, SplitIds;
    SyncKeepsValid(t, init, now);
    SyncKeepsOtherIds(t, init, now, last.orderId);
    if k == |init| {
      OneUpsertClearsExactly(before, last, now);
    } else {
      assert Independent(init);
      SyncClearsEveryId(t, init, now, k);
      UpsertKeepsClear(before, last, now, orders[k].orderId);
    }
  }

  /** Every remote order has its own row and is listed by no other. */
  ghost predicate Settled(rows: seq<Row>, orders: seq<RemoteOrder>) {
    forall k :: 0 <= k < |orders| ==> HasId(rows, orders[k].orderId) && NoLegacy(rows, orders[k].orderId)
  }

  /** Two syncs of one result settle the table, whatever it held before. */
  lemma TwoSyncsSettle(t: Table, orders: seq<RemoteOrder>, n1: int, n2: int)
    requires Valid(t) && Independent(orders)
    ensures Valid(SyncedAll(SyncedAll(t, orders, n1), orders, n2))
    ensures Settled(SyncedAll(SyncedAll(t, orders, n1), orders, n2).rows, orders)
  {
    var once := SyncedAll(t, orders, n1);
    SyncKeepsValid(t, orders, n1);
    SyncKeepsValid(once, orders, n2);
    forall k | 0 <= k < |orders|
      ensures HasId(once.rows, orders[k].orderId)
    {
      SyncGivesEveryOrderARow(t, orders, n1, k);
    }
    forall k | 0 <= k < |orders|
      ensures HasId(SyncedAll(once, orders, n2).rows, orders[k].orderId)
      ensures NoLegacy(SyncedAll(once, orders, n2).rows, orders[k].orderId)
    {
      SyncGivesEveryOrderARow(once, orders, n2, k);
      SyncClearsEveryId(once, orders, n2, k);
    }
  }

  function TwoRows(a: Row, b: Row): Table { Table([a, b], a.pk + b.pk + 1) }

  lemma TwoRowsAreValid(a: Row, b: Row)
    requires a.pk != b.pk && a.orderId != b.orderId
    ensures Valid(TwoRows(a, b))
  {
  }

  lemma TwoRowsListTwice(a: Row, b: Row, id: string)
    requires a.pk != b.pk && IsLegacy(a, id) && IsLegacy(b, id)
    ensures !HasId(TwoRows(a, b).rows, id) && !AtMostOneLegacy(TwoRows(a, b).rows, id)
  {
    hide SplitIds;
    assert a in TwoRows(a, b).rows && b in TwoRows(a, b).rows;
  }

  lemma SyncOfOne(t: Table, o: RemoteOrder, now: int)
    ensures SyncedAll(t, [o], now) == Upserted(t, o, now).0
  {
    hide Upserted;
    assert [o][..0] == [];
  }

  /** One sync is not enough: of two legacy rows that start with the id, it adopts only one. */
  lemma OneSyncLeavesTheSecondLegacyRow(a: Row, b: Row, o: RemoteOrder, restA: string, restB: string, now: int)
    requires CleanId(o.orderId) && a.pk != b.pk && restA != restB
    requires a.orderId == o.orderId + [','] + restA && b.orderId == o.orderId + [','] + restB
    ensures Valid(TwoRows(a, b)) && !NoLegacy(SyncedAll(TwoRows(a, b), [o], now).rows, o.orderId)
  {
    hide *;
    assert a.orderId[|o.orderId| + 1..] == restA && b.orderId[|o.orderId| + 1..] == restB;
    StartsWithId(a, o.orderId, restA);
    StartsWithId(b, o.orderId, restB);
    TwoRowsAreValid(a, b);
    TwoRowsListTwice(a, b, o.orderId);
    OneUpsertClearsExactly(TwoRows(a, b), o, now);
    SyncOfOne(TwoRows(a, b), o, now);
  }

  lemma StartsWithId(r: Row, id: string, rest: string)
    requires CleanId(id) && r.orderId == id + [','] + rest
    ensures IsLegacy(r, id)
  {
    SplitFirst(id, ',', rest);
    hide IsSpace, Trimmed, Split;
    assert id in Split(r.orderId, ',') && Trim(Python, id) == id;
  }

  // ---------------------------------------------------------------- the third sync

  /** What a sync does to a table that is already settled: no row moves, appears or goes. */
  function Rewritten(rows: seq<Row>, o: RemoteOrder, now: int): seq<Row> {
    seq(|rows|, i requires 0 <= i < |rows| =>
      if rows[i].orderId == o.orderId then Written(rows[i], o, now) else rows[i])
  }

  lemma {:induction false} NothingLegacy(rows: seq<Row>, id: string)
    requires NoLegacy(rows, id)
    ensures LegacyRows(rows, id) == [] && WithoutLegacy(rows, id) == rows
  {
    if rows != [] {
      assert rows[0] in rows;
      hide IsLegacy;
      NothingLegacy(rows[1..], id);
    }
  }

  lemma UpsertOfSettledRow(t: Table, o: RemoteOrder, now: int)
    requires Valid(t) && HasId(t.rows, o.orderId) && NoLegacy(t.rows, o.orderId)
    ensures Upserted(t, o, now).0 == t.(rows := Rewritten(t.rows, o, now))
  {
    NothingLegacy(t.rows, o.orderId);
    hide IsLegacy, NoLegacy, Written;
    var k := FindExact(t.rows, o.orderId).value;
    forall i | 0 <= i < |t.rows| && t.rows[i].orderId == o.orderId
      ensures t.rows[i] == t.rows[k]
    {
      SameId(t.rows, t.rows[i], t.rows[k]);
    }
    assert t.rows[k].(additionalItems := t.rows[k].additionalItems) == t.rows[k];
  }

  /** The order whose values a row with this id ends up with. */
  function LastFor(orders: seq<RemoteOrder>, id: string): Option<RemoteOrder> {
    if orders == [] then None
    else if orders[|orders| - 1].orderId == id then Some(orders[|orders| - 1])
    else LastFor(orders[..|orders| - 1], id)
  }

  function WrittenByAll(row: Row, orders: seq<RemoteOrder>, now: int): (written: Row)
    ensures written.orderId == row.orderId && written.pk == row.pk
  {
    match LastFor(orders, row.orderId)
    case None => row
    case Some(o) => Written(row, o, now)
  }

  /** Whatever earlier orders of the same id wrote, the last one overwrites. */
  lemma LaterWriteWins(row: Row, orders: seq<RemoteOrder>, now: int)
    requires orders != []
    ensures var init, last := orders[..|orders| - 1], orders[|orders| - 1];
            var before := WrittenByAll(row, init, now);
            && before.orderId == row.orderId
            && WrittenByAll(row, orders, now) == if row.orderId == last.orderId then Written(before, last, now) else before
  {
  }

  lemma SettledPrefix(rows: seq<Row>, orders: seq<RemoteOrder>)
    requires orders != [] && Settled(rows, orders)
    ensures Settled(rows, orders[..|orders| - 1])
    ensures HasId(rows, orders[|orders| - 1].orderId) && NoLegacy(rows, orders[|orders| - 1].orderId)
  {
    hide HasId, NoLegacy;
  }

  lemma SameIdsStaySettled(before: seq<Row>, after: seq<Row>, id: string)
    requires |before| == |after| && forall i :: 0 <= i < |before| ==> before[i].orderId == after[i].orderId
    requires HasId(before, id) && NoLegacy(before, id)
    ensures HasId(after, id) && NoLegacy(after, id)
  {
    var r :| r in before && r.orderId == id;
    var i :| 0 <= i < |before| && before[i] == r;
    assert after[i] in after && after[i].orderId == id;
    forall q | q in after
      ensures !IsLegacy(q, id)
    {
      var j :| 0 <= j < |after| && after[j] == q;
      assert before[j] in before;
    }
  }

  lemma {:induction false} SyncOfSettledTable(t: Table, orders: seq<RemoteOrder>, now: int)
    requires Valid(t) && Settled(t.rows, orders)
    ensures var after := SyncedAll(t, orders, now);
            && after.nextPk == t.nextPk && |after.rows| == |t.rows|
            && forall i :: 0 <= i < |t.rows| ==> after.rows[i] == WrittenByAll(t.rows[i], orders, now)
  {
    if orders == [] {
    } else {
      hide Valid, Settled, HasId, NoLegacy, Upserted, WrittenByAll, Written, LastFor;
      var init, last := orders[..|orders| - 1], orders[|orders| - 1];
      var before := SyncedAll(t, init, now);
      SettledPrefix(t.rows, orders);
      SyncOfSettledTable(t, init, now);
      SyncKeepsValid(t, init, now);
      SameIdsStaySettled(t.rows, before.rows, last.orderId);
      UpsertOfSettledRow(before, last, now);
      forall i | 0 <= i < |t.rows|
        ensures Rewritten(before.rows, last, now)[i] == WrittenByAll(t.rows[i], orders, now)
      {
        LaterWriteWins(t.rows[i], orders, now);
      }
    }
  }

  /** After a sync every row of a remote order already holds what that order would write. */
  lemma {:induction false} SyncedRowsHoldTheirOrder(t: Table, orders: seq<RemoteOrder>, now: int, r: Row)
    requires Valid(t) && r in SyncedAll(t, orders, now).rows && LastFor(orders, r.orderId).Some?
    ensures r == Written(r, LastFor(orders, r.orderId).value, now)
  {
    var init, last := orders[..|orders| - 1], orders[|orders| - 1];
    var before := SyncedAll(t, init, now);
    SyncKeepsValid(t, init, now);
    UpsertOrigin(before, last, now, r);
    if r.orderId != last.orderId {
      SyncedRowsHoldTheirOrder(t, init, now, r);
    }
  }

  /** A row after an upsert is an old row of another order or was written from this one. */
  lemma UpsertOrigin(t: Table, o: RemoteOrder, now: int, r: Row)
    requires Valid(t) && r in Upserted(t, o, now).0.rows
    ensures if r.orderId == o.orderId then r == Written(r, o, now) else r in t.rows
  {
    if HasId(t.rows, o.orderId) {
      var exact :| exact in t.rows && exact.orderId == o.orderId;
      AbsorbedRows(t, o, now, exact);
    } else if LegacyRows(t.rows, o.orderId) != [] {
      AdoptedRows(t, o, now);
    } else {
      CreatedRows(t, o, now);
    }
  }

  /** The third sync changes the time stamp of synced memos and nothing else. */
  lemma ThirdSyncChangesOnlyStamps(t: Table, orders: seq<RemoteOrder>, n1: int, n2: int, n3: int)
    requires Valid(t) && Independent(orders)
    ensures var second := SyncedAll(SyncedAll(t, orders, n1), orders, n2);
            var third := SyncedAll(second, orders, n3);
            && third.nextPk == second.nextPk && |third.rows| == |second.rows|
            && forall i :: 0 <= i < |second.rows| ==>
                third.rows[i] == if LastFor(orders, second.rows[i].orderId).Some? && second.rows[i].memoStatus.Synced?
                                 then second.rows[i].(memoSyncedAt := Some(n3)) else second.rows[i]
  {
    var once := SyncedAll(t, orders, n1);
    var second := SyncedAll(once, orders, n2);
    TwoSyncsSettle(t, orders, n1, n2);
    SyncKeepsValid(t, orders, n1);
    SyncOfSettledTable(second, orders, n3);
    hide Valid, Settled, SyncedAll, LastFor;
    forall r | r in second.rows && LastFor(orders, r.orderId).Some?
      ensures r == Written(r, LastFor(orders, r.orderId).value, n2)
    {
      SyncedRowsHoldTheirOrder(once, orders, n2, r);
    }
  }

  /** A row shows a remote order: empty texts are absent values, the first item gives the title,
      and the order is paid when the paid amount reaches the total. */
  ghost predicate Shows(r: Row, o: RemoteOrder) {
    && r.profile == Some(o.profile)
    && (r.details.platform.None? <==> o.marketplace == "") && (r.details.platform.Some? ==> r.details.platform.value == o.marketplace)
    && (r.details.buyer.None? <==> o.buyer == "") && (r.details.buyer.Some? ==> r.details.buyer.value == o.buyer)
    && (o.itemTitles != [] ==> r.details.title == o.itemTitles[0])
    && (r.details.invoiceNumber.None? <==> o.invoiceNumber == "")
    && (r.details.invoiceNumber.Some? ==> r.details.invoiceNumber.value == o.invoiceNumber)
    && (r.details.paid <==> exists paid, total :: o.paidAmount == Some(paid) && o.totalAmount == Some(total) && paid >= total)
    && (o.itemTitles == [] ==> r.details.title == "Order " + o.orderId)
    && (r.memoStatus.Synced? ==> if o.memo == "" then r.memo.None? else r.memo == Some(o.memo))
    && (r.memoStatus.Synced? ==> r.memoError.None? && r.memoErrorType.None?)
  }

  lemma WrittenRowsShow(r: Row, o: RemoteOrder, now: int)
    requires r == Written(r, o, now)
    ensures Shows(r, o)
  {
    if IsPaid(o) {
      assert o.paidAmount == Some(o.paidAmount.value) && o.totalAmount == Some(o.totalAmount.value);
    }
  }

  /** After a sync every remote order has a row that shows the last order with its id. */
  lemma SyncShowsEveryOrder(t: Table, orders: seq<RemoteOrder>, now: int, k: nat) returns (r: Row)
    requires Valid(t) && Independent(orders) && k < |orders|
    requires LastFor(orders, orders[k].orderId) == Some(orders[k])
    ensures r in SyncedAll(t, orders, now).rows && r.orderId == orders[k].orderId && Shows(r, orders[k])
  {
    SyncGivesEveryOrderARow(t, orders, now, k);
    hide Valid, Independent, SyncedAll, LastFor, Shows;
    r :| r in SyncedAll(t, orders, now).rows && r.orderId == orders[k].orderId;
    SyncedRowsHoldTheirOrder(t, orders, now, r);
    WrittenRowsShow(r, orders[k], now);
  }

  // ---------------------------------------------------------------- what a sync keeps

  lemma AbsorbingDeletesExactly(t: Table, o: RemoteOrder, now: int, r: Row)
    requires Valid(t) && r in t.rows && HasId(t.rows, o.orderId)
    ensures (forall q :: q in Upserted(t, o, now).0.rows ==> q.pk != r.pk) <==> IsLegacy(r, o.orderId)
  {
    var after := Upserted(t, o, now).0.rows;
    var exact :| exact in t.rows && exact.orderId == o.orderId;
    AbsorbedRows(t, o, now, exact);
    var kept := exact.(additionalItems := MergedItems(exact.additionalItems, LegacyRows(t.rows, o.orderId)));
    PkIdentifies(t.rows, r, exact);
    if r.orderId == o.orderId {
      SameId(t.rows, r, exact);
      assert Written(kept, o, now) in after && Written(kept, o, now).pk == r.pk;
    } else if !IsLegacy(r, o.orderId) {
      assert r in after;
    } else {
      hide IsLegacy;
      forall q | q in after && q in t.rows
        ensures q.pk != r.pk
      {
        PkIdentifies(t.rows, r, q);
      }
    }
  }

  /** An upsert deletes a row exactly when another row already has the id that row lists. */
  lemma UpsertDeletesExactly(t: Table, o: RemoteOrder, now: int, r: Row)
    requires Valid(t) && r in t.rows
    ensures (forall q :: q in Upserted(t, o, now).0.rows ==> q.pk != r.pk)
      <==> HasId(t.rows, o.orderId) && IsLegacy(r, o.orderId)
  {
    var after := Upserted(t, o, now).0.rows;
    if HasId(t.rows, o.orderId) {
      AbsorbingDeletesExactly(t, o, now, r);
    } else if LegacyRows(t.rows, o.orderId) != [] {
      AdoptedRows(t, o, now);
      var adopted := LegacyRows(t.rows, o.orderId)[0];
      if r == adopted {
        assert Written(adopted.(orderId := o.orderId), o, now) in after;
      } else {
        assert r in after;
      }
    } else {
      CreatedRows(t, o, now);
      assert r in after;
    }
  }

  lemma PkIdentifies(rows: seq<Row>, a: Row, b: Row)
    requires UniquePks(rows) && a in rows && b in rows
    ensures a.pk == b.pk ==> a == b
  {
    var i :| 0 <= i < |rows| && rows[i] == a;
    var j :| 0 <= j < |rows| && rows[j] == b;
  }

  /** The five memo columns. */
  ghost predicate SameMemo(a: Row, b: Row) {
    && a.memo == b.memo && a.memoStatus == b.memoStatus && a.memoSyncedAt == b.memoSyncedAt
    && a.memoError == b.memoError && a.memoErrorType == b.memoErrorType
  }

  lemma UpsertKeepsUnsyncedMemo(t: Table, o: RemoteOrder, now: int, r: Row) returns (source: Option<Row>)
    requires Valid(t) && r in Upserted(t, o, now).0.rows
    ensures source.None? ==> r.pk >= t.nextPk
    ensures source.Some? ==> source.value in t.rows && source.value.pk == r.pk
    ensures source.Some? && !source.value.memoStatus.Synced? ==> SameMemo(source.value, r)
  {
    if HasId(t.rows, o.orderId) {
      var exact :| exact in t.rows && exact.orderId == o.orderId;
      AbsorbedRows(t, o, now, exact);
      source := Some(if r in t.rows then r else exact);
    } else if LegacyRows(t.rows, o.orderId) != [] {
      AdoptedRows(t, o, now);
      source := Some(if r in t.rows then r else LegacyRows(t.rows, o.orderId)[0]);
    } else {
      CreatedRows(t, o, now);
      source := if r in t.rows then Some(r) else None;
    }
  }

  lemma {:induction false} SyncNeverReusesKeys(t: Table, orders: seq<RemoteOrder>, now: int)
    ensures SyncedAll(t, orders, now).nextPk >= t.nextPk
  {
    if orders != [] {
      SyncNeverReusesKeys(t, orders[..|orders| - 1], now);
    }
  }

  /** Rows that were there before a sync are never made up by it. */
  lemma {:induction false} SyncedRowHasASource(t: Table, orders: seq<RemoteOrder>, now: int, r: Row) returns (source: Row)
    requires Valid(t) && r in SyncedAll(t, orders, now).rows && r.pk < t.nextPk
    ensures source in t.rows && source.pk == r.pk
  {
    if orders == [] {
      source := r;
    } else {
      var init, last := orders[..|orders| - 1], orders[|orders| - 1];
      SyncKeepsValid(t, init, now);
      SyncNeverReusesKeys(t, init, now);
      var middle := UpsertKeepsUnsyncedMemo(SyncedAll(t, init, now), last, now, r);
      source := SyncedRowHasASource(t, init, now, middle.value);
    }
  }

  /** A memo edited here and not yet pushed survives any sync its row survives. */
  lemma {:induction false} SyncKeepsUnsyncedMemo(t: Table, orders: seq<RemoteOrder>, now: int, was: Row, r: Row)
    requires Valid(t) && was in t.rows && !was.memoStatus.Synced?
    requires r in SyncedAll(t, orders, now).rows && r.pk == was.pk
    ensures SameMemo(was, r)
  {
    if orders == [] {
      PkIdentifies(t.rows, was, r);
    } else {
      var init, last := orders[..|orders| - 1], orders[|orders| - 1];
      var before := SyncedAll(t, init, now);
      SyncKeepsValid(t, init, now);
      SyncNeverReusesKeys(t, init, now);
      var source := UpsertKeepsUnsyncedMemo(before, last, now, r);
      SyncKeepsUnsyncedMemo(t, init, now, was, source.value);
    }
  }

  /** Absorbing legacy rows never loses the last list of additional items. */
  lemma {:induction false} MergedItemsAreKept(own: seq<string>, legacy: seq<Row>)
    ensures MergedItems(own, legacy) == [] <==> own == [] && forall l :: l in legacy ==> l.additionalItems == []
    ensures own != [] ==> MergedItems(own, legacy) == own
    ensures own == [] && MergedItems(own, legacy) != [] ==>
      exists l :: l in legacy && MergedItems(own, legacy) == l.additionalItems
    decreases |legacy|
  {
    if own == [] && legacy != [] {
      MergedItemsAreKept(legacy[0].additionalItems, legacy[1..]);
      assert forall l :: l in legacy <==> l == legacy[0] || l in legacy[1..];
    }
  }
}
