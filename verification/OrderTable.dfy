/** The local orders of one KID, and the upsert that reconciles legacy comma-separated ids
    with the canonical remote id. */
module OrderTable {
  import opened Wrappers
  import opened Text

  datatype MemoStatus = Synced | Pending | FailedSync

  /** The text of a failed push: one of three fixed messages, or that of the error. */
  datatype SyncMessage = OrderNotFound | OperationNotSelectable | GaveUp | ErrorText(text: string)

  /** The only error type a push records. */
  datatype SyncErrorType = NotSelectable

  /** The columns a sync always overwrites. */
  datatype Details = Details(
    platform: Option<string>,
    buyer: Option<string>,
    title: string,
    invoiceNumber: Option<string>,
    paid: bool)

  datatype Row = Row(
    pk: nat,
    orderId: string,
    additionalItems: seq<string>,
    profile: Option<string>,
    details: Details,
    memo: Option<string>,
    memoStatus: MemoStatus,
    memoError: Option<SyncMessage>,
    memoErrorType: Option<SyncErrorType>,
    memoSyncedAt: Option<int>)

  datatype RemoteOrder = RemoteOrder(
    orderId: string,
    profile: string,
    marketplace: string,
    buyer: string,
    itemTitles: seq<string>,
    memo: string,
    invoiceNumber: string,
    paidAmount: Option<real>,
    totalAmount: Option<real>)

  /** Rows in the order the query returns them, and the next primary key. */
  datatype Table = Table(rows: seq<Row>, nextPk: nat)

  // ---------------------------------------------------------------- ids

  /** The non-empty trimmed parts of an id column. */
  function SplitIds(value: string): set<string> {
    set part | part in Split(value, ',') && Trim(Python, part) != "" :: Trim(Python, part)
  }

  predicate IsLegacy(row: Row, id: string) { row.orderId != id && id in SplitIds(row.orderId) }

  /** An id that lists nothing but itself. */
  predicate CleanId(id: string) { id != "" && ',' !in id && Trimmed(Python, id) }

  lemma CleanIdListsItself(id: string)
    requires CleanId(id)
    ensures SplitIds(id) == {id}
  {
    SplitWhole(id, ',');
    hide IsSpace, Trimmed, Split;
    assert id in Split(id, ',') && Trim(Python, id) == id;
  }

  /** An id column lists what its comma-separated parts are once trimmed, wherever they stand. */
  lemma ListedIdsExactly(parts: seq<string>, id: string)
    requires parts != [] && forall p :: p in parts ==> ',' !in p
    ensures id in SplitIds(Join(parts, ",")) <==> id != "" && exists i :: 0 <= i < |parts| && Trim(Python, parts[i]) == id
  {
    SplitJoin(parts, ',');
    hide Trim, Split, Join;
    assert [','] == ",";
  }

  /** Every id column is such a list. */
  lemma EveryColumnIsAList(value: string) returns (parts: seq<string>)
    ensures parts != [] && (forall p :: p in parts ==> ',' !in p) && value == Join(parts, ",")
  {
    parts := Split(value, ',');
    JoinSplit(value, ',');
    assert [','] == ",";
  }

  // ---------------------------------------------------------------- written values

  function OrNone(s: string): Option<string> { if s == "" then None else Some(s) }

  predicate IsPaid(o: RemoteOrder) {
    o.paidAmount.Some? && o.totalAmount.Some? && o.paidAmount.value >= o.totalAmount.value
  }

  function DetailsOf(o: RemoteOrder): Details {
    Details(OrNone(o.marketplace), OrNone(o.buyer),
            if o.itemTitles != [] then o.itemTitles[0] else "Order " + o.orderId,
            OrNone(o.invoiceNumber), IsPaid(o))
  }

  /** The defaults of a remote order; the five memo columns only where the memo is synced. */
  function Written(row: Row, o: RemoteOrder, now: int): Row {
    var base := row.(profile := Some(o.profile), details := DetailsOf(o));
    if row.memoStatus.Synced? then
      base.(memo := OrNone(o.memo), memoStatus := Synced, memoError := None, memoErrorType := None, memoSyncedAt := Some(now))
    else base
  }

  function NewRow(pk: nat, o: RemoteOrder, now: int): Row {
    Row(pk, o.orderId, [], Some(o.profile), DetailsOf(o), OrNone(o.memo), Synced, None, None, Some(now))
  }

  // ---------------------------------------------------------------- upsert

  function FindExact(rows: seq<Row>, id: string): (i: Option<nat>)
    ensures i.Some? ==> i.value < |rows| && rows[i.value].orderId == id
    ensures i.None? ==> forall k :: 0 <= k < |rows| ==> rows[k].orderId != id
  {
    if rows == [] then None
    else if rows[0].orderId == id then Some(0)
    else
      match FindExact(rows[1..], id)
      case None => None
      case Some(k) => Some(k + 1)
  }

  function LegacyRows(rows: seq<Row>, id: string): (legacy: seq<Row>)
    ensures forall r :: r in legacy <==> r in rows && IsLegacy(r, id)
  {
    if rows == [] then []
    else (if IsLegacy(rows[0], id) then [rows[0]] else []) + LegacyRows(rows[1..], id)
  }

  function WithoutLegacy(rows: seq<Row>, id: string): (rest: seq<Row>)
    ensures forall r :: r in rest <==> r in rows && !IsLegacy(r, id)
  {
    if rows == [] then []
    else (if IsLegacy(rows[0], id) then [] else [rows[0]]) + WithoutLegacy(rows[1..], id)
  }

  /** The first non-empty list of additional items, starting with the survivor's own. */
  function MergedItems(own: seq<string>, legacy: seq<Row>): seq<string>
    decreases |legacy|
  {
    if own != [] || legacy == [] then own else MergedItems(legacy[0].additionalItems, legacy[1..])
  }

  function ReplaceId(rows: seq<Row>, id: string, row: Row): (after: seq<Row>)
    ensures |after| == |rows|
    ensures forall i :: 0 <= i < |rows| ==> after[i] == if rows[i].orderId == id then row else rows[i]
  {
    seq(|rows|, i requires 0 <= i < |rows| => if rows[i].orderId == id then row else rows[i])
  }

  /** The table after one remote order, and whether a row was created. */
  function Upserted(t: Table, o: RemoteOrder, now: int): (Table, bool) {
    var exact := FindExact(t.rows, o.orderId);
    var legacy := LegacyRows(t.rows, o.orderId);
    if exact.None? && legacy != [] then
      var adopted := legacy[0];
      (t.(rows := ReplaceId(t.rows, adopted.orderId, Written(adopted.(orderId := o.orderId), o, now))), false)
    else if exact.Some? then
      var row := t.rows[exact.value];
      var kept := row.(additionalItems := MergedItems(row.additionalItems, legacy));
      (t.(rows := ReplaceId(WithoutLegacy(t.rows, o.orderId), o.orderId, Written(kept, o, now))), false)
    else (Table(t.rows + [NewRow(t.nextPk, o, now)], t.nextPk + 1), true)
  }

  /** One lookup result: its orders one after the other. */
  function SyncedAll(t: Table, orders: seq<RemoteOrder>, now: int): Table {
    if orders == [] then t
    else Upserted(SyncedAll(t, orders[..|orders| - 1], now), orders[|orders| - 1], now).0
  }

  ghost predicate UniqueIds(rows: seq<Row>) {
    forall i, j :: 0 <= i < j < |rows| ==> rows[i].orderId != rows[j].orderId
  }

  ghost predicate UniquePks(rows: seq<Row>) {
    forall i, j :: 0 <= i < j < |rows| ==> rows[i].pk != rows[j].pk
  }

  /** What the two table constraints and the key sequence guarantee. */
  ghost predicate Valid(t: Table) {
    UniqueIds(t.rows) && UniquePks(t.rows) && forall r :: r in t.rows ==> r.pk < t.nextPk
  }

  // ---------------------------------------------------------------- the service

  function WithoutPks(rows: seq<Row>, gone: set<nat>): (rest: seq<Row>)
    ensures forall r :: r in rest <==> r in rows && r.pk !in gone
  {
    if rows == [] then []
    else (if rows[0].pk in gone then [] else [rows[0]]) + WithoutPks(rows[1..], gone)
  }

  lemma {:induction false} RemovingOneMore(rows: seq<Row>, gone: set<nat>, pk: nat)
    ensures WithoutPks(WithoutPks(rows, gone), {pk}) == WithoutPks(rows, gone + {pk})
  {
    if rows != [] {
      RemovingOneMore(rows[1..], gone, pk);
      var rest := WithoutPks(rows[1..], gone);
      if rows[0].pk !in gone {
        assert ([rows[0]] + rest)[1..] == rest;
      } else {
        assert [] + rest == rest;
      }
    }
  }

  lemma {:induction false} RemovingNone(rows: seq<Row>)
    ensures WithoutPks(rows, {}) == rows
  {
    if rows != [] {
      RemovingNone(rows[1..]);
    }
  }

  lemma {:induction false} RemovingLegacyByPk(rows: seq<Row>, gone: set<nat>, id: string)
    requires forall r :: r in rows ==> (r.pk in gone <==> IsLegacy(r, id))
    ensures WithoutPks(rows, gone) == WithoutLegacy(rows, id)
  {
    if rows != [] {
      RemovingLegacyByPk(rows[1..], gone, id);
    }
  }

  function PksOf(rows: seq<Row>): set<nat> { set r | r in rows :: r.pk }

  lemma LegacyPksAreLegacy(rows: seq<Row>, id: string)
    requires UniquePks(rows)
    ensures forall r :: r in rows ==> (r.pk in PksOf(LegacyRows(rows, id)) <==> IsLegacy(r, id))
  {
    forall r | r in rows && r.pk in PksOf(LegacyRows(rows, id))
      ensures IsLegacy(r, id)
    {
      var l :| l in LegacyRows(rows, id) && l.pk == r.pk;
      var i :| 0 <= i < |rows| && rows[i] == r;
      var j :| 0 <= j < |rows| && rows[j] == l;
      assert i == j;
    }
    forall r | r in rows && IsLegacy(r, id)
      ensures r.pk in PksOf(LegacyRows(rows, id))
    {
      assert r in LegacyRows(rows, id);
    }
  }

  lemma AbsorbNothing(rows: seq<Row>, legacy: seq<Row>)
    ensures WithoutPks(rows, PksOf(legacy[..0])) == rows && legacy[0..] == legacy
  {
    assert PksOf(legacy[..0]) == {};
    RemovingNone(rows);
  }

  lemma AbsorbStep(rows: seq<Row>, legacy: seq<Row>, k: nat)
    requires k < |legacy|
    ensures WithoutPks(WithoutPks(rows, PksOf(legacy[..k])), {legacy[k].pk}) == WithoutPks(rows, PksOf(legacy[..k + 1]))
  {
    RemovingOneMore(rows, PksOf(legacy[..k]), legacy[k].pk);
    assert legacy[..k + 1] == legacy[..k] + [legacy[k]];
    assert PksOf(legacy[..k + 1]) == PksOf(legacy[..k]) + {legacy[k].pk};
  }

  lemma MergeStep(items: seq<string>, legacy: seq<Row>, k: nat)
    requires k < |legacy|
    ensures MergedItems(items, legacy[k..])
      == MergedItems(if items == [] && legacy[k].additionalItems != [] then legacy[k].additionalItems else items, legacy[k + 1..])
  {
    var tail := legacy[k..];
    assert tail[0] == legacy[k] && tail[1..] == legacy[k + 1..];
  }

  class OrderStore {
    var rows: seq<Row>
    var nextPk: nat

    function State(): Table
      reads this
    {
      Table(rows, nextPk)
    }

    constructor ()
      ensures State() == Table([], 0)
    {
      rows, nextPk := [], 0;
    }

    /** Deletes the legacy rows one by one, handing their items to the survivor. */
    method AbsorbLegacy(own: seq<string>, legacy: seq<Row>) returns (items: seq<string>)
      modifies this`rows
      ensures rows == WithoutPks(old(rows), PksOf(legacy))
      ensures items == MergedItems(own, legacy)
    {
      hide PksOf;
      items := own;
      AbsorbNothing(rows, legacy);
      var k := 0;
      while k < |legacy|
        invariant 0 <= k <= |legacy|
        invariant rows == WithoutPks(old(rows), PksOf(legacy[..k]))
        invariant MergedItems(items, legacy[k..]) == MergedItems(own, legacy)
      {
        MergeStep(items, legacy, k);
        if items == [] && legacy[k].additionalItems != [] {
          items := legacy[k].additionalItems;
        }
        AbsorbStep(old(rows), legacy, k);
        rows := WithoutPks(rows, {legacy[k].pk});
        k := k + 1;
      }
      assert legacy[..k] == legacy;
    }

    method UpsertOrder(o: RemoteOrder, now: int) returns (created: bool)
      requires Valid(State())
      modifies this
      ensures (State(), created) == Upserted(old(State()), o, now)
    {
      var exact := FindExact(rows, o.orderId);
      var legacy := LegacyRows(rows, o.orderId);
      if exact.None? && legacy != [] {
        var adopted := legacy[0];
        rows := ReplaceId(rows, adopted.orderId, Written(adopted.(orderId := o.orderId), o, now));
        return false;
      }
      if exact.Some? {
        var row := rows[exact.value];
        LegacyPksAreLegacy(rows, o.orderId);
        RemovingLegacyByPk(rows, PksOf(legacy), o.orderId);
        var items := AbsorbLegacy(row.additionalItems, legacy);
        rows := ReplaceId(rows, o.orderId, Written(row.(additionalItems := items), o, now));
        return false;
      }
      rows := rows + [NewRow(nextPk, o, now)];
      nextPk := nextPk + 1;
      created := true;
    }

    /** One lookup result; the statistics count created and updated orders. */
    method SyncLookupResult(orders: seq<RemoteOrder>, now: int) returns (created: nat, updated: nat)
      requires Valid(State())
      modifies this
      ensures State() == SyncedAll(old(State()), orders, now)
      ensures Valid(State())
      ensures created == State().nextPk - old(State()).nextPk && created + updated == |orders|
    {
      created, updated := 0, 0;
      var k := 0;
      while k < |orders|
        invariant 0 <= k <= |orders|
        invariant Valid(State())
        invariant State() == SyncedAll(old(State()), orders[..k], now)
        invariant created == State().nextPk - old(State()).nextPk && created + updated == k
      {
        UpsertKeepsValid(State(), orders[k], now);
        var isNew := UpsertOrder(orders[k], now);
        if isNew {
          created := created + 1;
        } else {
          updated := updated + 1;
        }
        assert orders[..k + 1][..k] == orders[..k];
        k := k + 1;
      }
      assert orders[..k] == orders;
    }
  }

  // ---------------------------------------------------------------- the constraints survive

  lemma ConsUnique(head: Row, rest: seq<Row>)
    requires UniqueIds(rest) && UniquePks(rest)
    requires forall r :: r in rest ==> r.orderId != head.orderId && r.pk != head.pk
    ensures UniqueIds([head] + rest) && UniquePks([head] + rest)
  {
  }

  lemma {:induction false} WithoutLegacyKeepsUnique(rows: seq<Row>, id: string)
    requires UniqueIds(rows) && UniquePks(rows)
    ensures UniqueIds(WithoutLegacy(rows, id)) && UniquePks(WithoutLegacy(rows, id))
  {
    if rows != [] {
      WithoutLegacyKeepsUnique(rows[1..], id);
      assert forall r :: r in rows[1..] ==> r.orderId != rows[0].orderId && r.pk != rows[0].pk;
      hide UniqueIds, UniquePks;
      ConsUnique(rows[0], WithoutLegacy(rows[1..], id));
    }
  }

  /** Rewriting the row with one id, under a new id nobody has. */
  lemma ReplaceKeepsUnique(rows: seq<Row>, id: string, row: Row)
    requires UniqueIds(rows) && UniquePks(rows)
    requires forall r :: r in rows && r.orderId == id ==> r.pk == row.pk
    requires forall r :: r in rows && r.orderId != id ==> r.orderId != row.orderId
    ensures UniqueIds(ReplaceId(rows, id, row)) && UniquePks(ReplaceId(rows, id, row))
  {
    var after := ReplaceId(rows, id, row);
    forall i, j | 0 <= i < j < |rows|
      ensures after[i].orderId != after[j].orderId && after[i].pk != after[j].pk
    {
      assert rows[i] in rows && rows[j] in rows;
    }
  }

  lemma SameId(rows: seq<Row>, a: Row, b: Row)
    requires UniqueIds(rows) && a in rows && b in rows && a.orderId == b.orderId
    ensures a == b
  {
    var i :| 0 <= i < |rows| && rows[i] == a;
    var j :| 0 <= j < |rows| && rows[j] == b;
  }

  lemma AdoptionKeepsValid(t: Table, adopted: Row, row: Row)
    requires Valid(t) && adopted in t.rows && row.pk == adopted.pk
    requires forall r :: r in t.rows ==> r.orderId != row.orderId
    ensures Valid(t.(rows := ReplaceId(t.rows, adopted.orderId, row)))
  {
    forall r | r in t.rows && r.orderId == adopted.orderId ensures r.pk == row.pk {
      SameId(t.rows, r, adopted);
    }
    ReplaceKeepsUnique(t.rows, adopted.orderId, row);
    assert forall r :: r in ReplaceId(t.rows, adopted.orderId, row) ==> r == row || r in t.rows;
  }

  lemma AbsorptionKeepsValid(t: Table, kept: Row, row: Row)
    requires Valid(t) && kept in t.rows && row.pk == kept.pk && row.orderId == kept.orderId
    ensures Valid(t.(rows := ReplaceId(WithoutLegacy(t.rows, kept.orderId), kept.orderId, row)))
  {
    var rest := WithoutLegacy(t.rows, kept.orderId);
    WithoutLegacyKeepsUnique(t.rows, kept.orderId);
    forall r | r in rest && r.orderId == kept.orderId ensures r.pk == row.pk {
      SameId(t.rows, r, kept);
    }
    ReplaceKeepsUnique(rest, kept.orderId, row);
    assert forall r :: r in ReplaceId(rest, kept.orderId, row) ==> r == row || r in rest;
  }

  lemma UpsertKeepsValid(t: Table, o: RemoteOrder, now: int)
    requires Valid(t)
    ensures Valid(Upserted(t, o, now).0)
  {
    var exact := FindExact(t.rows, o.orderId);
    var legacy := LegacyRows(t.rows, o.orderId);
    if exact.None? && legacy != [] {
      var adopted := legacy[0];
      assert adopted in t.rows;
      hide Valid;
      AdoptionKeepsValid(t, adopted, Written(adopted.(orderId := o.orderId), o, now));
    } else if exact.Some? {
      var kept := t.rows[exact.value];
      hide Valid;
      AbsorptionKeepsValid(t, kept, Written(kept.(additionalItems := MergedItems(kept.additionalItems, legacy)), o, now));
    }
  }
}
