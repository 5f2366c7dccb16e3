/** Which number a unit gets, and what else a creation writes into the rows of its boxes. */
module UnitNumbers {
  import opened Wrappers
  import opened Text
  import opened IntakeText
  import opened IntakeStore
  import opened PoolSafety

  // ---------------------------------------------------------------- one creation

  /** Two rows count as units of one series: by product key where there is one, else by label. */
  predicate OneSeries(row: Intake, other: Intake) {
    if row.productKey.Some? then other.productKey == row.productKey
    else other.qrCode == row.qrCode && other.kidNumber == row.kidNumber
  }

  predicate ActiveInSeries(rows: Intakes, id: nat, row: Intake) {
    id in rows && !rows[id].isRemoved && OneSeries(row, rows[id])
  }

  /** The row's unit comes right after the highest one of its series, or is the first. */
  ghost predicate NumberedNext(rows: Intakes, row: Intake) {
    && ((forall id :: !ActiveInSeries(rows, id, row)) ==> row.unitIndex == 1)
    && ((exists id :: ActiveInSeries(rows, id, row)) ==> exists last :: FollowsUnit(rows, last, row))
  }

  ghost predicate FollowsUnit(rows: Intakes, last: nat, row: Intake) {
    && ActiveInSeries(rows, last, row)
    && (forall id :: ActiveInSeries(rows, id, row) ==> rows[id].unitIndex <= rows[last].unitIndex)
    && row.unitIndex == (if rows[last].unitIndex == 0x7FFF_FFFF then -0x8000_0000 else rows[last].unitIndex + 1)
  }

  /** The number depends on the unit numbers of the active rows of the series alone. */
  lemma NextUnitFollows(rows: Intakes, row: Intake)
    requires row.unitIndex == NextUnitIndex(rows, row.productKey, row.qrCode, row.kidNumber)
    ensures NumberedNext(rows, row)
  {
    var keys := set id | id in rows && SameUnitSeries(rows[id], row.productKey, row.qrCode, row.kidNumber) ::
      SortKey(-rows[id].unitIndex, 0, id);
    forall id | id in rows && !rows[id].isRemoved && OneSeries(row, rows[id])
      ensures SortKey(-rows[id].unitIndex, 0, id) in keys
    {
    }
    if keys != {} {
      var first := FirstKey(keys);
      assert first in keys;
      assert FollowsUnit(rows, first.id, row);
    }
  }

  /** What the request's own fields become in the rows; box numbers run from 1 to their total. */
  predicate WritesRequest(row: Intake, req: CreateRequest, now: int, box: int) {
    && row.qrCode == Trim(Rust, req.qrCode)
    && row.kidNumber == ToUpper(Trim(Rust, req.kidNumber))
    && row.productKey == (if req.productKey.None? || Trim(Rust, req.productKey.value) == "" then None
                          else Some(ToUpper(Trim(Rust, req.productKey.value))))
    && row.isBWare == (req.isBWare == Some(true))
    && row.boxTotal == (if req.boxTotal.None? then 1 else req.boxTotal.value)
    && row.boxIndex == box && row.createdAt == now && !row.isRemoved && row.removedAt.None?
  }

  lemma NormalizedFields(req: CreateRequest, d: Draft, p: Placement, env: Env, k: int)
    requires Normalized(req) == Ok(d.form) && 1 <= k <= d.form.boxTotal
    ensures WritesRequest(Box(d, p, env, k), req, env.now, k)
  {
    hide Trim, ToLower, DecidePlacement, NormalizeSection, NormalizeLocationText, NormalizeStrategy;
    if req.productKey.Some? {
      UpperIsBlankAlike(Trim(Rust, req.productKey.value));
    }
    hide ToUpper;
  }

  lemma UpperIsBlankAlike(s: string)
    ensures ToUpper(s) == "" <==> s == ""
  {
  }

  lemma {:induction false} EachBoxIsThere(rows: Intakes, d: Draft, p: Placement, env: Env, k: int)
    requires 1 <= k && d.form.boxTotal <= 20 && InsertBoxes(rows, d, p, env, k).Ok?
    ensures var after := InsertBoxes(rows, d, p, env, k).value;
            forall j :: k <= j <= d.form.boxTotal ==> env.ids[j] in after && after[env.ids[j]] == Box(d, p, env, j)
    decreases d.form.boxTotal - k
  {
    hide Clashes, Box;
    if k <= d.form.boxTotal {
      InsertedBoxes(rows[env.ids[k] := Box(d, p, env, k)], d, p, env, k + 1);
      EachBoxIsThere(rows[env.ids[k] := Box(d, p, env, k)], d, p, env, k + 1);
    }
  }

  /** A purge takes no active row, so it changes no number. */
  lemma PurgeKeepsNumbers(rows: Intakes, now: int, row: Intake)
    requires NumberedNext(PurgeExpired(rows, now), row)
    ensures NumberedNext(rows, row)
  {
    var kept := PurgeExpired(rows, now);
    assert forall id :: (ActiveInSeries(rows, id, row) ==> kept[id] == rows[id]) && (ActiveInSeries(rows, id, row) <==> ActiveInSeries(kept, id, row));
    hide OneSeries, PurgeExpired;
    if last :| FollowsUnit(kept, last, row) {
      assert FollowsUnit(rows, last, row);
    }
  }

  /** What `rows` looks like after boxes 1 to `boxes` of a request were added to it. */
  ghost predicate UnitAdded(rows: Intakes, after: Intakes, req: CreateRequest, env: Env, boxes: int) {
    && 1 <= boxes <= 20
    && (forall k :: 1 <= k <= boxes ==> env.ids[k] in after && WritesRequest(after[env.ids[k]], req, env.now, k))
    && (forall k :: 1 <= k <= boxes ==> NumberedNext(rows, after[env.ids[k]]))
    && (forall id :: id in rows && !rows[id].isRemoved ==> id in after && after[id] == rows[id])
    && (forall id :: id in after ==> (id in rows && after[id] == rows[id]) || exists k :: 1 <= k <= boxes && id == env.ids[k])
  }

  lemma BoxIsAsRequested(rows: Intakes, req: CreateRequest, d: Draft, p: Placement, env: Env, k: int)
    requires Normalized(req) == Ok(d.form) && d == DraftOf(rows, d.form) && 1 <= k <= d.form.boxTotal
    ensures WritesRequest(Box(d, p, env, k), req, env.now, k) && NumberedNext(rows, Box(d, p, env, k))
  {
    assert d.unitIndex == NextUnitIndex(rows, d.form.productKey, d.form.qrCode, d.form.kidNumber);
    hide Normalized, DraftOf, NextUnitIndex, NumberedNext, WritesRequest;
    NormalizedFields(req, d, p, env, k);
    NextUnitFollows(rows, Box(d, p, env, k));
  }

  lemma BoxesAreAdded(rows: Intakes, req: CreateRequest, d: Draft, p: Placement, env: Env)
    requires Normalized(req) == Ok(d.form) && d == DraftOf(rows, d.form) && InsertBoxes(rows, d, p, env, 1).Ok?
    ensures UnitAdded(rows, InsertBoxes(rows, d, p, env, 1).value, req, env, d.form.boxTotal)
  {
    hide InsertBoxes, Normalized, DraftOf, NumberedNext, WritesRequest, Box;
    InsertedBoxes(rows, d, p, env, 1);
    EachBoxIsThere(rows, d, p, env, 1);
    forall k | 1 <= k <= d.form.boxTotal
      ensures WritesRequest(Box(d, p, env, k), req, env.now, k) && NumberedNext(rows, Box(d, p, env, k))
    {
      BoxIsAsRequested(rows, req, d, p, env, k);
    }
  }

  lemma CreationInsertsBoxes(st: Store, req: CreateRequest, env: Env) returns (d: Draft, p: Placement)
    requires Created(st, req, env).1.Ok?
    ensures Normalized(req) == Ok(d.form) && d == DraftOf(Purged(st, env.now).intakes, d.form)
    ensures Place(Purged(st, env.now), d) == Ok(p)
    ensures InsertBoxes(Purged(st, env.now).intakes, d, p, env, 1) == Ok(Created(st, req, env).0.intakes)
    ensures Created(st, req, env).1 == Ok(env.ids[1])
  {
    var st0 := Purged(st, env.now);
    CreatedByCommit(st, req, env);
    d := Prepare(st0.intakes, req).value;
    p := Place(st0, d).value;
    hide Created, Purged, Prepare;
    CommittedByInsert(st0, d, env);
  }

  lemma CreatedByCommit(st: Store, req: CreateRequest, env: Env)
    requires Created(st, req, env).1.Ok?
    ensures var st0 := Purged(st, env.now);
            var prepared := Prepare(st0.intakes, req);
            && prepared.Ok? && Normalized(req) == Ok(prepared.value.form) && prepared.value == DraftOf(st0.intakes, prepared.value.form)
            && Committed(st0, prepared.value, env).Ok?
            && Created(st, req, env) == (Committed(st0, prepared.value, env).value, Ok(env.ids[1]))
  {
    hide Purged, Normalized, DraftOf, Committed;
  }

  lemma CommittedByInsert(st: Store, d: Draft, env: Env)
    requires 1 <= d.form.boxTotal <= 20 && Committed(st, d, env).Ok?
    ensures Place(st, d).Ok?
    ensures InsertBoxes(st.intakes, d, Place(st, d).value, env, 1) == Ok(Committed(st, d, env).value.intakes)
  {
    hide Place, InsertBoxes;
  }

  lemma BoxTotalOf(req: CreateRequest)
    requires Normalized(req).Ok?
    ensures Normalized(req).value.boxTotal == if req.boxTotal.None? then 1 else req.boxTotal.value
  {
    hide NormalizeQrCode, NormalizeKidNumber, NormalizeSection, NormalizeLocationText, NormalizeStrategy, NormalizeProductKey;
  }

  lemma PurgeKeepsUnits(rows: Intakes, now: int, after: Intakes, req: CreateRequest, env: Env, boxes: int)
    requires UnitAdded(PurgeExpired(rows, now), after, req, env, boxes)
    ensures UnitAdded(rows, after, req, env, boxes)
  {
    hide NumberedNext, WritesRequest;
    assert forall id :: id in rows && !rows[id].isRemoved ==> id in PurgeExpired(rows, now);
    forall k | 1 <= k <= boxes
      ensures NumberedNext(rows, after[env.ids[k]])
    {
      PurgeKeepsNumbers(rows, now, after[env.ids[k]]);
    }
  }

  /** A creation adds one row for each box under the given ids, numbered as the next unit of its
      series among the rows before the call; active rows stay as they are. */
  lemma CreationAddsTheNextUnit(st: Store, req: CreateRequest, env: Env)
    requires Created(st, req, env).1.Ok?
    ensures UnitAdded(st.intakes, Created(st, req, env).0.intakes, req, env, if req.boxTotal.None? then 1 else req.boxTotal.value)
    ensures Created(st, req, env).1 == Ok(env.ids[1])
  {
    var d, p := CreationInsertsBoxes(st, req, env);
    assert Purged(st, env.now).intakes == PurgeExpired(st.intakes, env.now);
    hide *;
    BoxTotalOf(req);
    BoxesAreAdded(PurgeExpired(st.intakes, env.now), req, d, p, env);
    PurgeKeepsUnits(st.intakes, env.now, Created(st, req, env).0.intakes, req, env, d.form.boxTotal);
  }

  /** Labels of one order and kid tell units apart by their index, and only units. */
  lemma IndexTellsUnitsApart(u: int, v: int, kid: string, qr: string)
    ensures InternalIndex(u, kid, qr) == InternalIndex(v, kid, qr) <==> u == v
  {
    var middle, order := "-" + CompactKid(kid) + "-", OrderForIndex(qr);
    hide CompactKid, OrderForIndex, SignedText;
    var tail := middle + order;
    var a, b := SignedText(u), SignedText(v);
    assert InternalIndex(u, kid, qr) == a + tail && InternalIndex(v, kid, qr) == b + tail;
    if a + tail == b + tail {
      assert (a + tail)[..|a|] == a && (b + tail)[..|b|] == b;
      SignedTextInjective(u, v);
    }
  }

  // ---------------------------------------------------------------- what an index reads like

  predicate IsOrderId(id: string) {
    1 <= |id| <= 64 && forall c :: c in id ==> 'a' <= c <= 'z' || 'A' <= c <= 'Z' || '0' <= c <= '9' || c == '-' || c == '_'
  }

  lemma OrderIdsExactly(first: string)
    requires '|' !in first
    ensures ExtractOrderId(first) == if IsOrderId(Trim(Rust, first)) then Some(Trim(Rust, first)) else None
  {
    SplitWhole(first, '|');
    hide Trim, Split;
    assert forall c :: IsOrderIdChar(c) <==> 'a' <= c <= 'z' || 'A' <= c <= 'Z' || '0' <= c <= '9' || c == '-' || c == '_';
  }

  /** The order of a label is what stands before its first bar, if that is an order id. */
  lemma OrderOfALabel(first: string, rest: string)
    requires '|' !in first
    ensures OrderForIndex(first) == OrderForIndex(first + "|" + rest)
      == if IsOrderId(Trim(Rust, first)) then Trim(Rust, first) else "NOORDER"
  {
    OrderIdsExactly(first);
    SplitFirst(first, '|', rest);
    SplitWhole(first, '|');
    assert first + ['|'] + rest == first + "|" + rest;
    hide Trim, Split, IsOrderId, IsOrderIdChar;
  }

  /** A kid number without the prefix, or the number behind it. */
  lemma KidOfALabel(number: string)
    requires Trimmed(Rust, number) && !("KID-" <= number) && !("kid-" <= number)
    ensures CompactKid(number) == number && CompactKid("KID-" + number) == number
  {
    var kid := "KID-" + number;
    assert kid[0] == 'K' && !IsSpace(Rust, 'K') && !IsSpace(Rust, '-');
    assert kid[|kid| - 1] == if number == "" then '-' else number[|number| - 1];
    assert Trimmed(Rust, kid) && kid[4..] == number;
    hide Trim, Trimmed, IsSpace;
    assert StripRepeated("KID-", kid) == StripRepeated("KID-", number) == number && StripRepeated("kid-", number) == number;
  }

  lemma IndexByParts(unit: nat, kid: string, qr: string, number: string, order: string)
    requires CompactKid(kid) == number && OrderForIndex(qr) == order
    ensures InternalIndex(unit, kid, qr) == Decimal(unit) + "-" + number + "-" + order
  {
    hide CompactKid, OrderForIndex, Decimal;
    var a := Decimal(unit);
    assert a + ("-" + number + "-") + order == a + "-" + number + "-" + order;
  }

  /** The index of a unit reads unit, kid number and order id with hyphens between. */
  lemma IndexReads(unit: nat, number: string, first: string, rest: string)
    requires Trimmed(Rust, number) && !("KID-" <= number) && !("kid-" <= number)
    requires '|' !in first && IsOrderId(Trim(Rust, first))
    ensures InternalIndex(unit, "KID-" + number, first + "|" + rest) == Decimal(unit) + "-" + number + "-" + Trim(Rust, first)
  {
    hide *;
    OrderOfALabel(first, rest);
    KidOfALabel(number);
    IndexByParts(unit, "KID-" + number, first + "|" + rest, number, Trim(Rust, first));
  }
}
