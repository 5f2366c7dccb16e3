/** The intake service: each call is one transaction that updates the two tables in place and
    leaves them, on success and on every error, as its specification function says. */
module IntakeService {
  import opened Wrappers
  import opened Text
  import opened IntakeText
  import opened IntakeStore

  /** The union of the section objects, first value kept; only its keys are used. */
  method CollectUsedPoolSlots(pools: Pools) returns (used: map<string, PoolEntry>)
    ensures used.Keys == UsedKeys(pools)
  {
    used := map[];
    var sections := pools.Keys;
    while sections != {}
      invariant sections <= pools.Keys
      invariant forall key :: key in used <==>
        exists s :: s in pools && s !in sections && key in pools[s]
      decreases |sections|
    {
      var section :| section in sections;
      var slots := pools[section];
      var keys := slots.Keys;
      ghost var before := used.Keys;
      while keys != {}
        invariant keys <= slots.Keys
        invariant used.Keys == before + (slots.Keys - keys)
        decreases |keys|
      {
        var key :| key in keys;
        if key !in used {
          used := used[key := slots[key]];
        }
        keys := keys - {key};
      }
      sections := sections - {section};
    }
  }

  method FindFirstFree(used: map<string, PoolEntry>) returns (slot: Option<int>)
    ensures slot == LowestFree(used.Keys, 1)
  {
    var k := 1;
    while k <= POOL_SIZE
      invariant 1 <= k <= POOL_SIZE + 1
      invariant LowestFree(used.Keys, 1) == LowestFree(used.Keys, k)
    {
      if SlotKey(k) !in used {
        return Some(k);
      }
      k := k + 1;
    }
    return None;
  }

  method SuggestNewLocation(rows: Intakes) returns (seat: Location)
    ensures seat == SuggestLocation(rows)
  {
    var bestSection, bestNextSlot := SECTION_PRIORITY[0], I32_MAX;
    for i := 0 to |SECTION_PRIORITY|
      invariant (bestSection, bestNextSlot) == BestOfFirst(rows, i)
    {
      var nextSlot := NextSlot(rows, i);
      if nextSlot < bestNextSlot {
        bestNextSlot := nextSlot;
        bestSection := SECTION_PRIORITY[i];
      }
    }
    seat := Location(bestSection, bestNextSlot, ComposeLocation(bestNextSlot, bestSection));
  }

  /** The box loop on the transaction's own copy of the table. */
  method InsertAll(rows: Intakes, d: Draft, p: Placement, env: Env) returns (r: Result<Intakes, IntakeError>)
    requires 1 <= d.form.boxTotal <= 20
    ensures r == InsertBoxes(rows, d, p, env, 1)
  {
    var tx: Intakes := rows;
    var k := 1;
    while k <= d.form.boxTotal
      invariant 1 <= k <= d.form.boxTotal + 1
      invariant InsertBoxes(rows, d, p, env, 1) == InsertBoxes(tx, d, p, env, k)
    {
      var box := Box(d, p, env, k);
      if env.fault == InsertFails(k) {
        return Err(StorageFailure);
      }
      if Clashes(tx, box) {
        return Err(DuplicateIntake);
      }
      tx := tx[env.ids[k] := box];
      k := k + 1;
    }
    r := Ok(tx);
  }

  class Warehouse {
    var intakes: Intakes
    var pools: Pools
    var reservations: nat

    function State(): Store
      reads this
    {
      Store(intakes, pools, reservations)
    }

    constructor ()
      ensures State() == EMPTY
    {
      intakes, pools, reservations := map[], map[], 0;
    }

    method Purge(now: int)
      modifies this`intakes
      ensures State() == Purged(old(State()), now)
    {
      intakes := PurgeExpired(intakes, now);
    }

    /** Locks and reads every section row, then reports the slot and the new pool table. */
    method ReservePoolSlot(section: string, index: string) returns (r: Option<(int, Pools)>)
      ensures r == Reserve(pools, section, index)
    {
      var rows := EnsureSection(pools, section);
      var used := CollectUsedPoolSlots(rows);
      var slot := FindFirstFree(used);
      if slot.None? {
        return None;
      }
      var sectionSlots := rows[section][SlotKey(slot.value) := PoolEntry(section, index)];
      r := Some((slot.value, rows[section := sectionSlots]));
    }

    method DecidePlace(d: Draft) returns (r: Result<Placement, IntakeError>)
      ensures r == Place(State(), d)
    {
      if d.form.strategy.PoolAuto? {
        if d.form.section.None? {
          return Err(InvalidSection);
        }
        var reserved := ReservePoolSlot(d.form.section.value, d.internalIndex);
        if reserved.None? {
          return Err(PoolExhausted);
        }
        var (slot, newPools) := reserved.value;
        var seat := Location(d.form.section.value, slot, ComposeLocation(slot, d.form.section.value));
        return Ok(Placement(seat, newPools, reservations + 1, Pooled(reservations)));
      }
      var decided := DecidePlacement(intakes, d.form.productKey, d.form.manual, d.form.strategy);
      if decided.Err? {
        return Err(decided.error);
      }
      r := Ok(Placement(decided.value, pools, reservations, Unpooled));
    }

    /** An error before the commit leaves the tables alone. */
    method RunTransaction(d: Draft, env: Env) returns (failure: Option<IntakeError>)
      requires 1 <= d.form.boxTotal <= 20
      modifies this
      ensures Committed(old(State()), d, env) == if failure.Some? then Err(failure.value) else Ok(State())
      ensures failure.Some? ==> State() == old(State())
    {
      var placed := DecidePlace(d);
      if placed.Err? {
        return Some(placed.error);
      }
      var p := placed.value;
      var rows := InsertAll(intakes, d, p, env);
      if rows.Err? {
        return Some(rows.error);
      }
      if env.fault.CommitFails? {
        return Some(StorageFailure);
      }
      intakes, pools, reservations := rows.value, p.pools, p.reservations;
      return None;
    }

    method Create(req: CreateRequest, env: Env) returns (r: Result<nat, IntakeError>)
      modifies this
      ensures (State(), r) == Created(old(State()), req, env)
    {
      Purge(env.now);
      var prepared := Prepare(intakes, req);
      if prepared.Err? {
        return Err(prepared.error);
      }
      var failure := RunTransaction(prepared.value, env);
      r := if failure.Some? then Err(failure.value) else Ok(env.ids[1]);
    }

    method ReleasePoolSlotIfUnused(section: string, slot: int)
      modifies this`pools
      ensures State() == ReleaseIfUnused(old(State()), section, slot)
    {
      var activeRows := |ActiveRowsAt(intakes, section, slot)|;
      if activeRows > 0 {
        return;
      }
      pools := ReleaseKey(pools, section, slot);
    }

    method Delete(id: nat, mode: Option<string>, hardAllowed: bool, now: int) returns (r: Result<Intake, IntakeError>)
      modifies this
      ensures (State(), r) == DeletedById(old(State()), id, mode, hardAllowed, now)
    {
      var m := NormalizeDeleteMode(mode);
      if m.Err? {
        return Err(m.error);
      }
      if m.value.Hard? && !hardAllowed {
        return Err(AdminRequired);
      }
      if id !in intakes || (m.value.Soft? && intakes[id].isRemoved) {
        return Err(NotFound);
      }
      var row := intakes[id];
      if m.value.Soft? {
        intakes := MarkRemoved(intakes, {id}, now);
      } else {
        intakes := intakes - {id};
      }
      ReleasePoolSlotIfUnused(row.section, row.slot);
      r := Ok(row);
    }

    method DeleteOldestByLocation(rawSection: string, slot: int, now: int) returns (r: Result<set<nat>, IntakeError>)
      modifies this
      ensures (State(), r) == DeletedOldest(old(State()), rawSection, slot, now)
    {
      var section := NormalizeSection(rawSection);
      if section.Err? {
        return Err(section.error);
      }
      if !(1 <= slot <= POOL_SIZE) {
        return Err(InvalidSlotNumber);
      }
      var seed := OldestAt(intakes, section.value, slot);
      if seed.None? {
        return Err(NotFound);
      }
      var deleted := GroupRows(intakes, GroupOf(intakes[seed.value]));
      if deleted == {} {
        return Err(NotFound);
      }
      intakes := MarkRemoved(intakes, deleted, now);
      ReleasePoolSlotIfUnused(section.value, slot);
      r := Ok(deleted);
    }
  }
}
