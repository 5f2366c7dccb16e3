/** Safety of the slot pool over every run of creations, deletions and purges. */
module PoolSafety {
  import opened Wrappers
  import opened Text
  import opened IntakeText
  import opened IntakeStore

  // ---------------------------------------------------------------- the invariant

  predicate HoldsSlot(row: Intake) { !row.isRemoved && row.origin.Pooled? }

  ghost predicate IdsMatch(rows: Intakes) { forall id :: id in rows ==> rows[id].id == id }

  ghost predicate BoxesUnique(rows: Intakes) {
    forall a, b :: a in rows && b in rows && SameActiveBox(rows[a], rows[b]) ==> a == b
  }

  /** A slot key is mapped in at most one section. */
  ghost predicate SectionsDisjoint(pools: Pools) {
    forall s, t, key :: s in pools && t in pools && key in pools[s] && key in pools[t] ==> s == t
  }

  ghost predicate IndexesTrimmed(rows: Intakes) {
    forall id :: id in rows && rows[id].internalIndex.Some? ==> Trimmed(Rust, rows[id].internalIndex.value)
  }

  /** The slot of an active pooled box is mapped in the box's own section, under its own index. */
  predicate Mapped(pools: Pools, row: Intake) {
    && 1 <= row.slot <= POOL_SIZE
    && row.section in pools
    && SlotKey(row.slot) in pools[row.section]
    && row.internalIndex == Some(pools[row.section][SlotKey(row.slot)].internalIndex)
  }

  ghost predicate SlotsHeld(st: Store) {
    forall id :: id in st.intakes && HoldsSlot(st.intakes[id]) ==> Mapped(st.pools, st.intakes[id])
  }

  ghost predicate OneReservationPerSeat(rows: Intakes) {
    forall a, b :: a in rows && b in rows && HoldsSlot(rows[a]) && HoldsSlot(rows[b])
      && rows[a].section == rows[b].section && rows[a].slot == rows[b].slot
      ==> rows[a].origin == rows[b].origin
  }

  ghost predicate OneSeatPerReservation(rows: Intakes) {
    forall a, b :: a in rows && b in rows && rows[a].origin.Pooled? && rows[a].origin == rows[b].origin
      ==> rows[a].section == rows[b].section && rows[a].slot == rows[b].slot
  }

  ghost predicate ReservationsCounted(st: Store) {
    forall id :: id in st.intakes && st.intakes[id].origin.Pooled? ==> st.intakes[id].origin.reservation < st.reservations
  }

  ghost predicate Inv(st: Store) {
    && IdsMatch(st.intakes)
    && BoxesUnique(st.intakes)
    && IndexesTrimmed(st.intakes)
    && SectionsDisjoint(st.pools)
    && SlotsHeld(st)
    && OneReservationPerSeat(st.intakes)
    && OneSeatPerReservation(st.intakes)
    && ReservationsCounted(st)
  }

  // ---------------------------------------------------------------- shrinking steps

  /** Rows are dropped or marked removed; nothing else changes. */
  ghost predicate Shrinks(before: Intakes, after: Intakes) {
    forall id :: id in after ==>
      id in before && (after[id] == before[id]
                       || after[id] == before[id].(isRemoved := true, removedAt := after[id].removedAt))
  }

  lemma ShrinkKeepsInv(st: Store, after: Intakes)
    requires Inv(st) && Shrinks(st.intakes, after)
    ensures Inv(st.(intakes := after))
  {
    var st' := st.(intakes := after);
    assert forall id :: id in after && !after[id].isRemoved ==> after[id] == st.intakes[id];
    assert SlotsHeld(st');
  }

  /** Releasing an unused slot takes no mapping away from a box that is still there. */
  lemma ReleaseKeepsInv(st: Store, section: string, slot: int)
    requires Inv(st)
    ensures Inv(ReleaseIfUnused(st, section, slot))
  {
    if |ActiveRowsAt(st.intakes, section, slot)| == 0 && section in st.pools {
      var st' := ReleaseIfUnused(st, section, slot);
      forall id | id in st.intakes && HoldsSlot(st.intakes[id])
        ensures Mapped(st'.pools, st.intakes[id])
      {
        var row := st.intakes[id];
        assert id !in ActiveRowsAt(st.intakes, section, slot);
        if row.section == section && SlotKey(row.slot) == SlotKey(slot) {
          SignedTextInjective(row.slot, slot);
        }
      }
    }
  }

  // ---------------------------------------------------------------- creation

  /** What a successful box loop did: exactly the boxes k..boxTotal were added, under fresh ids. */
  ghost predicate Extends(before: Intakes, after: Intakes, d: Draft, p: Placement, env: Env, k: int)
    requires 1 <= k && d.form.boxTotal <= 20
  {
    && (forall id :: id in before ==> id in after && after[id] == before[id])
    && (forall id :: id in after && id !in before ==> NewBox(after[id], id, d, p, env, k))
    && (forall j :: k <= j <= d.form.boxTotal ==> env.ids[j] !in before && env.ids[j] in after)
  }

  ghost predicate NewBox(row: Intake, id: nat, d: Draft, p: Placement, env: Env, k: int)
    requires 1 <= k && d.form.boxTotal <= 20
  {
    exists j :: k <= j <= d.form.boxTotal && id == env.ids[j] && row == Box(d, p, env, j)
  }

  lemma {:induction false} InsertedBoxes(rows: Intakes, d: Draft, p: Placement, env: Env, k: int)
    requires 1 <= k && d.form.boxTotal <= 20
    requires InsertBoxes(rows, d, p, env, k).Ok?
    ensures Extends(rows, InsertBoxes(rows, d, p, env, k).value, d, p, env, k)
    ensures BoxesUnique(rows) ==> BoxesUnique(InsertBoxes(rows, d, p, env, k).value)
    decreases d.form.boxTotal - k
  {
    if k <= d.form.boxTotal {
      var box := Box(d, p, env, k);
      var next := rows[env.ids[k] := box];
      var after := InsertBoxes(rows, d, p, env, k).value;
      InsertedBoxes(next, d, p, env, k + 1);
      forall id | id in after && id !in rows
        ensures NewBox(after[id], id, d, p, env, k)
      {
        if id in next {
          assert id == env.ids[k] && after[id] == box;
        } else {
          assert NewBox(after[id], id, d, p, env, k + 1);
        }
      }
    }
  }

  /** A reservation takes the lowest number that no section maps. */
  lemma ReserveTakesLowestFree(pools: Pools, section: string, index: string)
    requires Reserve(pools, section, index).Some?
    ensures var slot := Reserve(pools, section, index).value.0;
            && 1 <= slot <= POOL_SIZE
            && SlotKey(slot) !in UsedKeys(pools)
            && (forall n :: 1 <= n < slot ==> SlotKey(n) in UsedKeys(pools))
            && Reserve(pools, section, index).value.1
               == EnsureSection(pools, section)[section := EnsureSection(pools, section)[section][SlotKey(slot) := PoolEntry(section, index)]]
  {
    var rows := EnsureSection(pools, section);
    forall key | key in UsedKeys(pools)
      ensures key in UsedKeys(rows)
    {
      var s :| s in pools && key in pools[s];
      assert s in rows && rows[s] == pools[s];
    }
  }

  lemma ReserveKeepsDisjoint(pools: Pools, section: string, index: string)
    requires SectionsDisjoint(pools) && Reserve(pools, section, index).Some?
    ensures SectionsDisjoint(Reserve(pools, section, index).value.1)
  {
    ReserveTakesLowestFree(pools, section, index);
  }

  lemma ReserveKeepsMapped(pools: Pools, section: string, index: string, row: Intake)
    requires Reserve(pools, section, index).Some?
    requires Mapped(pools, row)
    ensures Mapped(Reserve(pools, section, index).value.1, row)
    ensures row.slot != Reserve(pools, section, index).value.0
  {
    ReserveTakesLowestFree(pools, section, index);
    assert SlotKey(row.slot) in UsedKeys(pools);
  }

  /** What a placement promises to the rows that are about to be inserted. */
  ghost predicate PlacedWell(st: Store, d: Draft, p: Placement) {
    && SectionsDisjoint(p.pools)
    && p.reservations >= st.reservations
    && (forall id :: id in st.intakes && HoldsSlot(st.intakes[id]) ==> Mapped(p.pools, st.intakes[id]))
    && (p.origin.Pooled? ==>
          && p.origin.reservation == st.reservations < p.reservations
          && 1 <= p.seat.slot <= POOL_SIZE && p.seat.section in p.pools
          && SlotKey(p.seat.slot) in p.pools[p.seat.section]
          && p.pools[p.seat.section][SlotKey(p.seat.slot)].internalIndex == d.internalIndex
          && forall id :: id in st.intakes && HoldsSlot(st.intakes[id]) ==> st.intakes[id].slot != p.seat.slot)
  }

  lemma PlaceIsWell(st: Store, d: Draft)
    requires Inv(st) && Place(st, d).Ok?
    ensures PlacedWell(st, d, Place(st, d).value)
  {
    if d.form.strategy.PoolAuto? {
      var section, index := d.form.section.value, d.internalIndex;
      ReserveTakesLowestFree(st.pools, section, index);
      ReserveKeepsDisjoint(st.pools, section, index);
      forall id | id in st.intakes && HoldsSlot(st.intakes[id])
        ensures Mapped(Place(st, d).value.pools, st.intakes[id])
        ensures st.intakes[id].slot != Place(st, d).value.seat.slot
      {
        ReserveKeepsMapped(st.pools, section, index, st.intakes[id]);
      }
    }
  }

  /** Every row after the insert is an old row or one of the new boxes. */
  lemma OldOrNew(before: Intakes, after: Intakes, d: Draft, p: Placement, env: Env, id: nat)
    requires 1 <= d.form.boxTotal <= 20 && Extends(before, after, d, p, env, 1) && id in after
    ensures (id in before && after[id] == before[id]) || (id !in before && BoxOf(after[id], id, d, p))
  {
    if id !in before {
      var j :| 1 <= j <= d.form.boxTotal && id == env.ids[j] && after[id] == Box(d, p, env, j);
    }
  }

  predicate BoxOf(row: Intake, id: nat, d: Draft, p: Placement) {
    row.id == id && !row.isRemoved && row.origin == p.origin && row.section == p.seat.section && row.slot == p.seat.slot &&
    row.internalIndex == Some(d.internalIndex)
  }

  lemma InsertKeepsInv(st: Store, d: Draft, p: Placement, env: Env, after: Intakes)
    requires Inv(st) && 1 <= d.form.boxTotal <= 20 && Trimmed(Rust, d.internalIndex)
    requires PlacedWell(st, d, p)
    requires Extends(st.intakes, after, d, p, env, 1) && BoxesUnique(after)
    ensures Inv(Store(after, p.pools, p.reservations))
  {
    forall id | id in after
      ensures (id in st.intakes && after[id] == st.intakes[id]) || (id !in st.intakes && BoxOf(after[id], id, d, p))
    {
      OldOrNew(st.intakes, after, d, p, env, id);
    }
    hide Extends, BoxesUnique;
    RowsKeepInv(st, d, p, after);
  }

  lemma RowsKeepInv(st: Store, d: Draft, p: Placement, after: Intakes)
    requires Inv(st) && Trimmed(Rust, d.internalIndex) && PlacedWell(st, d, p) && BoxesUnique(after)
    requires forall id :: id in after ==>
      (id in st.intakes && after[id] == st.intakes[id]) || (id !in st.intakes && BoxOf(after[id], id, d, p))
    ensures Inv(Store(after, p.pools, p.reservations))
  {
    hide BoxesUnique, SectionsDisjoint;
    assert SlotsHeld(Store(after, p.pools, p.reservations));
    assert OneReservationPerSeat(after);
    assert OneSeatPerReservation(after);
    assert IndexesTrimmed(after);
  }

  lemma CommittedKeepsInv(st: Store, d: Draft, env: Env)
    requires Inv(st) && 1 <= d.form.boxTotal <= 20 && Trimmed(Rust, d.internalIndex)
    requires Committed(st, d, env).Ok?
    ensures Inv(Committed(st, d, env).value)
  {
    var p := Place(st, d).value;
    PlaceIsWell(st, d);
    InsertedBoxes(st.intakes, d, p, env, 1);
    InsertKeepsInv(st, d, p, env, InsertBoxes(st.intakes, d, p, env, 1).value);
  }

  // ---------------------------------------------------------------- every step, every run

  lemma PurgeKeepsInv(st: Store, now: int)
    requires Inv(st)
    ensures Inv(Purged(st, now))
  {
    ShrinkKeepsInv(st, PurgeExpired(st.intakes, now));
  }

  lemma CreatedKeepsInv(st: Store, req: CreateRequest, env: Env)
    requires Inv(st)
    ensures Inv(Created(st, req, env).0)
  {
    var st0 := Purged(st, env.now);
    PurgeKeepsInv(st, env.now);
    var prepared := Prepare(st0.intakes, req);
    if prepared.Ok? && Committed(st0, prepared.value, env).Ok? {
      CommittedKeepsInv(st0, prepared.value, env);
    }
  }

  lemma DeletedByIdKeepsInv(st: Store, id: nat, mode: Option<string>, hardAllowed: bool, now: int)
    requires Inv(st)
    ensures Inv(DeletedById(st, id, mode, hardAllowed, now).0)
  {
    if DeletedById(st, id, mode, hardAllowed, now).1.Ok? {
      var row := st.intakes[id];
      var soft := NormalizeDeleteMode(mode).value.Soft?;
      var rows := if soft then MarkRemoved(st.intakes, {id}, now) else st.intakes - {id};
      ShrinkKeepsInv(st, rows);
      ReleaseKeepsInv(st.(intakes := rows), row.section, row.slot);
    }
  }

  lemma DeletedOldestKeepsInv(st: Store, rawSection: string, slot: int, now: int)
    requires Inv(st)
    ensures Inv(DeletedOldest(st, rawSection, slot, now).0)
  {
    var r := DeletedOldest(st, rawSection, slot, now).1;
    if r.Ok? {
      var rows := MarkRemoved(st.intakes, r.value, now);
      ShrinkKeepsInv(st, rows);
      ReleaseKeepsInv(st.(intakes := rows), NormalizeSection(rawSection).value, slot);
    }
  }

  lemma StepKeepsInv(st: Store, c: Command)
    requires Inv(st)
    ensures Inv(Step(st, c))
  {
    hide Inv, Created, DeletedById, DeletedOldest, Purged;
    match c
    case Create(req, env) => CreatedKeepsInv(st, req, env);
    case DeleteById(id, mode, hardAllowed, at) => DeletedByIdKeepsInv(st, id, mode, hardAllowed, at);
    case DeleteOldest(section, slot, at) => DeletedOldestKeepsInv(st, section, slot, at);
    case Purge(at) => PurgeKeepsInv(st, at);
  }

  lemma {:induction false} RunKeepsInv(st: Store, cs: seq<Command>)
    requires Inv(st)
    ensures Inv(Run(st, cs))
    decreases |cs|
  {
    hide Inv, Step;
    if cs != [] {
      StepKeepsInv(st, cs[0]);
      RunKeepsInv(Step(st, cs[0]), cs[1..]);
    }
  }

  // ---------------------------------------------------------------- what the invariant means

  /** Active pooled boxes have the same slot number, in whatever sections, exactly when they
      belong to the same reservation. */
  lemma SlotNumberIdentifiesReservation(st: Store, a: nat, b: nat)
    requires Inv(st) && a in st.intakes && b in st.intakes
    requires HoldsSlot(st.intakes[a]) && HoldsSlot(st.intakes[b])
    ensures st.intakes[a].slot == st.intakes[b].slot <==> st.intakes[a].origin == st.intakes[b].origin
  {
    var x, y := st.intakes[a], st.intakes[b];
    assert Mapped(st.pools, x) && Mapped(st.pools, y);
    if x.slot == y.slot {
      assert SlotKey(x.slot) in st.pools[x.section] && SlotKey(x.slot) in st.pools[y.section];
      assert x.section == y.section;
    }
  }

  /** Over every run from the empty database: pooled boxes hold mapped slots, and a slot
      number belongs to one reservation across all sections. */
  lemma NoSlotIsSharedInAnyRun(cs: seq<Command>)
    ensures SectionsDisjoint(Run(EMPTY, cs).pools)
    ensures forall a :: a in Run(EMPTY, cs).intakes && HoldsSlot(Run(EMPTY, cs).intakes[a])
              ==> Mapped(Run(EMPTY, cs).pools, Run(EMPTY, cs).intakes[a])
    ensures forall a, b :: a in Run(EMPTY, cs).intakes && b in Run(EMPTY, cs).intakes
              && HoldsSlot(Run(EMPTY, cs).intakes[a]) && HoldsSlot(Run(EMPTY, cs).intakes[b])
              ==> (Run(EMPTY, cs).intakes[a].slot == Run(EMPTY, cs).intakes[b].slot
                   <==> Run(EMPTY, cs).intakes[a].origin == Run(EMPTY, cs).intakes[b].origin)
  {
    var st := Run(EMPTY, cs);
    RunKeepsInv(EMPTY, cs);
    forall a, b | a in st.intakes && b in st.intakes && HoldsSlot(st.intakes[a]) && HoldsSlot(st.intakes[b])
      ensures st.intakes[a].slot == st.intakes[b].slot <==> st.intakes[a].origin == st.intakes[b].origin
    {
      SlotNumberIdentifiesReservation(st, a, b);
    }
  }

  // ---------------------------------------------------------------- exhaustion

  function KeysUpTo(n: nat): set<string> {
    if n == 0 then {} else KeysUpTo(n - 1) + {SlotKey(n)}
  }

  lemma {:induction false} KeysUpToAreDistinct(n: nat)
    ensures |KeysUpTo(n)| == n
    ensures forall key :: key in KeysUpTo(n) ==> exists k :: 1 <= k <= n && key == SlotKey(k)
  {
    if n > 0 {
      KeysUpToAreDistinct(n - 1);
      forall k | 1 <= k < n && SlotKey(k) == SlotKey(n)
        ensures false
      {
        SignedTextInjective(k, n);
      }
    }
  }

  lemma {:induction false} SubsetIsNoLarger(a: set<string>, b: set<string>)
    requires a <= b
    ensures |a| <= |b|
  {
    assert b == a + (b - a);
  }

  /** A reservation fails exactly when every slot number is mapped somewhere, and that takes
      at least as many mappings as the pool has numbers. */
  lemma ReserveFailsOnlyWhenFull(pools: Pools, section: string, index: string)
    ensures Reserve(pools, section, index).None? <==> forall n :: 1 <= n <= POOL_SIZE ==> SlotKey(n) in UsedKeys(pools)
    ensures Reserve(pools, section, index).None? ==> |UsedKeys(pools)| >= POOL_SIZE
  {
    if Reserve(pools, section, index).Some? {
      ReserveTakesLowestFree(pools, section, index);
    } else {
      var rows := EnsureSection(pools, section);
      assert UsedKeys(rows) <= UsedKeys(pools);
      KeysUpToAreDistinct(POOL_SIZE);
      assert KeysUpTo(POOL_SIZE) <= UsedKeys(pools);
      SubsetIsNoLarger(KeysUpTo(POOL_SIZE), UsedKeys(pools));
    }
  }
}
