/** When the pool gives every slot back: a mapped slot should have an active box on it. */
module PoolLeaks {
  import opened Wrappers
  import opened Text
  import opened IntakeText
  import opened IntakeStore
  import opened PoolSafety

  predicate SeatedAt(row: Intake, section: string, key: string) {
    !row.isRemoved && row.section == section && SlotKey(row.slot) == key
  }

  ghost predicate Occupied(rows: Intakes, section: string, key: string) {
    exists id :: id in rows && SeatedAt(rows[id], section, key)
  }

  /** Every mapped slot has an active box at its section and number. */
  ghost predicate NoLeak(st: Store) {
    forall s, key :: s in st.pools && key in st.pools[s] ==> Occupied(st.intakes, s, key)
  }

  /** Active boxes with the same internal index stand at one place. */
  ghost predicate Coherent(rows: Intakes) {
    forall a, b :: a in rows && b in rows && !rows[a].isRemoved && !rows[b].isRemoved
      && rows[a].internalIndex.Some? && rows[a].internalIndex == rows[b].internalIndex
      ==> rows[a].section == rows[b].section && rows[a].slot == rows[b].slot
  }

  lemma SeatIsOccupied(rows: Intakes, section: string, slot: int)
    ensures Occupied(rows, section, SlotKey(slot)) <==> |ActiveRowsAt(rows, section, slot)| > 0
  {
    if Occupied(rows, section, SlotKey(slot)) {
      var id :| id in rows && SeatedAt(rows[id], section, SlotKey(slot));
      SignedTextInjective(rows[id].slot, slot);
      assert id in ActiveRowsAt(rows, section, slot);
    }
    forall id | id in ActiveRowsAt(rows, section, slot)
      ensures SeatedAt(rows[id], section, SlotKey(slot))
    {
    }
  }

  /** After the release, only seats other than the released one can be mapped and empty. */
  lemma ReleaseLeavesOthers(st: Store, section: string, slot: int)
    ensures NoLeak(ReleaseIfUnused(st, section, slot)) <==>
      forall s, key :: s in st.pools && key in st.pools[s] && !(s == section && key == SlotKey(slot)) ==> Occupied(st.intakes, s, key)
  {
    hide Occupied;
    SeatIsOccupied(st.intakes, section, slot);
    var st' := ReleaseIfUnused(st, section, slot);
    forall s, key | s in st.pools && key in st.pools[s] && !(s == section && key == SlotKey(slot))
      ensures s in st'.pools && key in st'.pools[s]
    {
    }
  }

  // ---------------------------------------------------------------- steps that never leak

  lemma PurgeKeepsNoLeak(st: Store, now: int)
    requires NoLeak(st)
    ensures NoLeak(Purged(st, now))
  {
    forall s, key | s in st.pools && key in st.pools[s]
      ensures Occupied(PurgeExpired(st.intakes, now), s, key)
    {
      assert Occupied(st.intakes, s, key);
      var id :| id in st.intakes && SeatedAt(st.intakes[id], s, key);
      assert PurgeExpired(st.intakes, now)[id] == st.intakes[id];
    }
  }

  /** The only mapping a placement adds is that of its own seat. */
  lemma PlacedMappings(st: Store, d: Draft, s: string, key: string)
    requires Place(st, d).Ok? && s in Place(st, d).value.pools && key in Place(st, d).value.pools[s]
    ensures var p := Place(st, d).value;
            (s in st.pools && key in st.pools[s]) || (s == p.seat.section && key == SlotKey(p.seat.slot))
  {
    if d.form.strategy.PoolAuto? {
      ReserveTakesLowestFree(st.pools, d.form.section.value, d.internalIndex);
    }
    hide Reserve, SlotKey, DecidePlacement;
  }

  lemma NewBoxSits(before: Intakes, after: Intakes, d: Draft, p: Placement, env: Env)
    requires 1 <= d.form.boxTotal <= 20 && Extends(before, after, d, p, env, 1)
    ensures Occupied(after, p.seat.section, SlotKey(p.seat.slot))
  {
    OldOrNew(before, after, d, p, env, env.ids[1]);
    hide Extends;
    assert SeatedAt(after[env.ids[1]], p.seat.section, SlotKey(p.seat.slot));
  }

  lemma CommittedKeepsNoLeak(st: Store, d: Draft, env: Env)
    requires NoLeak(st) && 1 <= d.form.boxTotal <= 20 && Committed(st, d, env).Ok?
    ensures NoLeak(Committed(st, d, env).value)
  {
    var p := Place(st, d).value;
    var after := InsertBoxes(st.intakes, d, p, env, 1).value;
    InsertedBoxes(st.intakes, d, p, env, 1);
    assert forall id :: id in st.intakes ==> id in after && after[id] == st.intakes[id];
    NewBoxSits(st.intakes, after, d, p, env);
    hide Extends, Place, InsertBoxes, SlotKey;
    forall s, key | s in p.pools && key in p.pools[s]
      ensures Occupied(after, s, key)
    {
      PlacedMappings(st, d, s, key);
      if s in st.pools && key in st.pools[s] {
        assert Occupied(st.intakes, s, key);
      }
    }
  }

  lemma CreatedKeepsNoLeak(st: Store, req: CreateRequest, env: Env)
    requires NoLeak(st)
    ensures NoLeak(Created(st, req, env).0)
  {
    hide NoLeak;
    var st0 := Purged(st, env.now);
    PurgeKeepsNoLeak(st, env.now);
    var prepared := Prepare(st0.intakes, req);
    if prepared.Ok? && Committed(st0, prepared.value, env).Ok? {
      CommittedKeepsNoLeak(st0, prepared.value, env);
    }
  }

  /** Rows outside `ids` are untouched. */
  ghost predicate OnlyTakes(before: Intakes, after: Intakes, ids: set<nat>) {
    forall id :: id in before && id !in ids ==> id in after && after[id] == before[id]
  }

  lemma DeletedByIdKeepsNoLeak(st: Store, id: nat, mode: Option<string>, hardAllowed: bool, now: int)
    requires NoLeak(st)
    ensures NoLeak(DeletedById(st, id, mode, hardAllowed, now).0)
  {
    if DeletedById(st, id, mode, hardAllowed, now).1.Ok? {
      var row := st.intakes[id];
      var rows := if NormalizeDeleteMode(mode).value.Soft? then MarkRemoved(st.intakes, {id}, now) else st.intakes - {id};
      assert OnlyTakes(st.intakes, rows, {id});
      forall s, key | s in st.pools && key in st.pools[s] && !(s == row.section && key == SlotKey(row.slot))
        ensures Occupied(rows, s, key)
      {
        assert Occupied(st.intakes, s, key);
        var other :| other in st.intakes && SeatedAt(st.intakes[other], s, key);
        assert other != id && rows[other] == st.intakes[other];
      }
      ReleaseLeavesOthers(st.(intakes := rows), row.section, row.slot);
    }
  }

  // ---------------------------------------------------------------- deletion by location

  /** Some other mapped place holds nothing but boxes of the group. */
  ghost predicate Strands(st: Store, section: string, slot: int, group: set<nat>) {
    exists s, key :: s in st.pools && key in st.pools[s] && !(s == section && key == SlotKey(slot))
      && forall id :: id in st.intakes && SeatedAt(st.intakes[id], s, key) ==> id in group
  }

  lemma RemovalLeaksExactly(st: Store, section: string, slot: int, group: set<nat>, now: int)
    ensures NoLeak(ReleaseIfUnused(st.(intakes := MarkRemoved(st.intakes, group, now)), section, slot))
      <==> !Strands(st, section, slot, group)
  {
    hide Occupied, ReleaseIfUnused, MarkRemoved, NoLeak;
    var rows := MarkRemoved(st.intakes, group, now);
    forall s, key | s in st.pools && key in st.pools[s]
      ensures Occupied(rows, s, key) <==> exists id :: id in st.intakes && SeatedAt(st.intakes[id], s, key) && id !in group
    {
      RemainingSeat(st.intakes, group, now, s, key);
    }
    ReleaseLeavesOthers(st.(intakes := rows), section, slot);
  }

  lemma RemainingSeat(before: Intakes, group: set<nat>, now: int, s: string, key: string)
    ensures Occupied(MarkRemoved(before, group, now), s, key)
      <==> exists id :: id in before && SeatedAt(before[id], s, key) && id !in group
  {
    var rows := MarkRemoved(before, group, now);
    assert forall id :: id in rows ==> (SeatedAt(rows[id], s, key) <==> SeatedAt(before[id], s, key) && id !in group);
  }

  /** Every active box at the place carries this index. */
  ghost predicate AllIndexed(rows: Intakes, section: string, key: string, index: string) {
    forall id :: id in rows && SeatedAt(rows[id], section, key) ==> rows[id].internalIndex == Some(index)
  }

  /** The oldest box at the location has an index, and at some other mapped place every active
      box carries that index. */
  ghost predicate SharesItsIndex(st: Store, rawSection: string, slot: int) {
    && NormalizeSection(rawSection).Ok? && 1 <= slot <= POOL_SIZE
    && var section := NormalizeSection(rawSection).value;
    && OldestAt(st.intakes, section, slot).Some?
    && var seed := st.intakes[OldestAt(st.intakes, section, slot).value];
    && seed.internalIndex.Some? && Trim(Rust, seed.internalIndex.value) != ""
    && IndexFillsAnother(st, section, slot, Trim(Rust, seed.internalIndex.value))
  }

  ghost predicate IndexFillsAnother(st: Store, section: string, slot: int, index: string) {
    exists s, key :: s in st.pools && key in st.pools[s] && !(s == section && key == SlotKey(slot))
      && AllIndexed(st.intakes, s, key, index)
  }

  /** Deleting by location leaks a slot exactly when the oldest box's index fills another mapped
      place; a deletion that is refused leaks nothing. */
  lemma DeletedOldestLeaksExactly(st: Store, rawSection: string, slot: int, now: int)
    requires NoLeak(st)
    ensures NoLeak(DeletedOldest(st, rawSection, slot, now).0) <==> !SharesItsIndex(st, rawSection, slot)
  {
    hide NoLeak, Strands, ReleaseIfUnused, MarkRemoved, GroupRows, GroupOf, NormalizeSection, IndexFillsAnother, Trim;
    if NormalizeSection(rawSection).Ok? && 1 <= slot <= POOL_SIZE {
      var section := NormalizeSection(rawSection).value;
      if OldestAt(st.intakes, section, slot).Some? {
        var seed := OldestAt(st.intakes, section, slot).value;
        GroupStrandsExactly(st, section, slot, seed);
        RemovalLeaksExactly(st, section, slot, GroupRows(st.intakes, GroupOf(st.intakes[seed])), now);
        EmptyGroupStrandsNothing(st, section, slot);
      }
    }
  }

  lemma EmptyGroupStrandsNothing(st: Store, section: string, slot: int)
    requires NoLeak(st)
    ensures !Strands(st, section, slot, {})
  {
    forall s, key | s in st.pools && key in st.pools[s]
      ensures exists id :: id in st.intakes && SeatedAt(st.intakes[id], s, key)
    {
      assert Occupied(st.intakes, s, key);
    }
  }

  /** A group without an index stands at one place, so only an index reaches another place. */
  lemma GroupStrandsExactly(st: Store, section: string, slot: int, seed: nat)
    requires NoLeak(st) && seed in st.intakes && ActiveAt(st.intakes[seed], section, slot)
    ensures Strands(st, section, slot, GroupRows(st.intakes, GroupOf(st.intakes[seed]))) <==>
      && st.intakes[seed].internalIndex.Some? && Trim(Rust, st.intakes[seed].internalIndex.value) != ""
      && IndexFillsAnother(st, section, slot, Trim(Rust, st.intakes[seed].internalIndex.value))
  {
    var g := GroupOf(st.intakes[seed]);
    var group := GroupRows(st.intakes, g);
    hide Trim;
    forall s, key | s in st.pools && key in st.pools[s] && !(s == section && key == SlotKey(slot))
      ensures (forall id :: id in st.intakes && SeatedAt(st.intakes[id], s, key) ==> id in group)
        <==> g.ByIndex? && AllIndexed(st.intakes, s, key, g.internalIndex)
    {
      assert Occupied(st.intakes, s, key);
    }
  }

  /** When equal indexes share one place, the index of the oldest box fills no other place. */
  lemma CoherentNeverStrands(st: Store, rawSection: string, slot: int)
    requires NoLeak(st) && Coherent(st.intakes) && IndexesTrimmed(st.intakes)
    ensures !SharesItsIndex(st, rawSection, slot)
  {
    hide NormalizeSection, Trim, IndexFillsAnother, Coherent, IndexesTrimmed, NoLeak;
    if NormalizeSection(rawSection).Ok? && OldestAt(st.intakes, NormalizeSection(rawSection).value, slot).Some? {
      var section := NormalizeSection(rawSection).value;
      var seed := OldestAt(st.intakes, section, slot).value;
      if st.intakes[seed].internalIndex.Some? {
        IndexStaysAtItsPlace(st, section, slot, seed);
      }
    }
  }

  lemma IndexStaysAtItsPlace(st: Store, section: string, slot: int, seed: nat)
    requires NoLeak(st) && Coherent(st.intakes) && IndexesTrimmed(st.intakes)
    requires seed in st.intakes && ActiveAt(st.intakes[seed], section, slot) && st.intakes[seed].internalIndex.Some?
    ensures !IndexFillsAnother(st, section, slot, Trim(Rust, st.intakes[seed].internalIndex.value))
  {
    var index := Trim(Rust, st.intakes[seed].internalIndex.value);
    assert index == st.intakes[seed].internalIndex.value;
    hide Trim, Trimmed;
    forall s, key | s in st.pools && key in st.pools[s] && !(s == section && key == SlotKey(slot))
      ensures !AllIndexed(st.intakes, s, key, index)
    {
      assert Occupied(st.intakes, s, key);
    }
  }

  // ---------------------------------------------------------------- every step, every run

  /** From a leak-free state a step leaks exactly when it is a deletion by location whose oldest
      box has an index that fills another mapped place. */
  lemma StepLeaksExactly(st: Store, c: Command)
    requires NoLeak(st)
    ensures NoLeak(Step(st, c)) <==> !(c.DeleteOldest? && SharesItsIndex(st, c.section, c.slot))
  {
    hide NoLeak, SharesItsIndex, Created, DeletedById, DeletedOldest, Purged;
    match c
    case Create(req, env) => CreatedKeepsNoLeak(st, req, env);
    case DeleteById(id, mode, hardAllowed, at) => DeletedByIdKeepsNoLeak(st, id, mode, hardAllowed, at);
    case DeleteOldest(section, slot, at) => DeletedOldestLeaksExactly(st, section, slot, at);
    case Purge(at) => PurgeKeepsNoLeak(st, at);
  }

  /** No slot is mapped and empty before, between or after the commands. */
  ghost predicate LeakFreeThroughout(st: Store, cs: seq<Command>)
    decreases |cs|
  {
    NoLeak(st) && (cs != [] ==> LeakFreeThroughout(Step(st, cs[0]), cs[1..]))
  }

  ghost predicate NeverShared(st: Store, cs: seq<Command>)
    decreases |cs|
  {
    cs != [] ==> !(cs[0].DeleteOldest? && SharesItsIndex(st, cs[0].section, cs[0].slot)) && NeverShared(Step(st, cs[0]), cs[1..])
  }

  /** A run from a leak-free state stays leak-free throughout exactly when none of its deletions
      by location meets an index that fills another mapped place. */
  lemma {:induction false} RunsLeakExactly(st: Store, cs: seq<Command>)
    requires NoLeak(st)
    ensures LeakFreeThroughout(st, cs) <==> NeverShared(st, cs)
    decreases |cs|
  {
    hide NoLeak, SharesItsIndex, Step;
    if cs != [] {
      StepLeaksExactly(st, cs[0]);
      if NoLeak(Step(st, cs[0])) {
        RunsLeakExactly(Step(st, cs[0]), cs[1..]);
      }
    }
  }

  ghost predicate AlwaysCoherent(st: Store, cs: seq<Command>)
    decreases |cs|
  {
    Coherent(st.intakes) && (cs != [] ==> AlwaysCoherent(Step(st, cs[0]), cs[1..]))
  }

  /** Over every run in which equal indexes share one place, no mapped slot is ever empty. */
  lemma {:induction false} CoherentRunsNeverLeak(st: Store, cs: seq<Command>)
    requires Inv(st) && NoLeak(st) && AlwaysCoherent(st, cs)
    ensures LeakFreeThroughout(st, cs)
    decreases |cs|
  {
    assert IndexesTrimmed(st.intakes);
    hide Inv, NoLeak, Coherent, Step, SharesItsIndex, IndexesTrimmed;
    if cs != [] {
      StepKeepsInv(st, cs[0]);
      if cs[0].DeleteOldest? {
        CoherentNeverStrands(st, cs[0].section, cs[0].slot);
      }
      StepLeaksExactly(st, cs[0]);
      CoherentRunsNeverLeak(Step(st, cs[0]), cs[1..]);
    }
  }
}
