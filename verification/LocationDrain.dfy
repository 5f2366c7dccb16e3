/** Emptying a location first in, first out. */
module LocationDrain {
  import opened Wrappers
  import opened Text
  import opened IntakeText
  import opened IntakeStore
  import opened PoolSafety

  /** The seed's own row is in the group it stands for, whenever stored indexes are trimmed. */
  lemma SeedIsInItsGroup(rows: Intakes, seed: nat)
    requires IndexesTrimmed(rows) && seed in rows && !rows[seed].isRemoved
    ensures seed in GroupRows(rows, GroupOf(rows[seed]))
  {
  }

  /** A deletion succeeds exactly when the place holds an active box; it then removes the whole
      unit of the oldest one, that box included, and touches no other row. */
  lemma DeletionTakesOldestUnit(st: Store, section: string, slot: int, now: int)
    requires Inv(st) && NormalizeSection(section) == Ok(section) && 1 <= slot <= POOL_SIZE
    ensures DeletedOldest(st, section, slot, now).1.Ok? <==> ActiveRowsAt(st.intakes, section, slot) != {}
    ensures DeletedOldest(st, section, slot, now).1.Err? ==>
      DeletedOldest(st, section, slot, now) == (st, Err(NotFound))
    ensures DeletedOldest(st, section, slot, now).1.Ok? ==>
      var seed := OldestAt(st.intakes, section, slot).value;
      var group := DeletedOldest(st, section, slot, now).1.value;
      && seed in group
      && group == GroupRows(st.intakes, GroupOf(st.intakes[seed]))
      && DeletedOldest(st, section, slot, now).0.intakes == MarkRemoved(st.intakes, group, now)
  {
    if ActiveRowsAt(st.intakes, section, slot) != {} {
      SeedIsInItsGroup(st.intakes, OldestAt(st.intakes, section, slot).value);
    }
  }

  /** Two rows belong to one unit: by the index of the first where it has one, else by standing at
      one place with the same labels. */
  predicate SameUnit(first: Intake, row: Intake) {
    if first.internalIndex.Some? && Trim(Rust, first.internalIndex.value) != ""
    then row.internalIndex == Some(Trim(Rust, first.internalIndex.value))
    else
      && row.section == first.section && row.slot == first.slot
      && row.unitIndex == first.unitIndex && row.qrCode == first.qrCode && row.kidNumber == first.kidNumber
      && row.productKey == first.productKey && row.isBWare == first.isBWare
  }

  /** The first row at a place: no other active one there was created earlier, or at the same time
      with a lower box number. */
  ghost predicate IsOldestAt(rows: Intakes, id: nat, section: string, slot: int) {
    && id in rows && !rows[id].isRemoved && rows[id].section == section && rows[id].slot == slot
    && forall other :: other in rows && !rows[other].isRemoved && rows[other].section == section && rows[other].slot == slot ==>
         rows[id].createdAt < rows[other].createdAt
         || (rows[id].createdAt == rows[other].createdAt && rows[id].boxIndex <= rows[other].boxIndex)
  }

  /** A row after the unit of the first one was removed. */
  function Marked(row: Intake, first: Intake, now: int): Intake {
    if !row.isRemoved && SameUnit(first, row) then row.(isRemoved := true, removedAt := Some(now)) else row
  }

  /** Row by row: what a successful deletion marks with its time, and what it leaves as it is. */
  lemma DeletionMarksExactly(st: Store, section: string, slot: int, now: int) returns (first: nat)
    requires Inv(st) && NormalizeSection(section) == Ok(section) && DeletedOldest(st, section, slot, now).1.Ok?
    ensures IsOldestAt(st.intakes, first, section, slot)
    ensures var after := DeletedOldest(st, section, slot, now).0.intakes;
            && after.Keys == st.intakes.Keys
            && forall id :: id in st.intakes ==> after[id] == Marked(st.intakes[id], st.intakes[first], now)
  {
    hide Trim, NormalizeSection, OldestAt, Inv;
    first := OldestAt(st.intakes, section, slot).value;
    assert forall id :: id in ActiveRowsAt(st.intakes, section, slot) <==> id in st.intakes && ActiveAt(st.intakes[id], section, slot);
  }

  lemma RemovalShrinksSeat(rows: Intakes, group: set<nat>, now: int, section: string, slot: int)
    ensures ActiveRowsAt(MarkRemoved(rows, group, now), section, slot) == ActiveRowsAt(rows, section, slot) - group
  {
  }

  lemma ProperSubsetIsSmaller(a: set<nat>, b: set<nat>)
    requires a < b
    ensures |a| < |b|
  {
    assert b == a + (b - a);
    assert b - a != {};
  }

  /** Every successful deletion leaves strictly fewer active boxes at the place. */
  lemma DeletionShrinksSeat(st: Store, section: string, slot: int, now: int)
    requires Inv(st) && NormalizeSection(section) == Ok(section) && 1 <= slot <= POOL_SIZE
    requires DeletedOldest(st, section, slot, now).1.Ok?
    ensures ActiveRowsAt(DeletedOldest(st, section, slot, now).0.intakes, section, slot) < ActiveRowsAt(st.intakes, section, slot)
    ensures |ActiveRowsAt(DeletedOldest(st, section, slot, now).0.intakes, section, slot)| < |ActiveRowsAt(st.intakes, section, slot)|
  {
    DeletionTakesOldestUnit(st, section, slot, now);
    hide Inv, NormalizeSection, GroupRows, GroupOf, MarkRemoved, ActiveRowsAt, DeletedOldest;
    var group := DeletedOldest(st, section, slot, now).1.value;
    var seed := OldestAt(st.intakes, section, slot).value;
    var before := ActiveRowsAt(st.intakes, section, slot);
    RemovalShrinksSeat(st.intakes, group, now, section, slot);
    assert seed in before && seed in group;
    assert before - group < before;
    ProperSubsetIsSmaller(before - group, before);
  }

  /** Deleting by location until nothing is found. */
  ghost function Drain(st: Store, section: string, slot: int, now: int): Store
    requires Inv(st) && NormalizeSection(section) == Ok(section) && 1 <= slot <= POOL_SIZE
    decreases |ActiveRowsAt(st.intakes, section, slot)|
  {
    if DeletedOldest(st, section, slot, now).1.Err? then st
    else
      DeletionShrinksSeat(st, section, slot, now);
      DeletedOldestKeepsInv(st, section, slot, now);
      Drain(DeletedOldest(st, section, slot, now).0, section, slot, now)
  }

  lemma ReleaseUnmaps(st: Store, section: string, slot: int)
    requires ActiveRowsAt(ReleaseIfUnused(st, section, slot).intakes, section, slot) == {}
    ensures section in ReleaseIfUnused(st, section, slot).pools ==> SlotKey(slot) !in ReleaseIfUnused(st, section, slot).pools[section]
  {
    hide ActiveRowsAt, SlotKey;
  }

  lemma DeletionIsRemovalThenRelease(st: Store, section: string, slot: int, now: int)
    requires NormalizeSection(section) == Ok(section) && DeletedOldest(st, section, slot, now).1.Ok?
    ensures DeletedOldest(st, section, slot, now).0
      == ReleaseIfUnused(st.(intakes := MarkRemoved(st.intakes, DeletedOldest(st, section, slot, now).1.value, now)), section, slot)
  {
    hide ReleaseIfUnused, MarkRemoved, GroupRows, OldestAt, NormalizeSection;
  }

  /** A deletion that takes the last active box also takes the mapping. */
  lemma LastDeletionUnmaps(st: Store, section: string, slot: int, now: int)
    requires NormalizeSection(section) == Ok(section)
    requires DeletedOldest(st, section, slot, now).1.Ok?
    requires ActiveRowsAt(DeletedOldest(st, section, slot, now).0.intakes, section, slot) == {}
    ensures section in DeletedOldest(st, section, slot, now).0.pools
      ==> SlotKey(slot) !in DeletedOldest(st, section, slot, now).0.pools[section]
  {
    hide *;
    DeletionIsRemovalThenRelease(st, section, slot, now);
    ReleaseUnmaps(st.(intakes := MarkRemoved(st.intakes, DeletedOldest(st, section, slot, now).1.value, now)), section, slot);
  }

  /** Draining a place that holds a box empties it and gives its slot back. */
  lemma {:induction false} DrainEmptiesAndUnmaps(st: Store, section: string, slot: int, now: int)
    requires Inv(st) && NormalizeSection(section) == Ok(section) && 1 <= slot <= POOL_SIZE
    ensures Inv(Drain(st, section, slot, now))
    ensures ActiveRowsAt(Drain(st, section, slot, now).intakes, section, slot) == {}
    ensures ActiveRowsAt(st.intakes, section, slot) != {} && section in Drain(st, section, slot, now).pools
      ==> SlotKey(slot) !in Drain(st, section, slot, now).pools[section]
    decreases |ActiveRowsAt(st.intakes, section, slot)|
  {
    DeletionTakesOldestUnit(st, section, slot, now);
    hide Inv, NormalizeSection, DeletedOldest, ActiveRowsAt, SlotKey, GroupRows, MarkRemoved;
    if DeletedOldest(st, section, slot, now).1.Ok? {
      var next := DeletedOldest(st, section, slot, now).0;
      DeletionShrinksSeat(st, section, slot, now);
      DeletedOldestKeepsInv(st, section, slot, now);
      DrainEmptiesAndUnmaps(next, section, slot, now);
      if ActiveRowsAt(next.intakes, section, slot) == {} {
        LastDeletionUnmaps(st, section, slot, now);
        DeletionTakesOldestUnit(next, section, slot, now);
      }
    }
  }

  /** First in, first out: the next deletion's oldest box is never older than this one's. */
  lemma SeedsComeInAgeOrder(st: Store, section: string, slot: int, now: int)
    requires Inv(st) && NormalizeSection(section) == Ok(section) && 1 <= slot <= POOL_SIZE
    requires DeletedOldest(st, section, slot, now).1.Ok?
    requires OldestAt(DeletedOldest(st, section, slot, now).0.intakes, section, slot).Some?
    ensures var next := DeletedOldest(st, section, slot, now).0;
            var a, b := OldestAt(st.intakes, section, slot).value, OldestAt(next.intakes, section, slot).value;
            a != b && KeyLe(AgeKey(st.intakes[a], a), AgeKey(st.intakes[b], b))
  {
    DeletionTakesOldestUnit(st, section, slot, now);
    hide Inv, NormalizeSection, DeletedOldest, GroupRows, GroupOf;
    var group := DeletedOldest(st, section, slot, now).1.value;
    RemovalShrinksSeat(st.intakes, group, now, section, slot);
  }
}
