/** What the scan for a new location finds, and where a run of always_new creations lands. */
module PlacementOrder {
  import opened Wrappers
  import opened Text
  import opened IntakeText
  import opened IntakeStore
  import opened PoolSafety

  /** Section i has the smallest next slot of the first n, and is the first that has it. */
  predicate FirstSmallest(rows: Intakes, i: nat, n: nat)
    requires i < n <= |SECTION_PRIORITY|
  {
    (forall j :: 0 <= j < n ==> NextSlot(rows, i) <= NextSlot(rows, j)) &&
    (forall j :: 0 <= j < i ==> NextSlot(rows, i) < NextSlot(rows, j))
  }

  lemma {:induction false} ScanFindsFirstSmallest(rows: Intakes, n: nat) returns (i: nat)
    requires 1 <= n <= |SECTION_PRIORITY|
    ensures i < n && FirstSmallest(rows, i, n)
    ensures NextSlot(rows, i) < I32_MAX ==> BestOfFirst(rows, n) == (SECTION_PRIORITY[i], NextSlot(rows, i))
    ensures NextSlot(rows, i) == I32_MAX ==> BestOfFirst(rows, n) == (SECTION_PRIORITY[0], I32_MAX)
  {
    hide NextSlot, SECTION_PRIORITY;
    if n == 1 {
      i := 0;
      assert BestOfFirst(rows, 0) == (SECTION_PRIORITY[0], I32_MAX);
    } else {
      i := ScanFindsFirstSmallest(rows, n - 1);
      if NextSlot(rows, n - 1) < NextSlot(rows, i) {
        i := n - 1;
      }
    }
  }

  /** The column type of slot numbers. */
  predicate SlotsFit(rows: Intakes) { forall id :: id in rows ==> rows[id].slot <= I32_MAX }

  predicate SeatTaken(rows: Intakes, seat: Location) { exists id :: id in rows && ActiveAt(rows[id], seat.section, seat.slot) }

  /** The suggested place is free exactly when some section of the priority list still has two
      numbers above its highest one, or the first section still has one. */
  lemma SuggestionIsFreeExactly(rows: Intakes)
    requires SlotsFit(rows)
    ensures !SeatTaken(rows, SuggestLocation(rows)) <==>
      || (exists i :: 0 <= i < |SECTION_PRIORITY| && SectionMax(rows, SECTION_PRIORITY[i]) < I32_MAX - 1)
      || SectionMax(rows, SECTION_PRIORITY[0]) < I32_MAX
  {
    var i := ScanFindsFirstSmallest(rows, |SECTION_PRIORITY|);
    hide BestOfFirst, FirstSmallest;
    var seat := SuggestLocation(rows);
    if NextSlot(rows, i) < I32_MAX {
      assert SectionMax(rows, SECTION_PRIORITY[i]) < I32_MAX - 1;
      assert seat.section == SECTION_PRIORITY[i] && seat.slot == SectionMax(rows, SECTION_PRIORITY[i]) + 1;
    } else {
      AllSectionsNearlyFull(rows, i);
      assert seat.section == SECTION_PRIORITY[0] && seat.slot == I32_MAX;
    }
  }

  lemma AllSectionsNearlyFull(rows: Intakes, i: nat)
    requires i < |SECTION_PRIORITY| && FirstSmallest(rows, i, |SECTION_PRIORITY|) && NextSlot(rows, i) >= I32_MAX
    ensures forall j :: 0 <= j < |SECTION_PRIORITY| ==> SectionMax(rows, SECTION_PRIORITY[j]) >= I32_MAX - 1
  {
    forall j | 0 <= j < |SECTION_PRIORITY|
      ensures SectionMax(rows, SECTION_PRIORITY[j]) >= I32_MAX - 1
    {
      assert NextSlot(rows, i) <= NextSlot(rows, j);
    }
  }

  // ---------------------------------------------------------------- always_new fills evenly

  /** After k placements: the first k mod 11 sections are one slot ahead of the rest. */
  predicate Level(rows: Intakes, k: nat) {
    forall i :: 0 <= i < |SECTION_PRIORITY| ==> SectionMax(rows, SECTION_PRIORITY[i]) == k / 11 + (if i < k % 11 then 1 else 0)
  }

  lemma SuggestionAtLevel(rows: Intakes, k: nat)
    requires Level(rows, k) && k / 11 + 1 < I32_MAX
    ensures BestOfFirst(rows, |SECTION_PRIORITY|) == (SECTION_PRIORITY[k % 11], k / 11 + 1)
  {
    var i := ScanFindsFirstSmallest(rows, |SECTION_PRIORITY|);
    hide BestOfFirst, SectionMax;
    var r := k % 11;
    assert NextSlot(rows, r) == k / 11 + 1;
    assert NextSlot(rows, i) <= NextSlot(rows, r);
    assert i == r;
  }

  /** All the new active rows are at one seat above the old ones of its section. */
  ghost predicate Stacks(before: Intakes, after: Intakes, section: string, slot: int) {
    && (forall id :: id in before ==> id in after && after[id] == before[id])
    && (forall id :: id in after && id !in before ==> ActiveAt(after[id], section, slot))
    && (exists id :: id in after && id !in before)
    && SectionMax(before, section) < slot && slot != 0
  }

  lemma StackRaisesOneSection(before: Intakes, after: Intakes, section: string, slot: int, s: string)
    requires Stacks(before, after, section, slot)
    ensures SectionMax(after, s) == if s == section then slot else SectionMax(before, s)
  {
    if s == section {
      var id :| id in after && id !in before;
      assert ActiveAt(after[id], section, slot);
      var m := SectionMax(after, section);
      hide SectionMax;
      assert slot <= m;
    } else {
      var keys := set id | id in after && !after[id].isRemoved && after[id].section == s :: SortKey(-after[id].slot, 0, id);
      var keys0 := set id | id in before && !before[id].isRemoved && before[id].section == s :: SortKey(-before[id].slot, 0, id);
      assert keys == keys0;
    }
  }

  lemma StackRaisesLevel(before: Intakes, after: Intakes, k: nat)
    requires Level(before, k) && Stacks(before, after, SECTION_PRIORITY[k % 11], k / 11 + 1)
    ensures Level(after, k + 1)
  {
    forall i | 0 <= i < |SECTION_PRIORITY|
      ensures SectionMax(after, SECTION_PRIORITY[i]) == (k + 1) / 11 + (if i < (k + 1) % 11 then 1 else 0)
    {
      StackRaisesOneSection(before, after, SECTION_PRIORITY[k % 11], k / 11 + 1, SECTION_PRIORITY[i]);
      assert SECTION_PRIORITY[i] == SECTION_PRIORITY[k % 11] <==> i == k % 11;
    }
  }

  lemma PurgeKeepsSectionMax(rows: Intakes, now: int, section: string)
    ensures SectionMax(PurgeExpired(rows, now), section) == SectionMax(rows, section)
  {
    var kept := PurgeExpired(rows, now);
    var keys := set id | id in rows && !rows[id].isRemoved && rows[id].section == section :: SortKey(-rows[id].slot, 0, id);
    var keys' := set id | id in kept && !kept[id].isRemoved && kept[id].section == section :: SortKey(-kept[id].slot, 0, id);
    assert forall id :: id in rows && !rows[id].isRemoved ==> id in kept && kept[id] == rows[id];
    assert keys == keys';
  }

  /** A successful always_new creation. */
  predicate PlacesAlwaysNew(st: Store, c: Command) {
    c.Create? && Created(st, c.req, c.env).1.Ok? && Normalized(c.req).Ok? && Normalized(c.req).value.strategy.AlwaysNew?
  }

  lemma AlwaysNewCommits(st: Store, d: Draft, env: Env, k: nat)
    requires Level(st.intakes, k) && k / 11 + 1 < I32_MAX
    requires 1 <= d.form.boxTotal <= 20 && d.form.strategy.AlwaysNew? && Committed(st, d, env).Ok?
    ensures Stacks(st.intakes, Committed(st, d, env).value.intakes, SECTION_PRIORITY[k % 11], k / 11 + 1)
    ensures env.ids[1] in Committed(st, d, env).value.intakes
    ensures ActiveAt(Committed(st, d, env).value.intakes[env.ids[1]], SECTION_PRIORITY[k % 11], k / 11 + 1)
  {
    SuggestionAtLevel(st.intakes, k);
    var p := Place(st, d).value;
    assert p.seat == SuggestLocation(st.intakes);
    var after := InsertBoxes(st.intakes, d, p, env, 1).value;
    InsertedBoxes(st.intakes, d, p, env, 1);
    forall id | id in after && id !in st.intakes
      ensures ActiveAt(after[id], SECTION_PRIORITY[k % 11], k / 11 + 1)
    {
      OldOrNew(st.intakes, after, d, p, env, id);
    }
    assert env.ids[1] in after && env.ids[1] !in st.intakes;
    assert SectionMax(st.intakes, SECTION_PRIORITY[k % 11]) == k / 11;
  }

  /** The k-th placement (from 0) lands in section k mod 11 of the priority list, slot k div 11 + 1. */
  lemma NextLanding(st: Store, c: Command, k: nat)
    requires Level(st.intakes, k) && k / 11 + 1 < I32_MAX && PlacesAlwaysNew(st, c)
    ensures Level(Step(st, c).intakes, k + 1)
    ensures c.env.ids[1] in Step(st, c).intakes
    ensures ActiveAt(Step(st, c).intakes[c.env.ids[1]], SECTION_PRIORITY[k % 11], k / 11 + 1)
  {
    var st0 := Purged(st, c.env.now);
    var d := Prepare(st0.intakes, c.req).value;
    assert d.form.strategy.AlwaysNew?;
    assert Step(st, c) == Committed(st0, d, c.env).value;
    hide Committed, Created, Prepare, Normalized, Step, SectionMax;
    forall i | 0 <= i < |SECTION_PRIORITY|
      ensures SectionMax(st0.intakes, SECTION_PRIORITY[i]) == SectionMax(st.intakes, SECTION_PRIORITY[i])
    {
      PurgeKeepsSectionMax(st.intakes, c.env.now, SECTION_PRIORITY[i]);
    }
    AlwaysNewCommits(st0, d, c.env, k);
    StackRaisesLevel(st0.intakes, Step(st, c).intakes, k);
  }

  ghost predicate AllPlaceAlwaysNew(st: Store, cs: seq<Command>)
    decreases |cs|
  {
    cs != [] ==> PlacesAlwaysNew(st, cs[0]) && AllPlaceAlwaysNew(Step(st, cs[0]), cs[1..])
  }

  lemma {:induction false} AlwaysNewRunsStayLevel(st: Store, cs: seq<Command>, k: nat)
    requires Level(st.intakes, k) && AllPlaceAlwaysNew(st, cs) && (k + |cs|) / 11 + 1 < I32_MAX
    ensures Level(Run(st, cs).intakes, k + |cs|)
    decreases |cs|
  {
    hide Level, PlacesAlwaysNew, Step;
    if cs != [] {
      NextLanding(st, cs[0], k);
      AlwaysNewRunsStayLevel(Step(st, cs[0]), cs[1..], k + 1);
    }
  }

  lemma EmptyIsLevel()
    ensures Level(EMPTY.intakes, 0)
  {
  }

  /** No two section heights ever differ by more than one. */
  lemma HeightsStayEven(cs: seq<Command>)
    requires AllPlaceAlwaysNew(EMPTY, cs) && |cs| / 11 + 1 < I32_MAX
    ensures Level(Run(EMPTY, cs).intakes, |cs|)
    ensures forall i, j :: 0 <= i < |SECTION_PRIORITY| && 0 <= j < |SECTION_PRIORITY| ==>
      SectionMax(Run(EMPTY, cs).intakes, SECTION_PRIORITY[i]) <= SectionMax(Run(EMPTY, cs).intakes, SECTION_PRIORITY[j]) + 1
  {
    hide PlacesAlwaysNew, Run, Step, SectionMax, AllPlaceAlwaysNew;
    EmptyIsLevel();
    AlwaysNewRunsStayLevel(EMPTY, cs, 0);
  }

  /** From the empty warehouse, the creation that follows n successful ones lands round-robin. */
  lemma RoundRobin(cs: seq<Command>, c: Command)
    requires AllPlaceAlwaysNew(EMPTY, cs) && PlacesAlwaysNew(Run(EMPTY, cs), c) && |cs| / 11 + 1 < I32_MAX
    ensures c.env.ids[1] in Step(Run(EMPTY, cs), c).intakes
    ensures ActiveAt(Step(Run(EMPTY, cs), c).intakes[c.env.ids[1]], SECTION_PRIORITY[|cs| % 11], |cs| / 11 + 1)
  {
    hide PlacesAlwaysNew, Run, Step, Level, AllPlaceAlwaysNew;
    HeightsStayEven(cs);
    NextLanding(Run(EMPTY, cs), c, |cs|);
  }
}
