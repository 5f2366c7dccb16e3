/** Two QR codes of one order make the pool leak: the unit that goes first takes the other
    unit's boxes with it, and only its own slot is released. */
module PoolLeakWitness {
  import opened Wrappers
  import opened Text
  import opened IntakeText
  import opened IntakeStore
  import opened PoolSafety
  import opened PoolLeaks

  /** A one-box pool intake without a product key. */
  predicate PlainPoolForm(f: Form, section: string, kid: string) {
    f.strategy.PoolAuto? && f.section == Some(section) && f.kidNumber == kid && f.productKey.None? && f.boxTotal == 1
  }

  predicate NoneRemoved(rows: Intakes) { forall id :: id in rows ==> !rows[id].isRemoved }

  /** The store holds exactly the units 1..n of one index, each at the slot of its number. */
  ghost predicate Units(st: Store, section: string, kid: string, index: string, qrs: seq<string>, ids: seq<nat>)
    requires |qrs| == |ids|
  {
    && NoneRemoved(st.intakes)
    && (forall id :: id in st.intakes <==> id in ids)
    && (forall i :: 0 <= i < |ids| ==> Unit(st.intakes[ids[i]], section, i + 1, kid, index, qrs[i]))
    && (forall s, key :: s in st.pools && key in st.pools[s] ==> s == section && exists i :: 1 <= i <= |ids| && key == SlotKey(i))
    && (ids != [] ==> section in st.pools)
    && (forall i :: 1 <= i <= |ids| ==> SlotKey(i) in st.pools[section])
  }

  predicate Unit(row: Intake, section: string, slot: int, kid: string, index: string, qr: string) {
    !row.isRemoved && row.section == section && row.slot == slot && row.internalIndex == Some(index) &&
    row.qrCode == qr && row.kidNumber == kid
  }

  /** With units at the first n slots, the next reservation takes slot n + 1. */
  lemma NextReservation(st: Store, section: string, kid: string, index: string, qrs: seq<string>, ids: seq<nat>)
    requires |qrs| == |ids| < POOL_SIZE && Units(st, section, kid, index, qrs, ids)
    ensures Reserve(st.pools, section, index).Some? && Reserve(st.pools, section, index).value.0 == |ids| + 1
  {
    var n := |ids| + 1;
    hide Reserve;
    if SlotKey(n) in UsedKeys(st.pools) {
      var i :| 1 <= i <= |ids| && SlotKey(n) == SlotKey(i);
      SignedTextInjective(n, i);
      assert false;
    }
    ReserveFailsOnlyWhenFull(st.pools, section, index);
    ReserveTakesLowestFree(st.pools, section, index);
  }

  lemma PurgeIsIdle(rows: Intakes, now: int)
    requires NoneRemoved(rows)
    ensures PurgeExpired(rows, now) == rows
  {
  }

  lemma FreshSeries(rows: Intakes, f: Form)
    requires f.productKey.None? && forall id :: id in rows ==> rows[id].qrCode != f.qrCode
    ensures DraftOf(rows, f) == Draft(f, 1, InternalIndex(1, f.kidNumber, f.qrCode))
  {
    hide InternalIndex;
    assert NextUnitIndex(rows, f.productKey, f.qrCode, f.kidNumber) == 1;
  }

  /** Creating one more unit of the same index adds it at the next slot. */
  lemma OneMoreUnit(st: Store, req: CreateRequest, env: Env, f: Form, section: string, index: string, qrs: seq<string>, ids: seq<nat>)
    requires |qrs| == |ids| <= 1 && Units(st, section, f.kidNumber, index, qrs, ids)
    requires f.qrCode !in qrs && env.ids[1] !in ids && env.fault.NoFault?
    requires Normalized(req) == Ok(f) && PlainPoolForm(f, section, f.kidNumber)
    requires index == InternalIndex(1, f.kidNumber, f.qrCode)
    ensures Units(Step(st, Create(req, env)), section, f.kidNumber, index, qrs + [f.qrCode], ids + [env.ids[1]])
  {
    hide Normalized, InternalIndex, PurgeExpired, Committed, DraftOf, Units;
    NewSeries(st, f, section, index, qrs, ids);
    PurgeIdleUnits(st, section, f.kidNumber, index, qrs, ids, env.now);
    OneMoreUnitCommitted(st, Draft(f, 1, index), env, section, qrs, ids);
  }

  lemma PurgeIdleUnits(st: Store, section: string, kid: string, index: string, qrs: seq<string>, ids: seq<nat>, now: int)
    requires |qrs| == |ids| && Units(st, section, kid, index, qrs, ids)
    ensures Purged(st, now) == st
  {
    PurgeIsIdle(st.intakes, now);
  }

  lemma NewSeries(st: Store, f: Form, section: string, index: string, qrs: seq<string>, ids: seq<nat>)
    requires |qrs| == |ids| && Units(st, section, f.kidNumber, index, qrs, ids) && f.qrCode !in qrs && f.productKey.None?
    requires index == InternalIndex(1, f.kidNumber, f.qrCode)
    ensures forall id :: id in st.intakes ==> st.intakes[id].qrCode != f.qrCode
    ensures DraftOf(st.intakes, f) == Draft(f, 1, index)
  {
    hide InternalIndex;
    forall id | id in st.intakes
      ensures st.intakes[id].qrCode != f.qrCode
    {
      var i :| 0 <= i < |ids| && id == ids[i];
    }
    FreshSeries(st.intakes, f);
  }

  lemma OneMoreUnitCommitted(st: Store, d: Draft, env: Env, section: string, qrs: seq<string>, ids: seq<nat>)
    requires |qrs| == |ids| <= 1 && Units(st, section, d.form.kidNumber, d.internalIndex, qrs, ids)
    requires env.ids[1] !in ids && env.fault.NoFault? && PlainPoolForm(d.form, section, d.form.kidNumber)
    requires forall id :: id in st.intakes ==> st.intakes[id].qrCode != d.form.qrCode
    ensures Committed(st, d, env).Ok?
    ensures Units(Committed(st, d, env).value, section, d.form.kidNumber, d.internalIndex, qrs + [d.form.qrCode], ids + [env.ids[1]])
  {
    NextReservation(st, section, d.form.kidNumber, d.internalIndex, qrs, ids);
    ReserveTakesLowestFree(st.pools, section, d.internalIndex);
    assert env.ids[1] !in st.intakes;
    hide Reserve, Units, InsertBoxes;
    var p := PoolPlacement(st, section, |ids| + 1, Reserve(st.pools, section, d.internalIndex).value.1);
    assert Place(st, d) == Ok(p);
    hide Place;
    OneBox(st.intakes, d, p, env);
    var box := Box(d, p, env, 1);
    assert Committed(st, d, env) == Ok(Store(st.intakes[env.ids[1] := box], p.pools, st.reservations + 1));
    hide Committed;
    UnitsGrow(st, box, p.pools, section, d.form.kidNumber, d.internalIndex, qrs, ids, d.form.qrCode, env.ids[1]);
  }

  function PoolPlacement(st: Store, section: string, slot: int, pools: Pools): Placement {
    Placement(Location(section, slot, ComposeLocation(slot, section)), pools, st.reservations + 1, Pooled(st.reservations))
  }

  /** A one-box insert. */
  lemma OneBox(rows: Intakes, d: Draft, p: Placement, env: Env)
    requires d.form.boxTotal == 1 && env.fault.NoFault? && env.ids[1] !in rows
    requires forall id :: id in rows ==> rows[id].qrCode != d.form.qrCode
    ensures InsertBoxes(rows, d, p, env, 1) == Ok(rows[env.ids[1] := Box(d, p, env, 1)])
  {
    var next := rows[env.ids[1] := Box(d, p, env, 1)];
    assert InsertBoxes(next, d, p, env, 2) == Ok(next);
  }

  lemma UnitsGrow(st: Store, box: Intake, pools: Pools, section: string, kid: string, index: string,
                  qrs: seq<string>, ids: seq<nat>, qr: string, id: nat)
    requires |qrs| == |ids| && Units(st, section, kid, index, qrs, ids) && id !in ids
    requires Unit(box, section, |ids| + 1, kid, index, qr)
    requires var rows := EnsureSection(st.pools, section);
             pools == rows[section := rows[section][SlotKey(|ids| + 1) := PoolEntry(section, index)]]
    ensures Units(Store(st.intakes[id := box], pools, st.reservations + 1), section, kid, index, qrs + [qr], ids + [id])
  {
    var ids' := ids + [id];
    var st' := Store(st.intakes[id := box], pools, st.reservations + 1);
    forall s, key | s in pools && key in pools[s]
      ensures s == section && exists i :: 1 <= i <= |ids'| && key == SlotKey(i)
    {
      if key != SlotKey(|ids'|) {
        assert s in st.pools && key in st.pools[s];
      }
    }
  }

  /** Deleting at slot 1 takes a group that holds every unit, and releases slot 1 at most. */
  lemma DeletionTakesEveryUnit(st: Store, section: string, kid: string, index: string, qrs: seq<string>, ids: seq<nat>, now: int)
    returns (group: set<nat>)
    requires |qrs| == |ids| >= 2 && Units(st, section, kid, index, qrs, ids)
    requires NormalizeSection(section) == Ok(section) && Trimmed(Rust, index) && index != ""
    ensures group == st.intakes.Keys
    ensures Step(st, DeleteOldest(section, 1, now))
      == ReleaseIfUnused(st.(intakes := MarkRemoved(st.intakes, group, now)), section, 1)
  {
    var seed := SeedIsAUnit(st, section, kid, index, qrs, ids);
    EveryUnitIsInTheGroup(st, section, kid, index, qrs, ids, seed);
    group := GroupRows(st.intakes, GroupOf(st.intakes[seed]));
    hide *;
    assert ids[0] in group;
    DeletionByGroup(st, section, seed, now);
  }

  lemma DeletionByGroup(st: Store, section: string, seed: nat, now: int)
    requires NormalizeSection(section) == Ok(section) && OldestAt(st.intakes, section, 1) == Some(seed) && seed in st.intakes
    requires GroupRows(st.intakes, GroupOf(st.intakes[seed])) != {}
    ensures var group := GroupRows(st.intakes, GroupOf(st.intakes[seed]));
            Step(st, DeleteOldest(section, 1, now))
              == ReleaseIfUnused(st.(intakes := MarkRemoved(st.intakes, group, now)), section, 1)
  {
    hide OldestAt, ActiveRowsAt, GroupRows, GroupOf, ReleaseIfUnused, NormalizeSection, MarkRemoved;
  }

  lemma SeedIsAUnit(st: Store, section: string, kid: string, index: string, qrs: seq<string>, ids: seq<nat>)
    returns (seed: nat)
    requires |qrs| == |ids| >= 2 && Units(st, section, kid, index, qrs, ids)
    ensures OldestAt(st.intakes, section, 1) == Some(seed) && seed in st.intakes && seed in ids && ids[0] in st.intakes
  {
    assert ids[0] in st.intakes && ids[0] in ActiveRowsAt(st.intakes, section, 1);
    hide OldestAt;
    seed := OldestAt(st.intakes, section, 1).value;
  }

  lemma EveryUnitIsInTheGroup(st: Store, section: string, kid: string, index: string, qrs: seq<string>, ids: seq<nat>, seed: nat)
    requires |qrs| == |ids| && Units(st, section, kid, index, qrs, ids) && seed in ids && seed in st.intakes
    requires Trimmed(Rust, index) && index != ""
    ensures GroupRows(st.intakes, GroupOf(st.intakes[seed])) == st.intakes.Keys
  {
    hide Trimmed;
    var i :| 0 <= i < |ids| && seed == ids[i];
    forall id | id in st.intakes
      ensures InGroup(st.intakes[id], GroupOf(st.intakes[seed]))
    {
      var j :| 0 <= j < |ids| && id == ids[j];
    }
  }

  lemma OtherKeysDiffer()
    ensures SlotKey(2) != SlotKey(1)
  {
    if SlotKey(2) == SlotKey(1) {
      SignedTextInjective(2, 1);
    }
  }

  /** Deleting at slot 1 removes every unit of the index, but releases slot 1 only. */
  lemma DeletionLeaks(st: Store, section: string, kid: string, index: string, qrs: seq<string>, ids: seq<nat>, now: int)
    requires |qrs| == |ids| >= 2 && Units(st, section, kid, index, qrs, ids)
    requires NormalizeSection(section) == Ok(section) && Trimmed(Rust, index) && index != ""
    ensures !NoLeak(Step(st, DeleteOldest(section, 1, now)))
  {
    var group := DeletionTakesEveryUnit(st, section, kid, index, qrs, ids, now);
    assert section in st.pools && SlotKey(2) in st.pools[section];
    OtherKeysDiffer();
    hide Units, Step, NormalizeSection, Trimmed, SlotKey;
    RemovalLeaksExactly(st, section, 1, group, now);
  }

  lemma SameOrderSameIndex(unit: int, kid: string, qr1: string, qr2: string)
    requires ExtractOrderId(qr1) == ExtractOrderId(qr2)
    ensures InternalIndex(unit, kid, qr1) == InternalIndex(unit, kid, qr2)
  {
    hide CompactKid, ExtractOrderId, SignedText;
  }

  lemma BothUnits(section: string, index: string, r1: CreateRequest, e1: Env, f1: Form, r2: CreateRequest, e2: Env, f2: Form)
    requires Normalized(r1) == Ok(f1) && Normalized(r2) == Ok(f2)
    requires PlainPoolForm(f1, section, f1.kidNumber) && PlainPoolForm(f2, section, f2.kidNumber)
    requires f1.qrCode != f2.qrCode && f1.kidNumber == f2.kidNumber
    requires index == InternalIndex(1, f1.kidNumber, f1.qrCode) == InternalIndex(1, f2.kidNumber, f2.qrCode)
    requires e1.fault.NoFault? && e2.fault.NoFault? && e1.ids[1] != e2.ids[1]
    ensures Units(Step(Step(EMPTY, Create(r1, e1)), Create(r2, e2)), section, f1.kidNumber, index,
                  [f1.qrCode] + [f2.qrCode], [e1.ids[1]] + [e2.ids[1]])
  {
    hide *;
    NoUnits(section, f1.kidNumber, index);
    OneMoreUnit(EMPTY, r1, e1, f1, section, index, [], []);
    assert [] + [f1.qrCode] == [f1.qrCode] && [] + [e1.ids[1]] == [e1.ids[1]];
    OneMoreUnit(Step(EMPTY, Create(r1, e1)), r2, e2, f2, section, index, [f1.qrCode], [e1.ids[1]]);
  }

  /** The leak, from the empty database: two creations and one deletion leave slot 2 mapped
      and empty, whenever two different QR codes carry the same order id. */
  lemma TwoCodesOfOneOrderLeak(section: string, r1: CreateRequest, e1: Env, f1: Form, r2: CreateRequest, e2: Env, f2: Form, now: int)
    requires NormalizeSection(section) == Ok(section)
    requires Normalized(r1) == Ok(f1) && Normalized(r2) == Ok(f2)
    requires PlainPoolForm(f1, section, f1.kidNumber) && PlainPoolForm(f2, section, f1.kidNumber)
    requires f1.qrCode != f2.qrCode && ExtractOrderId(f1.qrCode) == ExtractOrderId(f2.qrCode)
    requires e1.fault.NoFault? && e2.fault.NoFault? && e1.ids[1] != e2.ids[1]
    ensures !NoLeak(Run(EMPTY, [Create(r1, e1), Create(r2, e2), DeleteOldest(section, 1, now)]))
  {
    assert f2.kidNumber == f1.kidNumber;
    hide *;
    var index := InternalIndex(1, f1.kidNumber, f1.qrCode);
    SameOrderSameIndex(1, f1.kidNumber, f1.qrCode, f2.qrCode);
    BothUnits(section, index, r1, e1, f1, r2, e2, f2);
    var a, b := Create(r1, e1), Create(r2, e2);
    DeletionLeaks(Step(Step(EMPTY, a), b), section, f1.kidNumber, index, [f1.qrCode] + [f2.qrCode], [e1.ids[1]] + [e2.ids[1]], now);
    RunThree(EMPTY, a, b, DeleteOldest(section, 1, now));
  }

  lemma NoUnits(section: string, kid: string, index: string)
    ensures Units(EMPTY, section, kid, index, [], [])
  {
  }

  lemma RunThree(st: Store, a: Command, b: Command, c: Command)
    ensures Run(st, [a, b, c]) == Step(Step(Step(st, a), b), c)
  {
    hide Step;
    assert [a, b, c][1..] == [b, c] && [b, c][1..] == [c];
    assert Run(Step(Step(st, a), b), [c]) == Run(Step(Step(Step(st, a), b), c), []);
  }

  // ---------------------------------------------------------------- one concrete run

  function PlainRequest(qr: string): CreateRequest {
    CreateRequest(qr, "K", None, None, None, Some("pool_auto"), Some("D"), None)
  }

  function PlainForm(qr: string): Form { Form(qr, "K", None, false, 1, PoolAuto, Some("D"), None) }

  lemma PlainFormIsPlain(qr: string)
    ensures PlainPoolForm(PlainForm(qr), "D", "K") && PlainForm(qr).kidNumber == "K" && PlainForm(qr).qrCode == qr
  {
  }

  lemma PoolAutoText()
    ensures NormalizeStrategy(Some("pool_auto")) == PoolAuto
  {
    var s := "pool_auto";
    assert !IsSpace(Rust, 'p') && !IsSpace(Rust, 'o');
    hide IsSpace, TrimStart, TrimEnd;
    assert s[0] == 'p' && s[|s| - 1] == 'o';
    assert Trim(Rust, s) == s;
    hide Trim, Trimmed;
    assert ToLower(s) == s;
  }

  lemma SectionText()
    ensures NormalizeSection("D") == Ok("D")
  {
    assert Trimmed(Rust, "D") && ToUpper("D") == "D" && "D" in SECTIONS;
    hide Trimmed, TrimStart, TrimEnd, IsSpace, ToUpper;
  }

  lemma KidText()
    ensures NormalizeKidNumber("K") == Ok("K")
  {
    assert Trimmed(Rust, "K") && ToUpper("K") == "K";
    hide Trimmed, TrimStart, TrimEnd, IsSpace, ToUpper;
  }

  lemma PlainRequestNormal(qr: string)
    requires NormalizeQrCode(qr) == Ok(qr)
    ensures Normalized(PlainRequest(qr)) == Ok(PlainForm(qr))
  {
    PoolAutoText();
    SectionText();
    KidText();
    hide NormalizeQrCode, NormalizeStrategy, NormalizeSection, NormalizeKidNumber;
  }

  lemma CodesOfOrderA()
    ensures ExtractOrderId("A") == Some("A") && ExtractOrderId("A|") == Some("A")
  {
    SplitWhole("A", '|');
    SplitFirst("A", '|', "");
    assert "A" + ['|'] + "" == "A|";
    hide Split;
  }

  lemma CodesAreNormal()
    ensures NormalizeQrCode("A") == Ok("A") && NormalizeQrCode("A|") == Ok("A|")
  {
    assert Trimmed(Rust, "A") && Trimmed(Rust, "A|");
  }

  lemma LeakingRun(e1: Env, e2: Env, now: int)
    requires e1.fault.NoFault? && e2.fault.NoFault? && e1.ids[1] != e2.ids[1]
    ensures !NoLeak(Run(EMPTY, [Create(PlainRequest("A"), e1), Create(PlainRequest("A|"), e2), DeleteOldest("D", 1, now)]))
  {
    hide *;
    CodesAreNormal();
    CodesOfOrderA();
    SectionText();
    PlainRequestNormal("A");
    PlainRequestNormal("A|");
    PlainFormIsPlain("A");
    PlainFormIsPlain("A|");
    TwoCodesOfOneOrderLeak("D", PlainRequest("A"), e1, PlainForm("A"), PlainRequest("A|"), e2, PlainForm("A|"), now);
  }
}
