/** Creating units of one series one after the other: all of them succeed and count up. */
module UnitRuns {
  import opened Wrappers
  import opened Text
  import opened IntakeText
  import opened IntakeStore
  import opened PoolSafety
  import opened UnitNumbers

  datatype Job = Job(req: CreateRequest, form: Form, env: Env)

  predicate SameSeries(f: Form, g: Form) {
    if f.productKey.Some? then g.productKey == f.productKey
    else g.productKey.None? && g.qrCode == f.qrCode && g.kidNumber == f.kidNumber
  }

  /** The strategy has what it needs: a section for the pool, a readable place for manual placing. */
  predicate Placeable(f: Form) {
    && (f.strategy.PoolAuto? ==> f.section.Some?)
    && (f.strategy.Manual? ==> f.manual.Some? && ParsedLocation(f.manual.value).Ok?)
  }

  /** A well-formed request for one more unit of the series, with no fault of the database. */
  ghost predicate Sound(job: Job, series: Form) {
    && Normalized(job.req) == Ok(job.form)
    && SameSeries(series, job.form) && Placeable(job.form) && job.env.fault.NoFault?
  }

  /** No row id is given twice, within one creation or across several. */
  ghost predicate FreshIds(jobs: seq<Job>) {
    forall i, j, k, l :: (BoxOfJob(jobs, i, k) && BoxOfJob(jobs, j, l) && jobs[i].env.ids[k] == jobs[j].env.ids[l]) ==> i == j && k == l
  }

  predicate BoxOfJob(jobs: seq<Job>, i: int, k: int) { 0 <= i < |jobs| && 1 <= k <= jobs[i].form.boxTotal && k <= 20 }

  function Creations(jobs: seq<Job>): seq<Command> {
    if jobs == [] then []
    else Creations(jobs[..|jobs| - 1]) + [Create(jobs[|jobs| - 1].req, jobs[|jobs| - 1].env)]
  }

  /** Box k of the i-th job stands in the table with unit i + 1. */
  predicate Stands(rows: Intakes, jobs: seq<Job>, i: int, k: int)
    requires BoxOfJob(jobs, i, k)
  {
    var id := jobs[i].env.ids[k];
    && id in rows && !rows[id].isRemoved && rows[id].unitIndex == i + 1 && rows[id].boxIndex == k
    && rows[id].productKey == jobs[i].form.productKey
    && rows[id].qrCode == jobs[i].form.qrCode && rows[id].kidNumber == jobs[i].form.kidNumber
    && rows[id].internalIndex == Some(InternalIndex(i + 1, jobs[i].form.kidNumber, jobs[i].form.qrCode))
  }

  ghost predicate HasBox(rows: Intakes, jobs: seq<Job>, id: nat) {
    exists i, k :: BoxOfJob(jobs, i, k) && id == jobs[i].env.ids[k]
  }

  /** The table holds exactly the boxes of these jobs. */
  ghost predicate Holds(rows: Intakes, jobs: seq<Job>) {
    && (forall i, k :: BoxOfJob(jobs, i, k) ==> Stands(rows, jobs, i, k))
    && (forall id :: id in rows ==> HasBox(rows, jobs, id))
  }

  ghost predicate Reached(st: Store, jobs: seq<Job>) { Holds(st.intakes, jobs) && |UsedKeys(st.pools)| <= |jobs| }

  // ---------------------------------------------------------------- one more unit

  lemma UnitComesNext(rows: Intakes, jobs: seq<Job>, f: Form)
    requires Holds(rows, jobs) && |jobs| < I32_MAX
    requires forall i :: 0 <= i < |jobs| ==> SameSeries(jobs[i].form, f) && jobs[i].form.boxTotal >= 1
    ensures NextUnitIndex(rows, f.productKey, f.qrCode, f.kidNumber) == |jobs| + 1
  {
    hide InternalIndex;
    var row := Intake(0, f.qrCode, f.kidNumber, f.productKey, false, "", 0, "", 1, 1,
                      NextUnitIndex(rows, f.productKey, f.qrCode, f.kidNumber), None, 0, false, None, Unpooled);
    NextUnitFollows(rows, row);
    hide NextUnitIndex;
    forall id | id in rows
      ensures rows[id].unitIndex <= |jobs|
    {
      assert HasBox(rows, jobs, id);
    }
    if jobs != [] {
      assert BoxOfJob(jobs, |jobs| - 1, 1);
      assert Stands(rows, jobs, |jobs| - 1, 1);
      assert ActiveInSeries(rows, jobs[|jobs| - 1].env.ids[1], row);
    }
  }

  /** Boxes of a unit number that no row has are inserted without a clash. */
  lemma {:induction false} NewUnitIsInserted(rows: Intakes, d: Draft, p: Placement, env: Env, k: int)
    requires 1 <= k && d.form.boxTotal <= 20 && env.fault.NoFault?
    requires forall id :: id in rows ==> rows[id].unitIndex < d.unitIndex || (rows[id].unitIndex == d.unitIndex && rows[id].boxIndex < k)
    requires forall j :: k <= j <= d.form.boxTotal ==> env.ids[j] !in rows
    requires forall i, j :: k <= i < j <= d.form.boxTotal ==> env.ids[i] != env.ids[j]
    ensures InsertBoxes(rows, d, p, env, k).Ok?
    decreases d.form.boxTotal - k
  {
    if k <= d.form.boxTotal {
      NewUnitIsInserted(rows[env.ids[k] := Box(d, p, env, k)], d, p, env, k + 1);
    }
  }

  /** With fewer mappings than numbers every placeable unit finds a place. */
  lemma PlaceIsFound(st: Store, d: Draft)
    requires Placeable(d.form) && (d.form.strategy.PoolAuto? ==> |UsedKeys(st.pools)| < POOL_SIZE)
    ensures Place(st, d).Ok? && |UsedKeys(Place(st, d).value.pools)| <= |UsedKeys(st.pools)| + 1
  {
    hide ExistingSeat, SuggestLocation, ParsedLocation;
    if d.form.strategy.PoolAuto? {
      ReserveFailsOnlyWhenFull(st.pools, d.form.section.value, d.internalIndex);
      ReserveTakesLowestFree(st.pools, d.form.section.value, d.internalIndex);
      ReservedKeys(st.pools, d.form.section.value, d.internalIndex);
    }
  }

  lemma ReservedKeys(pools: Pools, section: string, index: string)
    requires Reserve(pools, section, index).Some?
    ensures |UsedKeys(Reserve(pools, section, index).value.1)| <= |UsedKeys(pools)| + 1
  {
    ReserveTakesLowestFree(pools, section, index);
    var (slot, after) := Reserve(pools, section, index).value;
    hide Reserve;
    assert UsedKeys(after) <= UsedKeys(pools) + {SlotKey(slot)};
    SubsetIsNoLarger(UsedKeys(after), UsedKeys(pools) + {SlotKey(slot)});
  }

  lemma NothingToPurge(rows: Intakes, jobs: seq<Job>, now: int)
    requires Holds(rows, jobs)
    ensures PurgeExpired(rows, now) == rows
  {
    forall id | id in rows
      ensures !rows[id].isRemoved
    {
      assert HasBox(rows, jobs, id);
      var i, k :| BoxOfJob(jobs, i, k) && id == jobs[i].env.ids[k];
      assert Stands(rows, jobs, i, k);
    }
  }

  lemma EarlierBoxes(jobs: seq<Job>, job: Job, i: int, k: int)
    requires BoxOfJob(jobs, i, k)
    ensures BoxOfJob(jobs + [job], i, k) && (jobs + [job])[i] == jobs[i]
  {
  }

  lemma IdsAreFree(rows: Intakes, jobs: seq<Job>, job: Job)
    requires Holds(rows, jobs) && FreshIds(jobs + [job]) && 1 <= job.form.boxTotal <= 20
    ensures forall k :: 1 <= k <= job.form.boxTotal ==> job.env.ids[k] !in rows
    ensures forall k, l :: 1 <= k < l <= job.form.boxTotal ==> job.env.ids[k] != job.env.ids[l]
  {
    var all := jobs + [job];
    assert all[|jobs|] == job;
    forall k, l | 1 <= k < l <= job.form.boxTotal
      ensures job.env.ids[k] != job.env.ids[l]
    {
      assert BoxOfJob(all, |jobs|, k) && BoxOfJob(all, |jobs|, l);
    }
    forall k | 1 <= k <= job.form.boxTotal
      ensures job.env.ids[k] !in rows
    {
      if job.env.ids[k] in rows {
        assert HasBox(rows, jobs, job.env.ids[k]);
        var i, l :| BoxOfJob(jobs, i, l) && job.env.ids[k] == jobs[i].env.ids[l];
        EarlierBoxes(jobs, job, i, l);
        assert BoxOfJob(all, |jobs|, k);
      }
    }
  }

  lemma UnitsAreLower(rows: Intakes, jobs: seq<Job>)
    requires Holds(rows, jobs)
    ensures forall id :: id in rows ==> rows[id].unitIndex <= |jobs|
  {
    forall id | id in rows
      ensures rows[id].unitIndex <= |jobs|
    {
      assert HasBox(rows, jobs, id);
    }
  }

  /** The next unit's boxes clash with nothing. */
  lemma NextJobIsInserted(rows: Intakes, jobs: seq<Job>, job: Job, d: Draft, p: Placement)
    requires Holds(rows, jobs) && FreshIds(jobs + [job]) && job.env.fault.NoFault?
    requires 1 <= d.form.boxTotal <= 20 && d.form == job.form && d.unitIndex == |jobs| + 1
    requires d.internalIndex == InternalIndex(|jobs| + 1, job.form.kidNumber, job.form.qrCode)
    ensures InsertBoxes(rows, d, p, job.env, 1).Ok?
    ensures Holds(InsertBoxes(rows, d, p, job.env, 1).value, jobs + [job])
  {
    hide InternalIndex;
    IdsAreFree(rows, jobs, job);
    UnitsAreLower(rows, jobs);
    hide Holds, FreshIds, InsertBoxes, Box, Extends;
    NewUnitIsInserted(rows, d, p, job.env, 1);
    InsertedBoxes(rows, d, p, job.env, 1);
    EachBoxIsThere(rows, d, p, job.env, 1);
    HoldsOneMore(rows, InsertBoxes(rows, d, p, job.env, 1).value, jobs, job, d, p);
  }

  lemma HoldsOneMore(rows: Intakes, after: Intakes, jobs: seq<Job>, job: Job, d: Draft, p: Placement)
    requires Holds(rows, jobs) && 1 <= d.form.boxTotal <= 20 && d.form == job.form && d.unitIndex == |jobs| + 1
    requires d.internalIndex == InternalIndex(|jobs| + 1, job.form.kidNumber, job.form.qrCode)
    requires Extends(rows, after, d, p, job.env, 1)
    requires forall j :: 1 <= j <= d.form.boxTotal ==> job.env.ids[j] in after && after[job.env.ids[j]] == Box(d, p, job.env, j)
    ensures Holds(after, jobs + [job])
  {
    hide InternalIndex;
    var all := jobs + [job];
    forall i, k | BoxOfJob(all, i, k)
      ensures Stands(after, all, i, k)
    {
      if i < |jobs| {
        assert BoxOfJob(jobs, i, k) && Stands(rows, jobs, i, k);
      }
    }
    forall id | id in after
      ensures HasBox(after, all, id)
    {
      if id in rows {
        assert HasBox(rows, jobs, id);
        var i, k :| BoxOfJob(jobs, i, k) && id == jobs[i].env.ids[k];
        EarlierBoxes(jobs, job, i, k);
      } else {
        assert NewBox(after[id], id, d, p, job.env, 1);
        var k :| 1 <= k <= d.form.boxTotal && id == job.env.ids[k];
        assert BoxOfJob(all, |jobs|, k);
      }
    }
  }

  lemma CreatedFrom(st: Store, req: CreateRequest, form: Form, env: Env, d: Draft)
    requires Purged(st, env.now) == st && Normalized(req) == Ok(form) && d == DraftOf(st.intakes, form)
    requires Place(st, d).Ok? && 1 <= d.form.boxTotal <= 20 && env.fault.NoFault?
    requires InsertBoxes(st.intakes, d, Place(st, d).value, env, 1).Ok?
    ensures var p := Place(st, d).value;
            Created(st, req, env) == (Store(InsertBoxes(st.intakes, d, p, env, 1).value, p.pools, p.reservations), Ok(env.ids[1]))
  {
    hide Purged, Normalized, DraftOf, Place, InsertBoxes;
  }

  /** What the next job starts from. */
  lemma NextDraft(st: Store, jobs: seq<Job>, job: Job, series: Form)
    requires Holds(st.intakes, jobs) && |jobs| < I32_MAX && Sound(job, series)
    requires forall i :: 0 <= i < |jobs| ==> Sound(jobs[i], series)
    ensures var d := DraftOf(st.intakes, job.form);
            && Purged(st, job.env.now) == st
            && d.form == job.form && 1 <= job.form.boxTotal <= 20 && d.unitIndex == |jobs| + 1
            && d.internalIndex == InternalIndex(|jobs| + 1, job.form.kidNumber, job.form.qrCode)
  {
    assert Purged(st, job.env.now) == st.(intakes := PurgeExpired(st.intakes, job.env.now));
    hide *;
    NothingToPurge(st.intakes, jobs, job.env.now);
    DraftFields(st.intakes, job.form);
    SoundForms(job, series);
    forall i | 0 <= i < |jobs|
      ensures SameSeries(jobs[i].form, job.form) && jobs[i].form.boxTotal >= 1
    {
      SoundForms(jobs[i], series);
      OfOneSeries(series, jobs[i].form, job.form);
    }
    UnitComesNext(st.intakes, jobs, job.form);
  }

  lemma DraftFields(rows: Intakes, f: Form)
    ensures var d := DraftOf(rows, f);
            && d.form == f && d.unitIndex == NextUnitIndex(rows, f.productKey, f.qrCode, f.kidNumber)
            && d.internalIndex == InternalIndex(d.unitIndex, f.kidNumber, f.qrCode)
  {
    hide NextUnitIndex, InternalIndex;
  }

  lemma SoundForms(job: Job, series: Form)
    requires Sound(job, series)
    ensures SameSeries(series, job.form) && 1 <= job.form.boxTotal <= 20
  {
    hide SameSeries;
  }

  lemma OfOneSeries(series: Form, f: Form, g: Form)
    requires SameSeries(series, f) && SameSeries(series, g)
    ensures SameSeries(f, g)
  {
  }

  lemma NextJobSucceeds(st: Store, jobs: seq<Job>, job: Job, series: Form)
    requires Reached(st, jobs) && |jobs| < I32_MAX && FreshIds(jobs + [job]) && Sound(job, series)
    requires job.form.strategy.PoolAuto? ==> |jobs| < POOL_SIZE
    requires forall i :: 0 <= i < |jobs| ==> Sound(jobs[i], series)
    ensures Created(st, job.req, job.env).1 == Ok(job.env.ids[1])
    ensures Reached(Created(st, job.req, job.env).0, jobs + [job])
  {
    assert Normalized(job.req) == Ok(job.form) && Placeable(job.form) && job.env.fault.NoFault? && Holds(st.intakes, jobs);
    var d := DraftOf(st.intakes, job.form);
    hide *;
    NextDraft(st, jobs, job, series);
    assert |UsedKeys(st.pools)| <= |jobs| by {
      SmallEnough(st, jobs);
    }
    PlaceIsFound(st, d);
    NextJobIsInserted(st.intakes, jobs, job, d, Place(st, d).value);
    CreatedFrom(st, job.req, job.form, job.env, d);
    ReachedBy(Created(st, job.req, job.env).0, jobs + [job]);
  }

  lemma SmallEnough(st: Store, jobs: seq<Job>)
    requires Reached(st, jobs)
    ensures |UsedKeys(st.pools)| <= |jobs|
  {
  }

  lemma ReachedBy(st: Store, jobs: seq<Job>)
    requires Holds(st.intakes, jobs) && |UsedKeys(st.pools)| <= |jobs|
    ensures Reached(st, jobs)
  {
  }

  lemma RunSnoc(st: Store, cs: seq<Command>, c: Command)
    ensures Run(st, cs + [c]) == Step(Run(st, cs), c)
    decreases |cs|
  {
    hide Step;
    if cs == [] {
      assert [] + [c] == [c] && [c][1..] == [];
    } else {
      assert (cs + [c])[1..] == cs[1..] + [c];
      RunSnoc(Step(st, cs[0]), cs[1..], c);
    }
  }

  /** Jobs of one series, with fresh ids, within the range of the unit numbers and the pool. */
  ghost predicate SoundSeries(jobs: seq<Job>, series: Form) {
    && FreshIds(jobs) && |jobs| < I32_MAX
    && (forall i :: 0 <= i < |jobs| ==> Sound(jobs[i], series) && (jobs[i].form.strategy.PoolAuto? ==> i < POOL_SIZE))
  }

  lemma SoundPrefix(jobs: seq<Job>, series: Form, n: nat)
    requires SoundSeries(jobs, series) && n <= |jobs|
    ensures SoundSeries(jobs[..n], series)
  {
    var init := jobs[..n];
    hide Sound;
    forall i, j, k, l | BoxOfJob(init, i, k) && BoxOfJob(init, j, l) && init[i].env.ids[k] == init[j].env.ids[l]
      ensures i == j && k == l
    {
      assert BoxOfJob(jobs, i, k) && BoxOfJob(jobs, j, l);
    }
  }

  lemma {:induction false} SeriesIsReached(jobs: seq<Job>, series: Form)
    requires SoundSeries(jobs, series)
    ensures Reached(Run(EMPTY, Creations(jobs)), jobs)
    ensures jobs != [] ==>
      var last := jobs[|jobs| - 1];
      Created(Run(EMPTY, Creations(jobs[..|jobs| - 1])), last.req, last.env).1 == Ok(last.env.ids[1])
  {
    hide Reached, FreshIds, Sound, Created, Step;
    if jobs == [] {
      NoJobs();
    } else {
      var init, last := jobs[..|jobs| - 1], jobs[|jobs| - 1];
      SoundPrefix(jobs, series, |jobs| - 1);
      SeriesIsReached(init, series);
      assert init + [last] == jobs;
      NextJobSucceeds(Run(EMPTY, Creations(init)), init, last, series);
      RunSnoc(EMPTY, Creations(init), Create(last.req, last.env));
      CreateStep(Run(EMPTY, Creations(init)), last.req, last.env);
    }
  }

  lemma CreateStep(st: Store, req: CreateRequest, env: Env)
    ensures Step(st, Create(req, env)) == Created(st, req, env).0
  {
    hide Created;
  }

  lemma NoJobs()
    ensures Reached(EMPTY, [])
  {
    assert UsedKeys(EMPTY.pools) == {};
  }

  /** The boxes of job n stand in the table with unit n + 1. */
  ghost predicate UnitStands(rows: Intakes, jobs: seq<Job>, n: nat) {
    forall k :: BoxOfJob(jobs, n, k) ==> Stands(rows, jobs, n, k)
  }

  lemma PrefixSucceeds(jobs: seq<Job>, series: Form, n: nat)
    requires SoundSeries(jobs, series) && n < |jobs|
    ensures Created(Run(EMPTY, Creations(jobs[..n])), jobs[n].req, jobs[n].env).1 == Ok(jobs[n].env.ids[1])
  {
    hide *;
    SoundPrefix(jobs, series, n + 1);
    SeriesIsReached(jobs[..n + 1], series);
    assert jobs[..n + 1][..n] == jobs[..n];
  }

  /** Creations of one series from the empty warehouse all succeed, and the k-th one carries unit
      k, whatever the strategies, the box totals and the times. */
  lemma UnitsCountUp(jobs: seq<Job>, series: Form, n: nat)
    requires SoundSeries(jobs, series) && n < |jobs|
    ensures Created(Run(EMPTY, Creations(jobs[..n])), jobs[n].req, jobs[n].env).1 == Ok(jobs[n].env.ids[1])
    ensures UnitStands(Run(EMPTY, Creations(jobs)).intakes, jobs, n)
  {
    PrefixSucceeds(jobs, series, n);
    hide SoundSeries, Created, Creations, Run, Stands;
    SeriesIsReached(jobs, series);
  }

  // ---------------------------------------------------------------- and one unit goes at a time

  /** These are the row ids of the boxes of job i. */
  ghost predicate IsUnit(jobs: seq<Job>, i: int, ids: set<nat>) {
    0 <= i < |jobs| && forall id: nat :: id in ids <==> exists k :: BoxOfJob(jobs, i, k) && id == jobs[i].env.ids[k]
  }

  predicate OneLabel(jobs: seq<Job>) {
    forall i :: 0 <= i < |jobs| ==> jobs[i].form.qrCode == jobs[0].form.qrCode && jobs[i].form.kidNumber == jobs[0].form.kidNumber
  }

  /** Of the boxes of one label only those of a unit carry the unit's index. */
  lemma IndexOfTheUnit(rows: Intakes, jobs: seq<Job>, i: int, j: int, l: int)
    requires Holds(rows, jobs) && OneLabel(jobs) && 0 <= i < |jobs| && BoxOfJob(jobs, j, l)
    ensures jobs[j].env.ids[l] in rows && !rows[jobs[j].env.ids[l]].isRemoved
    ensures rows[jobs[j].env.ids[l]].internalIndex == Some(InternalIndex(i + 1, jobs[0].form.kidNumber, jobs[0].form.qrCode)) <==> i == j
  {
    hide InternalIndex;
    assert Stands(rows, jobs, j, l);
    IndexTellsUnitsApart(i + 1, j + 1, jobs[0].form.kidNumber, jobs[0].form.qrCode);
  }

  lemma IndexedRowsAreTheUnit(rows: Intakes, jobs: seq<Job>, i: int)
    requires Holds(rows, jobs) && OneLabel(jobs) && 0 <= i < |jobs|
    ensures IsUnit(jobs, i, GroupRows(rows, ByIndex(InternalIndex(i + 1, jobs[0].form.kidNumber, jobs[0].form.qrCode))))
  {
    var index := InternalIndex(i + 1, jobs[0].form.kidNumber, jobs[0].form.qrCode);
    hide *;
    forall id: nat | id in GroupRows(rows, ByIndex(index))
      ensures exists l :: BoxOfJob(jobs, i, l) && id == jobs[i].env.ids[l]
    {
      MembersCarryIt(rows, index, id);
      var j, l := OwnerOf(rows, jobs, id);
      IndexOfTheUnit(rows, jobs, i, j, l);
    }
    forall l | BoxOfJob(jobs, i, l)
      ensures jobs[i].env.ids[l] in GroupRows(rows, ByIndex(index))
    {
      IndexOfTheUnit(rows, jobs, i, i, l);
      MembersCarryIt(rows, index, jobs[i].env.ids[l]);
    }
    UnitByMembers(jobs, i, GroupRows(rows, ByIndex(index)));
  }

  lemma MembersCarryIt(rows: Intakes, index: string, id: nat)
    ensures id in GroupRows(rows, ByIndex(index)) <==> id in rows && !rows[id].isRemoved && rows[id].internalIndex == Some(index)
  {
  }

  lemma OwnerOf(rows: Intakes, jobs: seq<Job>, id: nat) returns (j: int, l: int)
    requires Holds(rows, jobs) && id in rows
    ensures BoxOfJob(jobs, j, l) && id == jobs[j].env.ids[l]
  {
    hide Stands;
    assert HasBox(rows, jobs, id);
    j, l :| BoxOfJob(jobs, j, l) && id == jobs[j].env.ids[l];
  }

  lemma UnitByMembers(jobs: seq<Job>, i: int, ids: set<nat>)
    requires 0 <= i < |jobs|
    requires forall id: nat | id in ids :: exists k :: BoxOfJob(jobs, i, k) && id == jobs[i].env.ids[k]
    requires forall k | BoxOfJob(jobs, i, k) :: jobs[i].env.ids[k] in ids
    ensures IsUnit(jobs, i, ids)
  {
  }

  lemma GroupIsTheUnit(rows: Intakes, jobs: seq<Job>, i: int, k: int)
    requires Holds(rows, jobs) && OneLabel(jobs) && BoxOfJob(jobs, i, k) && jobs[i].env.ids[k] in rows
    ensures IsUnit(jobs, i, GroupRows(rows, GroupOf(rows[jobs[i].env.ids[k]])))
  {
    TrimmedIndex(i + 1, jobs[0].form.kidNumber, jobs[0].form.qrCode);
    IndexOfTheUnit(rows, jobs, i, i, k);
    IndexedRowsAreTheUnit(rows, jobs, i);
    hide InternalIndex, Trim, GroupRows, Holds, OneLabel, IsUnit;
  }

  lemma TrimmedIndex(unit: int, kid: string, qr: string)
    ensures Trim(Rust, InternalIndex(unit, kid, qr)) == InternalIndex(unit, kid, qr) != ""
  {
  }

  /** Deleting by location from units of one label takes exactly one unit, with all its boxes,
      wherever they stand. */
  lemma DeletionTakesOneUnit(st: Store, jobs: seq<Job>, section: string, slot: int, now: int) returns (i: nat)
    requires Holds(st.intakes, jobs) && OneLabel(jobs) && DeletedOldest(st, section, slot, now).1.Ok?
    ensures IsUnit(jobs, i, DeletedOldest(st, section, slot, now).1.value)
    ensures exists k | BoxOfJob(jobs, i, k) :: OldestAt(st.intakes, NormalizeSection(section).value, slot) == Some(jobs[i].env.ids[k])
  {
    hide OneLabel, GroupRows, GroupOf, IsUnit, ReleaseIfUnused, MarkRemoved, NormalizeSection;
    var seed := OldestAt(st.intakes, NormalizeSection(section).value, slot).value;
    assert DeletedOldest(st, section, slot, now).1.value == GroupRows(st.intakes, GroupOf(st.intakes[seed]));
    assert HasBox(st.intakes, jobs, seed);
    var j, k :| BoxOfJob(jobs, j, k) && seed == jobs[j].env.ids[k];
    i := j;
    hide OldestAt, DeletedOldest;
    GroupIsTheUnit(st.intakes, jobs, i, k);
  }
}
