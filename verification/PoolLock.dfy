/** Reservations step by step: a transaction locks the section rows one by one in section
    order, reads each as it locks it, stages the write to its own row, and commits.  Releases
    lock the one row they update.  The set of section rows is fixed. */
module PoolLock {
  import opened Wrappers
  import opened IntakeText
  import opened IntakeStore

  type Slots = map<string, PoolEntry>

  datatype Task =
    | Reserving(section: string, index: string)
    | Releasing(section: string, slot: int)

  datatype Phase =
    | Locking(seen: seq<Slots>)
    | Staged(slot: int, slots: Slots)
    | Holding
    | Finished(result: Option<int>)

  datatype Worker = Worker(task: Task, phase: Phase)

  /** The committed rows, who holds each row lock, and every transaction. */
  datatype System = System(order: seq<string>, pools: Pools, owner: seq<Option<nat>>, workers: seq<Worker>)

  ghost predicate WellFormed(s: System) {
    && |s.owner| == |s.order|
    && (forall i, j :: 0 <= i < j < |s.order| ==> s.order[i] != s.order[j])
    && (forall sec :: sec in s.pools <==> sec in s.order)
    && (forall w :: 0 <= w < |s.workers| ==> s.workers[w].task.section in s.order)
  }

  /** The locks a transaction holds, by row number. */
  predicate Holds(s: System, w: nat, i: nat)
    requires w < |s.workers| && i < |s.order|
  {
    match s.workers[w].phase
    case Locking(seen) => i < |seen|
    case Staged(_, _) => true
    case Holding => s.order[i] == s.workers[w].task.section
    case Finished(_) => false
  }

  ghost predicate Inv(s: System) {
    && WellFormed(s)
    && LocksExact(s)
    && (forall w :: 0 <= w < |s.workers| ==> PhaseInv(s, w))
  }

  /** A row lock is owned exactly by the transaction whose phase says it holds it. */
  ghost predicate LocksExact(s: System)
    requires WellFormed(s)
  {
    && (forall w, i :: 0 <= w < |s.workers| && 0 <= i < |s.order| ==> (Holds(s, w, i) <==> s.owner[i] == Some(w)))
    && (forall i :: 0 <= i < |s.order| && s.owner[i].Some? ==> s.owner[i].value < |s.workers|)
  }

  /** What a transaction has read is still what is committed. */
  ghost predicate PhaseInv(s: System, w: nat)
    requires WellFormed(s) && w < |s.workers|
  {
    var worker := s.workers[w];
    match worker.phase
    case Locking(seen) => |seen| <= |s.order| && (forall i :: 0 <= i < |seen| ==> seen[i] == s.pools[s.order[i]])
      && (worker.task.Releasing? ==> seen == [])
    case Staged(slot, slots) => worker.task.Reserving? && Reserve(s.pools, worker.task.section, worker.task.index)
      == Some((slot, s.pools[worker.task.section := slots]))
    case Holding => worker.task.Releasing?
    case Finished(_) => true
  }

  // ---------------------------------------------------------------- steps

  function RowNumber(order: seq<string>, section: string): (i: nat)
    requires section in order
    ensures i < |order| && order[i] == section
  {
    if order[0] == section then 0 else 1 + RowNumber(order[1..], section)
  }

  function ReadRows(order: seq<string>, seen: seq<Slots>): Pools
    requires |order| == |seen|
  {
    map section | section in order :: seen[RowNumber(order, section)]
  }

  datatype Action = LockNext(w: nat) | Stage(w: nat) | LockOne(w: nat) | Commit(w: nat)

  /** Whether a transaction can take its next step now. */
  predicate Enabled(s: System, a: Action) {
    && a.w < |s.workers|
    && |s.owner| == |s.order|
    && var worker := s.workers[a.w];
    match a
    case LockNext(w) => worker.task.Reserving? && worker.phase.Locking? && |worker.phase.seen| < |s.order|
      && s.owner[|worker.phase.seen|].None? && s.order[|worker.phase.seen|] in s.pools
    case Stage(w) => worker.task.Reserving? && worker.phase.Locking? && |worker.phase.seen| == |s.order|
    case LockOne(w) => worker.task.Releasing? && worker.phase.Locking? && worker.task.section in s.order
      && s.owner[RowNumber(s.order, worker.task.section)].None?
    case Commit(w) => (worker.phase.Staged? && worker.task.Reserving?) || (worker.phase.Holding? && worker.task.Releasing?)
  }

  function Unlocked(owner: seq<Option<nat>>, w: nat): seq<Option<nat>> {
    seq(|owner|, i requires 0 <= i < |owner| => if owner[i] == Some(w) then None else owner[i])
  }

  function Act(s: System, a: Action): System
    requires Enabled(s, a)
  {
    var w := a.w;
    var worker := s.workers[w];
    match a
    case LockNext(_) =>
      var n := |worker.phase.seen|;
      s.(owner := s.owner[n := Some(w)],
         workers := s.workers[w := worker.(phase := Locking(worker.phase.seen + [s.pools[s.order[n]]]))])
    case Stage(_) =>
      (match Reserve(ReadRows(s.order, worker.phase.seen), worker.task.section, worker.task.index)
       case None => s.(owner := Unlocked(s.owner, w), workers := s.workers[w := worker.(phase := Finished(None))])
       case Some((slot, pools)) =>
         s.(workers := s.workers[w := worker.(phase :=
            Staged(slot, if worker.task.section in pools then pools[worker.task.section] else map[]))]))
    case LockOne(_) =>
      s.(owner := s.owner[RowNumber(s.order, worker.task.section) := Some(w)],
         workers := s.workers[w := worker.(phase := Holding)])
    case Commit(_) =>
      if worker.phase.Staged? then
        s.(pools := s.pools[worker.task.section := worker.phase.slots],
           owner := Unlocked(s.owner, w), workers := s.workers[w := worker.(phase := Finished(Some(worker.phase.slot)))])
      else
        s.(pools := ReleaseKey(s.pools, worker.task.section, worker.task.slot),
           owner := Unlocked(s.owner, w), workers := s.workers[w := worker.(phase := Finished(None))])
  }

  // ---------------------------------------------------------------- refinement

  /** What one transaction does when it runs alone. */
  function Atomic(pools: Pools, task: Task): (Pools, Option<int>) {
    match task
    case Reserving(section, index) =>
      (match Reserve(pools, section, index)
       case None => (pools, None)
       case Some((slot, after)) => (after, Some(slot)))
    case Releasing(section, slot) => (ReleaseKey(pools, section, slot), None)
  }

  predicate Finishes(s: System, a: Action)
    requires Enabled(s, a)
  {
    Act(s, a).workers[a.w].phase.Finished?
  }

  lemma AllRowsRead(s: System, w: nat)
    requires Inv(s) && w < |s.workers| && s.workers[w].phase.Locking? && |s.workers[w].phase.seen| == |s.order|
    ensures ReadRows(s.order, s.workers[w].phase.seen) == s.pools
  {
    assert PhaseInv(s, w);
  }

  /** Only transaction w changed, and it changed locks only by taking free ones or dropping its own. */
  ghost predicate OnlyActs(s: System, t: System, w: nat)
    requires WellFormed(s) && w < |s.workers|
  {
    && WellFormed(t) && t.order == s.order && |t.workers| == |s.workers|
    && (forall v :: 0 <= v < |s.workers| && v != w ==> t.workers[v] == s.workers[v])
    && (forall i :: 0 <= i < |s.order| ==>
          t.owner[i] == (if Holds(t, w, i) then Some(w) else if s.owner[i] == Some(w) then None else s.owner[i]))
    && (forall i :: 0 <= i < |s.order| && Holds(t, w, i) ==> s.owner[i].None? || s.owner[i] == Some(w))
  }

  lemma OnlyActsKeepsLocks(s: System, t: System, w: nat)
    requires WellFormed(s) && LocksExact(s) && w < |s.workers| && OnlyActs(s, t, w)
    ensures LocksExact(t)
  {
    forall v, i | 0 <= v < |t.workers| && 0 <= i < |t.order|
      ensures Holds(t, v, i) <==> t.owner[i] == Some(v)
    {
      if v != w {
        assert Holds(t, v, i) <==> Holds(s, v, i);
      }
    }
  }

  lemma LockStepsOnlyAct(s: System, a: Action)
    requires Inv(s) && Enabled(s, a) && (a.LockNext? || a.LockOne?)
    ensures OnlyActs(s, Act(s, a), a.w)
  {
    assert PhaseInv(s, a.w);
    hide Reserve, ReleaseKey, ReadRows, PhaseInv;
    assert forall i :: 0 <= i < |s.order| ==> (Holds(s, a.w, i) <==> s.owner[i] == Some(a.w));
  }

  lemma StageOnlyActs(s: System, a: Action)
    requires Inv(s) && Enabled(s, a) && a.Stage?
    ensures OnlyActs(s, Act(s, a), a.w)
  {
    hide Reserve, ReleaseKey, ReadRows, PhaseInv;
    assert forall i :: 0 <= i < |s.order| ==> (Holds(s, a.w, i) <==> s.owner[i] == Some(a.w));
  }

  lemma CommitOnlyActs(s: System, a: Action)
    requires Inv(s) && Enabled(s, a) && a.Commit?
    ensures OnlyActs(s, Act(s, a), a.w)
  {
    hide Reserve, ReadRows, PhaseInv;
    assert forall i :: 0 <= i < |s.order| ==> (Holds(s, a.w, i) <==> s.owner[i] == Some(a.w));
  }

  /** The locks of the transaction that acts are its own; nobody else's row or phase changes. */
  lemma LocksStayExact(s: System, a: Action)
    requires Inv(s) && Enabled(s, a)
    ensures OnlyActs(s, Act(s, a), a.w) && LocksExact(Act(s, a))
  {
    assert WellFormed(s) && LocksExact(s) && a.w < |s.workers|;
    hide *;
    match a {
      case LockNext(_) => LockStepsOnlyAct(s, a);
      case LockOne(_) => LockStepsOnlyAct(s, a);
      case Stage(_) => StageOnlyActs(s, a);
      case Commit(_) => CommitOnlyActs(s, a);
    }
    OnlyActsKeepsLocks(s, Act(s, a), a.w);
  }

  /** A commit changes at most the row of the transaction's own section, which it holds. */
  lemma ChangedRowIsHeld(s: System, a: Action, i: nat)
    requires Inv(s) && Enabled(s, a) && i < |s.order| && WellFormed(Act(s, a))
    requires Act(s, a).order == s.order && Act(s, a).pools[s.order[i]] != s.pools[s.order[i]]
    ensures s.owner[i] == Some(a.w)
  {
    hide Reserve, ReadRows, PhaseInv;
    assert Holds(s, a.w, i);
  }

  lemma HeldRowsStay(s: System, a: Action, v: nat)
    requires Inv(s) && Enabled(s, a) && v < |s.workers| && v != a.w && WellFormed(Act(s, a)) && Act(s, a).order == s.order
    ensures forall i :: 0 <= i < |s.order| && Holds(s, v, i) ==> Act(s, a).pools[s.order[i]] == s.pools[s.order[i]]
  {
    hide Act, PhaseInv, Enabled;
    forall i | 0 <= i < |s.order| && Holds(s, v, i)
      ensures Act(s, a).pools[s.order[i]] == s.pools[s.order[i]]
    {
      if Act(s, a).pools[s.order[i]] != s.pools[s.order[i]] {
        ChangedRowIsHeld(s, a, i);
      }
    }
  }

  /** The rows a transaction holds are the same in both systems. */
  ghost predicate SameHeldRows(s: System, t: System, v: nat)
    requires WellFormed(s) && WellFormed(t) && v < |s.workers| && t.order == s.order
  {
    forall i :: 0 <= i < |s.order| && Holds(s, v, i) ==> t.pools[s.order[i]] == s.pools[s.order[i]]
  }

  lemma AllRowsSame(s: System, t: System)
    requires WellFormed(s) && WellFormed(t) && t.order == s.order
    requires forall i :: 0 <= i < |s.order| ==> t.pools[s.order[i]] == s.pools[s.order[i]]
    ensures t.pools == s.pools
  {
    forall sec | sec in s.pools
      ensures t.pools[sec] == s.pools[sec]
    {
      var i :| 0 <= i < |s.order| && s.order[i] == sec;
    }
    assert t.pools.Keys == s.pools.Keys;
  }

  /** What a transaction has read stays right while its own rows and its own phase stay. */
  lemma PhaseTransfers(s: System, t: System, v: nat)
    requires WellFormed(s) && WellFormed(t) && t.order == s.order && |t.workers| == |s.workers|
    requires v < |s.workers| && t.workers[v] == s.workers[v] && SameHeldRows(s, t, v) && PhaseInv(s, v)
    ensures PhaseInv(t, v)
  {
    hide Reserve, WellFormed;
    match s.workers[v].phase
    case Locking(seen) =>
      assert forall i :: 0 <= i < |seen| ==> Holds(s, v, i);
    case Staged(_, _) =>
      assert forall i :: 0 <= i < |s.order| ==> Holds(s, v, i);
      AllRowsSame(s, t);
    case _ =>
  }

  lemma OthersKeepWhatTheyRead(s: System, a: Action, v: nat)
    requires Inv(s) && Enabled(s, a) && v < |s.workers| && v != a.w && OnlyActs(s, Act(s, a), a.w)
    ensures PhaseInv(Act(s, a), v)
  {
    assert PhaseInv(s, v);
    HeldRowsStay(s, a, v);
    hide Act, Enabled, PhaseInv, WellFormed, Holds, LocksExact;
    PhaseTransfers(s, Act(s, a), v);
  }

  lemma ReadingKeepsThePhase(s: System, a: Action)
    requires Inv(s) && Enabled(s, a) && WellFormed(Act(s, a)) && (a.LockNext? || a.LockOne?)
    ensures PhaseInv(Act(s, a), a.w)
  {
    assert PhaseInv(s, a.w);
    hide Reserve, ReadRows, LocksExact, WellFormed;
  }

  /** A reservation changes the row of its own section and no other. */
  lemma ReservedRow(pools: Pools, section: string, index: string)
    requires section in pools && Reserve(pools, section, index).Some?
    ensures var (slot, after) := Reserve(pools, section, index).value;
            section in after && after == pools[section := after[section]]
  {
    hide LowestFree;
  }

  /** What staging leaves behind: nothing written, and the reserved row, if any, in the phase. */
  lemma StagedPhase(s: System, a: Action)
    requires Enabled(s, a) && a.Stage? && ReadRows(s.order, s.workers[a.w].phase.seen) == s.pools
    ensures var worker, after := s.workers[a.w], Act(s, a);
            var reserved := Reserve(s.pools, worker.task.section, worker.task.index);
            && after.pools == s.pools && after.workers[a.w].task == worker.task
            && (reserved.None? ==> after.workers[a.w].phase == Finished(None))
            && (reserved.Some? && worker.task.section in reserved.value.1 ==>
                  after.workers[a.w].phase == Staged(reserved.value.0, reserved.value.1[worker.task.section]))
  {
    hide Reserve, ReadRows, Unlocked;
  }

  lemma StagingKeepsThePhase(s: System, a: Action)
    requires Inv(s) && Enabled(s, a) && WellFormed(Act(s, a)) && a.Stage?
    ensures PhaseInv(Act(s, a), a.w)
  {
    AllRowsRead(s, a.w);
    var task := s.workers[a.w].task;
    assert task.section in s.pools;
    StagedPhase(s, a);
    hide Act, Reserve, ReadRows, LocksExact, WellFormed, Inv, PhaseInv;
    if Reserve(s.pools, task.section, task.index).Some? {
      ReservedRow(s.pools, task.section, task.index);
      StagedIsSound(Act(s, a), a.w);
    } else {
      FinishedIsSound(Act(s, a), a.w);
    }
  }

  lemma FinishedIsSound(t: System, w: nat)
    requires WellFormed(t) && w < |t.workers| && t.workers[w].phase.Finished?
    ensures PhaseInv(t, w)
  {
  }

  lemma StagedIsSound(t: System, w: nat)
    requires WellFormed(t) && w < |t.workers| && t.workers[w].phase.Staged? && t.workers[w].task.Reserving?
    requires var task := t.workers[w].task;
             var reserved := Reserve(t.pools, task.section, task.index);
             && reserved.Some? && task.section in reserved.value.1
             && reserved.value.1 == t.pools[task.section := reserved.value.1[task.section]]
             && t.workers[w].phase == Staged(reserved.value.0, reserved.value.1[task.section])
    ensures PhaseInv(t, w)
  {
    hide Reserve, WellFormed;
  }

  lemma ActorKeepsItsPhase(s: System, a: Action)
    requires Inv(s) && Enabled(s, a) && WellFormed(Act(s, a))
    ensures PhaseInv(Act(s, a), a.w)
  {
    match a
    case Stage(_) => StagingKeepsThePhase(s, a);
    case Commit(_) =>
      hide Reserve, ReadRows, LocksExact, WellFormed, ReleaseKey;
    case _ => ReadingKeepsThePhase(s, a);
  }

  /** Refinement: a step that finishes a transaction does to the committed rows exactly what the
      transaction does alone, with the same result; no other step changes them. */
  lemma StepRefines(s: System, a: Action)
    requires Inv(s) && Enabled(s, a)
    ensures Inv(Act(s, a))
    ensures Finishes(s, a) ==>
      (Act(s, a).pools, Act(s, a).workers[a.w].phase.result) == Atomic(s.pools, s.workers[a.w].task)
    ensures !Finishes(s, a) ==> Act(s, a).pools == s.pools
  {
    LocksStayExact(s, a);
    ActorKeepsItsPhase(s, a);
    forall v | 0 <= v < |s.workers|
      ensures PhaseInv(Act(s, a), v)
    {
      if v != a.w {
        OthersKeepWhatTheyRead(s, a, v);
      }
    }
    FinishIsAtomic(s, a);
  }

  lemma FinishIsAtomic(s: System, a: Action)
    requires Inv(s) && Enabled(s, a)
    ensures Finishes(s, a) ==>
      (Act(s, a).pools, Act(s, a).workers[a.w].phase.result) == Atomic(s.pools, s.workers[a.w].task)
    ensures !Finishes(s, a) ==> Act(s, a).pools == s.pools
  {
    assert PhaseInv(s, a.w);
    if a.Stage? {
      AllRowsRead(s, a.w);
    }
    hide Reserve, ReadRows, ReleaseKey;
  }

  // ---------------------------------------------------------------- whole runs

  ghost predicate Runnable(s: System, acts: seq<Action>)
    decreases |acts|
  {
    acts != [] ==> Enabled(s, acts[0]) && Runnable(Act(s, acts[0]), acts[1..])
  }

  ghost function After(s: System, acts: seq<Action>): System
    requires Runnable(s, acts)
    decreases |acts|
  {
    if acts == [] then s else After(Act(s, acts[0]), acts[1..])
  }

  /** The transactions in the order they finish, each with its result. */
  ghost function Log(s: System, acts: seq<Action>): seq<(Task, Option<int>)>
    requires Runnable(s, acts)
    decreases |acts|
  {
    if acts == [] then []
    else
      var rest := Log(Act(s, acts[0]), acts[1..]);
      if Finishes(s, acts[0]) then
        [(s.workers[acts[0].w].task, Act(s, acts[0]).workers[acts[0].w].phase.result)] + rest
      else rest
  }

  /** Running the logged transactions one after the other gives these pools and results. */
  ghost predicate Serial(pools: Pools, log: seq<(Task, Option<int>)>, end: Pools)
    decreases |log|
  {
    if log == [] then pools == end
    else Atomic(pools, log[0].0).1 == log[0].1 && Serial(Atomic(pools, log[0].0).0, log[1..], end)
  }

  /** Every interleaving is equivalent to running the transactions in the order they finish. */
  lemma {:induction false} InterleavingsAreSerial(s: System, acts: seq<Action>)
    requires Inv(s) && Runnable(s, acts)
    ensures Inv(After(s, acts))
    ensures Serial(s.pools, Log(s, acts), After(s, acts).pools)
    decreases |acts|
  {
    hide Inv, Act, Enabled, Atomic;
    if acts != [] {
      var t := Act(s, acts[0]);
      StepRefines(s, acts[0]);
      InterleavingsAreSerial(t, acts[1..]);
      if Finishes(s, acts[0]) {
        assert Log(s, acts)[1..] == Log(t, acts[1..]);
      }
    }
  }

  /** All transactions at their first statement. */
  function Start(order: seq<string>, pools: Pools, tasks: seq<Task>): System {
    System(order, pools, seq(|order|, i => None), seq(|tasks|, w requires 0 <= w < |tasks| => Worker(tasks[w], Locking([]))))
  }

  /** Whatever the interleaving, a batch of reservations and releases acts serially. */
  lemma BatchesAreSerial(order: seq<string>, pools: Pools, tasks: seq<Task>, acts: seq<Action>)
    requires WellFormed(Start(order, pools, tasks)) && Runnable(Start(order, pools, tasks), acts)
    ensures Serial(pools, Log(Start(order, pools, tasks), acts), After(Start(order, pools, tasks), acts).pools)
  {
    var s := Start(order, pools, tasks);
    assert LocksExact(s);
    assert Inv(s);
    hide *;
    InterleavingsAreSerial(s, acts);
    assert s.pools == pools by { StartPools(order, pools, tasks); }
  }

  lemma StartPools(order: seq<string>, pools: Pools, tasks: seq<Task>)
    ensures Start(order, pools, tasks).pools == pools
  {
  }

  // ---------------------------------------------------------------- no deadlock

  predicate Waiting(s: System, w: nat)
    requires w < |s.workers|
  {
    !s.workers[w].phase.Finished?
  }

  /** How many row locks a reservation has taken so far. */
  function Depth(s: System, w: nat): nat
    requires w < |s.workers|
  {
    match s.workers[w].phase
    case Locking(seen) => |seen|
    case Staged(_, _) => |s.order|
    case Holding => |s.order|
    case Finished(_) => 0
  }

  /** Follow whoever holds the next lock: that transaction is deeper, so the walk ends at one
      that can go on.  Some transaction can step as long as one is unfinished. */
  lemma {:induction false} SomeoneCanStep(s: System, w: nat) returns (a: Action)
    requires Inv(s) && w < |s.workers| && Waiting(s, w)
    ensures Enabled(s, a)
    decreases |s.order| - Depth(s, w)
  {
    var worker := s.workers[w];
    assert PhaseInv(s, w);
    match worker.phase
    case Staged(_, _) => a := Commit(w);
    case Holding => a := Commit(w);
    case Locking(seen) =>
      var next := if worker.task.Reserving? then |seen| else RowNumber(s.order, worker.task.section);
      if worker.task.Reserving? && next == |s.order| {
        a := Stage(w);
      } else if s.owner[next].None? {
        a := if worker.task.Reserving? then LockNext(w) else LockOne(w);
      } else {
        assert Holds(s, s.owner[next].value, next);
        a := SomeoneCanStep(s, s.owner[next].value);
      }
  }
}
