/** Admission control of FTP uploads: leased slots shared by all processes, a bounded semaphore
    in each process, and bounded retries inside both. */
module FtpAdmission {
  import opened Wrappers

  /** Limits as the environment gives them, already clamped to their minima. */
  datatype Config = Config(
    redis: bool,
    slots: nat,
    permits: nat,
    retries: nat,
    delay: real,
    leaseTime: real,
    waitTime: real)

  ghost predicate ValidConfig(c: Config) {
    c.slots >= 1 && c.permits >= 1 && c.retries >= 1 && c.delay >= 0.0 && c.leaseTime >= 1.0 && c.waitTime >= 0.0
  }

  datatype Worker = Worker(process: nat, number: nat)

  /** A slot key in Redis: the owner's token, and the time after which it is gone. */
  datatype Lease = Lease(token: nat, expires: real)

  /** What a worker remembers of the lease it took. */
  datatype Held = Held(slot: nat, token: nat, expires: real)

  datatype Phase =
    | Scanning(slot: nat, deadline: real)
    | Resting(deadline: real, until: real)
    | Admitted(held: Option<Held>)
    | Uploading(held: Option<Held>, attempt: nat)
    | BackingOff(held: Option<Held>, attempt: nat, until: real)
    | Leaving(held: Option<Held>, uploaded: bool)
    | Gone(uploaded: bool)

  datatype State = State(
    now: real,
    workers: map<Worker, Phase>,
    leases: map<nat, Lease>,
    used: map<nat, nat>,
    nextToken: nat)

  function Start(now: real): State { State(now, map[], map[], map[], 0) }

  /** How one run of the upload operation ends. */
  datatype Outcome = Uploaded | ConnectionLimit | OtherError

  datatype Step =
    | Arrive(w: Worker)
    | TrySlot(w: Worker)
    | LoseAnswer(w: Worker, stored: bool)
    | CheckDeadline(w: Worker)
    | WakeToScan(w: Worker)
    | TakePermit(w: Worker)
    | Operate(w: Worker, outcome: Outcome)
    | WakeToRetry(w: Worker)
    | ReleaseLease(w: Worker, answered: bool)
    | Tick(passed: real)

  // ---------------------------------------------------------------- steps

  predicate IsFree(s: State, slot: nat) { slot !in s.leases || s.leases[slot].expires <= s.now }

  function UsedPermits(s: State, process: nat): nat { if process in s.used then s.used[process] else 0 }

  function MinReal(a: real, b: real): real { if a <= b then a else b }

  function MaxReal(a: real, b: real): real { if a >= b then a else b }

  predicate Enabled(c: Config, s: State, step: Step) {
    match step
    case Tick(passed) => passed >= 0.0
    case Arrive(w) => w !in s.workers
    case TrySlot(w) => w in s.workers && s.workers[w].Scanning? && s.workers[w].slot < c.slots
    case LoseAnswer(w, stored) =>
      && w in s.workers && s.workers[w].Scanning? && s.workers[w].slot < c.slots
      && (stored ==> IsFree(s, s.workers[w].slot))
    case CheckDeadline(w) => w in s.workers && s.workers[w].Scanning? && s.workers[w].slot >= c.slots
    case WakeToScan(w) => w in s.workers && s.workers[w].Resting? && s.workers[w].until <= s.now
    case TakePermit(w) => w in s.workers && s.workers[w].Admitted? && UsedPermits(s, w.process) < c.permits
    case Operate(w, _) => w in s.workers && s.workers[w].Uploading?
    case WakeToRetry(w) => w in s.workers && s.workers[w].BackingOff? && s.workers[w].until <= s.now
    case ReleaseLease(w, _) => w in s.workers && s.workers[w].Leaving?
  }

  function Moved(s: State, w: Worker, phase: Phase): State { s.(workers := s.workers[w := phase]) }

  /** A free slot taken by this worker. */
  function Leased(c: Config, s: State, slot: nat): State {
    s.(leases := s.leases[slot := Lease(s.nextToken, s.now + c.leaseTime)], nextToken := s.nextToken + 1)
  }

  /** The token-checked release: an expired or foreign key stays as it is. */
  function Released(s: State, held: Held): State {
    if held.slot in s.leases && s.leases[held.slot].token == held.token && s.now < s.leases[held.slot].expires
    then s.(leases := s.leases - {held.slot}) else s
  }

  function PermitBack(s: State, process: nat): State {
    s.(used := s.used[process := if UsedPermits(s, process) > 0 then UsedPermits(s, process) - 1 else 0])
  }

  function Next(c: Config, s: State, step: Step): State
    requires Enabled(c, s, step)
  {
    match step
    case Tick(passed) => s.(now := s.now + passed)
    case Arrive(w) => Moved(s, w, if c.redis then Scanning(0, s.now + c.waitTime) else Admitted(None))
    case TrySlot(w) =>
      var slot := s.workers[w].slot;
      if IsFree(s, slot)
      then Moved(Leased(c, s, slot), w, Admitted(Some(Held(slot, s.nextToken, s.now + c.leaseTime))))
      else Moved(s, w, Scanning(slot + 1, s.workers[w].deadline))
    case LoseAnswer(w, stored) =>
      Moved(if stored then Leased(c, s, s.workers[w].slot) else s, w, Gone(false))
    case CheckDeadline(w) =>
      var deadline := s.workers[w].deadline;
      Moved(s, w, if s.now >= deadline then Gone(false)
                  else Resting(deadline, s.now + MinReal(0.2, MaxReal(0.0, deadline - s.now))))
    case WakeToScan(w) => Moved(s, w, Scanning(0, s.workers[w].deadline))
    case TakePermit(w) =>
      Moved(s.(used := s.used[w.process := UsedPermits(s, w.process) + 1]), w, Uploading(s.workers[w].held, 1))
    case Operate(w, outcome) =>
      var attempt := s.workers[w].attempt;
      if outcome.ConnectionLimit? && attempt < c.retries
      then Moved(s, w, BackingOff(s.workers[w].held, attempt, s.now + c.delay * attempt as real))
      else Moved(PermitBack(s, w.process), w, Leaving(s.workers[w].held, outcome.Uploaded?))
    case WakeToRetry(w) => Moved(s, w, Uploading(s.workers[w].held, s.workers[w].attempt + 1))
    case ReleaseLease(w, answered) =>
      var held := s.workers[w].held;
      Moved(if held.Some? && answered then Released(s, held.value) else s, w, Gone(s.workers[w].uploaded))
  }

  /** A run whose every step was possible when it was taken. */
  ghost predicate IsRun(c: Config, s: State, steps: seq<Step>)
    decreases |steps|
  {
    steps == [] || (Enabled(c, s, steps[0]) && IsRun(c, Next(c, s, steps[0]), steps[1..]))
  }

  ghost function Run(c: Config, s: State, steps: seq<Step>): State
    requires IsRun(c, s, steps)
    decreases |steps|
  {
    if steps == [] then s else Run(c, Next(c, s, steps[0]), steps[1..])
  }

  /** The slot keys as the lock server holds them, updated in place. */
  class LockServer {
    var leases: map<nat, Lease>
    var nextToken: nat

    constructor ()
      ensures leases == map[] && nextToken == 0
    {
      leases, nextToken := map[], 0;
    }

    /** The part of the state that lives in Redis, at a time. */
    function At(now: real): State
      reads this
    {
      State(now, map[], leases, map[], nextToken)
    }

    /** The non-blocking acquire. */
    method TryAcquire(c: Config, slot: nat, now: real) returns (held: Option<Held>)
      modifies this
      ensures held.Some? <==> IsFree(old(At(now)), slot)
      ensures held.Some? ==> held == Some(Held(slot, old(nextToken), now + c.leaseTime)) && At(now) == Leased(c, old(At(now)), slot)
      ensures held.None? ==> At(now) == old(At(now))
    {
      if slot in leases && leases[slot].expires > now {
        return None;
      }
      held := Some(Held(slot, nextToken, now + c.leaseTime));
      leases := leases[slot := Lease(nextToken, now + c.leaseTime)];
      nextToken := nextToken + 1;
    }

    method Release(held: Held, now: real)
      modifies this`leases
      ensures At(now) == Released(old(At(now)), held)
    {
      if held.slot in leases && leases[held.slot].token == held.token && now < leases[held.slot].expires {
        leases := leases - {held.slot};
      }
    }

    /** One pass over the slots takes the first free one, or finds every slot taken. */
    method ScanSlots(c: Config, now: real) returns (held: Option<Held>)
      modifies this
      ensures held.Some? ==>
        && held.value.slot < c.slots && IsFree(old(At(now)), held.value.slot)
        && (forall k: nat :: k < held.value.slot ==> !IsFree(old(At(now)), k))
        && At(now) == Leased(c, old(At(now)), held.value.slot)
      ensures held.None? ==>
        At(now) == old(At(now)) && forall k: nat :: k < c.slots ==> !IsFree(old(At(now)), k)
    {
      held := None;
      var slot := 0;
      while slot < c.slots
        invariant 0 <= slot <= c.slots && held.None? && At(now) == old(At(now))
        invariant forall k: nat :: k < slot ==> !IsFree(old(At(now)), k)
      {
        held := TryAcquire(c, slot, now);
        if held.Some? {
          return;
        }
        slot := slot + 1;
      }
    }
  }

  // ---------------------------------------------------------------- the invariant

  predicate IsInside(phase: Phase) { phase.Uploading? || phase.BackingOff? }

  /** The workers of a process between taking and returning a permit. */
  function Inside(s: State, process: nat): set<Worker> {
    set w | w in s.workers && w.process == process && IsInside(s.workers[w])
  }

  function AllInside(s: State): set<Worker> { set w | w in s.workers && IsInside(s.workers[w]) }

  function LeaseOf(phase: Phase): Option<Held> {
    if phase.Admitted? || phase.Uploading? || phase.BackingOff? || phase.Leaving? then phase.held else None
  }

  ghost predicate PermitsCounted(c: Config, s: State) {
    forall p: nat :: UsedPermits(s, p) == |Inside(s, p)| && UsedPermits(s, p) <= c.permits
  }

  /** Tokens are unique, and an unexpired lease is still in Redis under its owner's token. */
  ghost predicate LeasesOwned(c: Config, s: State) {
    && (forall w :: w in s.workers && LeaseOf(s.workers[w]).Some? ==> HeldIsSound(c, s, LeaseOf(s.workers[w]).value))
    && (forall v, w | v in s.workers && w in s.workers && v != w :: DifferentTokens(LeaseOf(s.workers[v]), LeaseOf(s.workers[w])))
  }

  predicate DifferentTokens(a: Option<Held>, b: Option<Held>) { a.Some? && b.Some? ==> a.value.token != b.value.token }

  predicate HeldIsSound(c: Config, s: State, h: Held) {
    h.slot < c.slots && h.token < s.nextToken && (s.now < h.expires ==> StillOwned(s, h))
  }

  predicate StillOwned(s: State, h: Held) { h.slot in s.leases && s.leases[h.slot] == Lease(h.token, h.expires) }

  /** With Redis configured nobody gets past the scan without a lease. */
  ghost predicate AllLeased(c: Config, s: State) {
    c.redis ==> forall w :: w in s.workers && (s.workers[w].Admitted? || IsInside(s.workers[w])) ==> LeaseOf(s.workers[w]).Some?
  }

  ghost predicate AttemptsBounded(c: Config, s: State) {
    forall w :: w in s.workers && IsInside(s.workers[w]) ==>
      1 <= s.workers[w].attempt <= c.retries && (s.workers[w].BackingOff? ==> s.workers[w].attempt < c.retries)
  }

  ghost predicate Inv(c: Config, s: State) {
    PermitsCounted(c, s) && LeasesOwned(c, s) && AllLeased(c, s) && AttemptsBounded(c, s)
  }

  lemma StartInv(c: Config, now: real)
    ensures Inv(c, Start(now))
  {
    forall p: nat ensures Inside(Start(now), p) == {} {
    }
  }

  // ---------------------------------------------------------------- permits

  lemma MoveOutside(s: State, w: Worker, phase: Phase)
    requires !IsInside(phase) && (w in s.workers ==> !IsInside(s.workers[w]))
    ensures forall p: nat :: Inside(Moved(s, w, phase), p) == Inside(s, p)
  {
  }

  lemma MoveInside(s: State, w: Worker, phase: Phase)
    requires IsInside(phase) && w in s.workers && IsInside(s.workers[w])
    ensures forall p: nat :: Inside(Moved(s, w, phase), p) == Inside(s, p)
  {
  }

  lemma MoveAcross(s: State, w: Worker, phase: Phase, p: nat)
    requires IsInside(phase) && w in s.workers && !IsInside(s.workers[w])
    ensures Inside(Moved(s, w, phase), p) == Inside(s, p) + if p == w.process then {w} else {}
    ensures w !in Inside(s, p)
  {
    hide IsInside;
  }

  lemma MoveBack(s: State, w: Worker, phase: Phase, p: nat)
    requires !IsInside(phase) && w in s.workers && IsInside(s.workers[w])
    ensures Inside(s, p) == Inside(Moved(s, w, phase), p) + if p == w.process then {w} else {}
    ensures w !in Inside(Moved(s, w, phase), p)
  {
    hide IsInside;
  }

  lemma MoveIn(s: State, w: Worker, phase: Phase)
    requires IsInside(phase) && w in s.workers && !IsInside(s.workers[w])
    ensures forall p: nat :: |Inside(Moved(s, w, phase), p)| == |Inside(s, p)| + if p == w.process then 1 else 0
  {
    hide Inside, IsInside, Moved;
    forall p: nat
      ensures |Inside(Moved(s, w, phase), p)| == |Inside(s, p)| + if p == w.process then 1 else 0
    {
      MoveAcross(s, w, phase, p);
    }
  }

  lemma MoveOut(s: State, w: Worker, phase: Phase)
    requires !IsInside(phase) && w in s.workers && IsInside(s.workers[w])
    ensures forall p: nat :: |Inside(s, p)| == |Inside(Moved(s, w, phase), p)| + if p == w.process then 1 else 0
  {
    hide Inside, IsInside, Moved;
    forall p: nat
      ensures |Inside(s, p)| == |Inside(Moved(s, w, phase), p)| + if p == w.process then 1 else 0
    {
      MoveBack(s, w, phase, p);
    }
  }

  lemma SameWorkersSameInside(s: State, t: State)
    requires s.workers == t.workers
    ensures forall p: nat :: Inside(s, p) == Inside(t, p)
  {
  }

  lemma StepCountsPermits(c: Config, s: State, step: Step)
    requires PermitsCounted(c, s) && Enabled(c, s, step)
    ensures PermitsCounted(c, Next(c, s, step))
  {
    var after := Next(c, s, step);
    match step
    case Tick(_) =>
      SameWorkersSameInside(s, after);
    case TakePermit(w) =>
      var t := s.(used := s.used[w.process := UsedPermits(s, w.process) + 1]);
      SameWorkersSameInside(s, t);
      MoveIn(t, w, after.workers[w]);
      hide Inside;
    case Operate(w, outcome) =>
      if after.workers[w].BackingOff? {
        MoveInside(s, w, after.workers[w]);
        hide Inside;
      } else {
        var t := PermitBack(s, w.process);
        SameWorkersSameInside(s, t);
        MoveOut(t, w, after.workers[w]);
        hide Inside;
      }
    case WakeToRetry(w) =>
      MoveInside(s, w, after.workers[w]);
      hide Inside;
    case _ =>
      var t := after.(workers := s.workers);
      SameWorkersSameInside(s, t);
      MoveOutside(t, step.w, after.workers[step.w]);
      assert Moved(t, step.w, after.workers[step.w]).workers == after.workers;
      SameWorkersSameInside(Moved(t, step.w, after.workers[step.w]), after);
      hide Inside;
  }

  // ---------------------------------------------------------------- leases

  lemma MoveKeepsLeases(c: Config, s: State, w: Worker, phase: Phase)
    requires LeasesOwned(c, s)
    requires LeaseOf(phase).None? || (w in s.workers && LeaseOf(phase) == LeaseOf(s.workers[w]))
    ensures LeasesOwned(c, Moved(s, w, phase))
  {
    hide LeaseOf;
  }

  lemma TimeKeepsLeases(c: Config, s: State, passed: real)
    requires LeasesOwned(c, s) && passed >= 0.0
    ensures LeasesOwned(c, s.(now := s.now + passed))
  {
    hide LeaseOf;
  }

  /** Taking a free slot touches no unexpired lease: its holder would still own the slot. */
  lemma TakingAFreeSlotKeepsLeases(c: Config, s: State, slot: nat)
    requires LeasesOwned(c, s) && IsFree(s, slot)
    ensures LeasesOwned(c, Leased(c, s, slot))
    ensures forall w :: w in s.workers && LeaseOf(s.workers[w]).Some? ==> LeaseOf(s.workers[w]).value.token < s.nextToken
  {
    hide LeaseOf;
  }

  lemma NewHolderKeepsLeases(c: Config, s: State, w: Worker, slot: nat)
    requires LeasesOwned(c, s) && IsFree(s, slot) && slot < c.slots && w in s.workers
    ensures LeasesOwned(c, Moved(Leased(c, s, slot), w, Admitted(Some(Held(slot, s.nextToken, s.now + c.leaseTime)))))
  {
    TakingAFreeSlotKeepsLeases(c, s, slot);
    var held := Held(slot, s.nextToken, s.now + c.leaseTime);
    assert LeaseOf(Admitted(Some(held))) == Some(held);
    hide LeaseOf;
  }

  /** A release, however late, leaves every other worker's lease as it is. */
  lemma LateReleaseHarmsNobody(c: Config, s: State, w: Worker, v: Worker)
    requires LeasesOwned(c, s) && w in s.workers && v in s.workers && v != w
    requires LeaseOf(s.workers[w]).Some? && LeaseOf(s.workers[v]).Some?
    ensures StillOwned(s, LeaseOf(s.workers[v]).value) ==>
      StillOwned(Released(s, LeaseOf(s.workers[w]).value), LeaseOf(s.workers[v]).value)
  {
    assert DifferentTokens(LeaseOf(s.workers[w]), LeaseOf(s.workers[v]));
  }

  lemma ReleaseKeepsLeases(c: Config, s: State, w: Worker, held: Held, phase: Phase)
    requires LeasesOwned(c, s) && w in s.workers && LeaseOf(s.workers[w]) == Some(held) && LeaseOf(phase).None?
    ensures LeasesOwned(c, Moved(Released(s, held), w, phase))
  {
    var t := Released(s, held);
    forall v | v in s.workers && v != w && LeaseOf(s.workers[v]).Some?
      ensures HeldIsSound(c, t, LeaseOf(s.workers[v]).value)
    {
      LateReleaseHarmsNobody(c, s, w, v);
    }
    hide LeaseOf, Released, HeldIsSound;
  }

  lemma UsedDoesNotMatter(c: Config, s: State, used: map<nat, nat>)
    requires LeasesOwned(c, s)
    ensures LeasesOwned(c, s.(used := used))
  {
    hide LeaseOf;
  }

  lemma StepKeepsLeases(c: Config, s: State, step: Step)
    requires LeasesOwned(c, s) && Enabled(c, s, step)
    ensures LeasesOwned(c, Next(c, s, step))
  {
    hide LeasesOwned, Leased, Released, MinReal, MaxReal;
    var after := Next(c, s, step);
    match step
    case Tick(passed) =>
      TimeKeepsLeases(c, s, passed);
    case TrySlot(w) =>
      if IsFree(s, s.workers[w].slot) {
        NewHolderKeepsLeases(c, s, w, s.workers[w].slot);
      } else {
        MoveKeepsLeases(c, s, w, after.workers[w]);
      }
    case LoseAnswer(w, stored) =>
      if stored {
        TakingAFreeSlotKeepsLeases(c, s, s.workers[w].slot);
        MoveKeepsLeases(c, Leased(c, s, s.workers[w].slot), w, Gone(false));
      } else {
        MoveKeepsLeases(c, s, w, Gone(false));
      }
    case ReleaseLease(w, answered) =>
      var held := s.workers[w].held;
      if held.Some? && answered {
        ReleaseKeepsLeases(c, s, w, held.value, after.workers[w]);
      } else {
        MoveKeepsLeases(c, s, w, after.workers[w]);
      }
    case _ =>
      UsedDoesNotMatter(c, s, after.used);
      MoveKeepsLeases(c, s.(used := after.used), step.w, after.workers[step.w]);
  }

  lemma StepBoundsAttempts(c: Config, s: State, step: Step)
    requires ValidConfig(c) && AttemptsBounded(c, s) && AllLeased(c, s) && Enabled(c, s, step)
    ensures AttemptsBounded(c, Next(c, s, step)) && AllLeased(c, Next(c, s, step))
  {
  }

  lemma StepKeepsInv(c: Config, s: State, step: Step)
    requires ValidConfig(c) && Inv(c, s) && Enabled(c, s, step)
    ensures Inv(c, Next(c, s, step))
  {
    StepCountsPermits(c, s, step);
    StepKeepsLeases(c, s, step);
    StepBoundsAttempts(c, s, step);
    hide PermitsCounted, LeasesOwned, AllLeased, AttemptsBounded, Next;
  }

  lemma {:induction false} RunKeepsInv(c: Config, s: State, steps: seq<Step>)
    requires ValidConfig(c) && Inv(c, s) && IsRun(c, s, steps)
    ensures Inv(c, Run(c, s, steps))
    decreases |steps|
  {
    hide Inv, Enabled, Next;
    if steps != [] {
      StepKeepsInv(c, s, steps[0]);
      RunKeepsInv(c, Next(c, s, steps[0]), steps[1..]);
    }
  }

  // ---------------------------------------------------------------- the two limits

  /** In every run at most `permits` uploads are under way in one process. */
  lemma NoProcessExceedsItsPermits(c: Config, now: real, steps: seq<Step>, process: nat)
    requires ValidConfig(c) && IsRun(c, Start(now), steps)
    ensures |Inside(Run(c, Start(now), steps), process)| <= c.permits
  {
    StartInv(c, now);
    RunKeepsInv(c, Start(now), steps);
    assert UsedPermits(Run(c, Start(now), steps), process) <= c.permits;
  }

  predicate IsLive(s: State, phase: Phase) { LeaseOf(phase).Some? && s.now < LeaseOf(phase).value.expires }

  /** Workers whose lease has not run out. */
  function LiveHolders(s: State): set<Worker> { set w | w in s.workers && IsLive(s, s.workers[w]) }

  /** Workers still uploading after their lease ran out. */
  function Overdue(s: State): set<Worker> {
    set w | w in AllInside(s) && LeaseOf(s.workers[w]).Some? && LeaseOf(s.workers[w]).value.expires <= s.now
  }

  lemma LiveHoldersDiffer(c: Config, s: State, v: Worker, w: Worker)
    requires LeasesOwned(c, s) && v in LiveHolders(s) && w in LiveHolders(s) && v != w
    ensures LeaseOf(s.workers[v]).value.slot != LeaseOf(s.workers[w]).value.slot
  {
    hide LeaseOf;
    assert DifferentTokens(LeaseOf(s.workers[v]), LeaseOf(s.workers[w]));
  }

  /** Workers with pairwise different slots below n are at most n. */
  lemma {:induction false} DistinctSlots(some: set<Worker>, slotOf: map<Worker, nat>, n: nat)
    requires forall w :: w in some ==> w in slotOf && slotOf[w] < n
    requires forall v, w :: v in some && w in some && v != w ==> slotOf[v] != slotOf[w]
    ensures |some| <= n
  {
    if n == 0 {
      assert some == {};
    } else {
      var last := set w | w in some && slotOf[w] == n - 1;
      AtMostOne(last, slotOf, n - 1);
      DistinctSlots(some - last, slotOf, n - 1);
      assert some == (some - last) + last;
    }
  }

  lemma AtMostOne(some: set<Worker>, slotOf: map<Worker, nat>, slot: nat)
    requires forall w :: w in some ==> w in slotOf && slotOf[w] == slot
    requires forall v, w :: v in some && w in some && v != w ==> slotOf[v] != slotOf[w]
    ensures |some| <= 1
  {
    if some != {} {
      var w :| w in some;
      assert some == {w};
    }
  }

  lemma LiveHoldersFitTheSlots(c: Config, s: State)
    requires LeasesOwned(c, s)
    ensures |LiveHolders(s)| <= c.slots
  {
    var slotOf := map w | w in LiveHolders(s) :: LeaseOf(s.workers[w]).value.slot;
    forall v, w | v in LiveHolders(s) && w in LiveHolders(s) && v != w
      ensures slotOf[v] != slotOf[w]
    {
      LiveHoldersDiffer(c, s, v, w);
    }
    DistinctSlots(LiveHolders(s), slotOf, c.slots);
  }

  /** Over all processes together, uploads exceed the slots at most by the overdue ones. */
  lemma UploadsExceedSlotsOnlyByOverdueOnes(c: Config, now: real, steps: seq<Step>)
    requires ValidConfig(c) && c.redis && IsRun(c, Start(now), steps)
    ensures var s := Run(c, Start(now), steps); |AllInside(s)| <= c.slots + |Overdue(s)|
  {
    var s := Run(c, Start(now), steps);
    StartInv(c, now);
    RunKeepsInv(c, Start(now), steps);
    LiveHoldersFitTheSlots(c, s);
    assert AllInside(s) <= LiveHolders(s) + Overdue(s);
    hide AllInside, LiveHolders, Overdue, Inside;
    Subset(AllInside(s), LiveHolders(s) + Overdue(s));
  }

  lemma {:induction false} Subset(a: set<Worker>, b: set<Worker>)
    requires a <= b
    ensures |a| <= |b|
  {
    assert b == a + (b - a);
  }

  // ---------------------------------------------------------------- progress

  /** The step a worker takes next, and how long it has to wait for it. */
  function NextMove(c: Config, s: State, w: Worker): (real, Step)
    requires w in s.workers
  {
    match s.workers[w]
    case Scanning(slot, _) => (0.0, if slot < c.slots then TrySlot(w) else CheckDeadline(w))
    case Resting(_, until) => (MaxReal(0.0, until - s.now), WakeToScan(w))
    case Admitted(_) => (0.0, TakePermit(w))
    case Uploading(_, _) => (0.0, Operate(w, Uploaded))
    case BackingOff(_, _, until) => (MaxReal(0.0, until - s.now), WakeToRetry(w))
    case _ => (0.0, ReleaseLease(w, true))
  }

  ghost predicate CanMove(c: Config, s: State, w: Worker) {
    && w in s.workers && !s.workers[w].Gone?
    && var (wait, step) := NextMove(c, s, w);
       Enabled(c, s.(now := s.now + wait), step)
  }

  /** A worker waits for another one only at the semaphore, and only for one that can move. */
  lemma OnlyPermitsBlock(c: Config, s: State, w: Worker) returns (mover: Worker)
    requires ValidConfig(c) && Inv(c, s) && w in s.workers && !s.workers[w].Gone?
    ensures CanMove(c, s, mover)
    ensures mover == w || (s.workers[w].Admitted? && mover.process == w.process && IsInside(s.workers[mover]))
  {
    if s.workers[w].Admitted? && UsedPermits(s, w.process) >= c.permits {
      assert |Inside(s, w.process)| >= 1;
      assert Inside(s, w.process) != {};
      mover :| mover in Inside(s, w.process);
    } else {
      mover := w;
    }
  }

  /** Own steps a worker still needs once it is past the scan. */
  function Remaining(c: Config, phase: Phase): nat
    requires phase.BackingOff? || phase.Uploading? ==> phase.attempt <= c.retries
  {
    match phase
    case Admitted(_) => 2 * c.retries + 2
    case Uploading(_, attempt) => 2 * (c.retries - attempt) + 2
    case BackingOff(_, attempt, _) => 2 * (c.retries - attempt) + 1
    case Leaving(_, _) => 1
    case _ => 0
  }

  predicate PastTheScan(phase: Phase) { !phase.Scanning? && !phase.Resting? }

  predicate Concerns(step: Step, w: Worker) { !step.Tick? && step.w == w }

  /** Every own step brings an admitted worker closer to the end; other steps change nothing. */
  lemma OwnStepsAreBounded(c: Config, s: State, step: Step, w: Worker)
    requires ValidConfig(c) && Inv(c, s) && Enabled(c, s, step) && w in s.workers && PastTheScan(s.workers[w])
    ensures AttemptsBounded(c, Next(c, s, step))
    ensures var after := Next(c, s, step);
            && w in after.workers && PastTheScan(after.workers[w])
            && if Concerns(step, w) then Remaining(c, after.workers[w]) < Remaining(c, s.workers[w])
               else after.workers[w] == s.workers[w]
  {
    StepBoundsAttempts(c, s, step);
    hide PermitsCounted, LeasesOwned;
  }

  // ---------------------------------------------------------------- one upload with retries

  /** 1 + 2 + ... + n */
  function Sum(n: nat): nat { if n == 0 then 0 else n + Sum(n - 1) }

  lemma {:induction false} SumIsHalfAProduct(n: nat)
    ensures 2 * Sum(n) == n * (n + 1)
  {
    if n > 0 {
      SumIsHalfAProduct(n - 1);
    }
  }

  lemma {:induction false} SumGrows(m: nat, n: nat)
    requires m <= n
    ensures Sum(m) <= Sum(n)
  {
    if m < n {
      SumGrows(m, n - 1);
    }
  }

  /** Total sleep before attempt n + 1. */
  function Slept(delay: real, n: nat): real { delay * Sum(n) as real }

  lemma OneMoreSleep(delay: real, n: nat)
    requires n >= 1
    ensures Slept(delay, n) == Slept(delay, n - 1) + delay * n as real && Slept(delay, 0) == 0.0
  {
    assert Sum(n) as real == Sum(n - 1) as real + n as real;
  }

  /** The retry loop inside lease and permit: it answers with the first outcome that is not a
      connection limit, or the last allowed one, and sleeps a growing time in between. */
  method RunUpload(c: Config, outcome: nat -> Outcome) returns (result: Outcome, attempts: nat, slept: real)
    requires ValidConfig(c)
    ensures 1 <= attempts <= c.retries && result == outcome(attempts)
    ensures forall i | 1 <= i < attempts :: outcome(i) == ConnectionLimit
    ensures result == ConnectionLimit ==> attempts == c.retries
    ensures slept == Slept(c.delay, attempts - 1) && slept <= c.delay * Pairs(c.retries) as real
  {
    hide Slept, Sum, Pairs;
    OneMoreSleep(c.delay, 1);
    slept := 0.0;
    attempts := 1;
    while true
      invariant 1 <= attempts <= c.retries
      invariant forall i | 1 <= i < attempts :: outcome(i) == ConnectionLimit
      invariant slept == Slept(c.delay, attempts - 1)
      decreases c.retries - attempts
    {
      result := outcome(attempts);
      if !result.ConnectionLimit? || attempts >= c.retries {
        TotalBackOff(c, attempts);
        return;
      }
      OneMoreSleep(c.delay, attempts);
      slept := slept + c.delay * attempts as real;
      attempts := attempts + 1;
    }
  }

  /** The number of pairs below n. */
  function Pairs(n: nat): nat { n * (n - 1) / 2 }

  lemma PairsAreASum(n: nat)
    requires n >= 1
    ensures Pairs(n) == Sum(n - 1)
  {
    SumIsHalfAProduct(n - 1);
    hide Sum;
  }

  lemma TotalBackOff(c: Config, attempts: nat)
    requires ValidConfig(c) && 1 <= attempts <= c.retries
    ensures Slept(c.delay, attempts - 1) <= c.delay * Pairs(c.retries) as real
  {
    hide Pairs, Sum;
    SumGrows(attempts - 1, c.retries - 1);
    PairsAreASum(c.retries);
    ScaledGrows(c.delay, Sum(attempts - 1) as real, Sum(c.retries - 1) as real);
  }

  lemma ScaledGrows(d: real, a: real, b: real)
    requires d >= 0.0 && a <= b
    ensures d * a <= d * b
  {
  }
}
