/** Uploads that outlive their lease: how many more than the slots allow can be under way. */
module FtpOverruns {
  import opened Wrappers
  import opened FtpAdmission

  // ---------------------------------------------------------------- one attempt

  predicate Holds(s: State, w: Worker, slot: nat) {
    w in s.workers && LeaseOf(s.workers[w]).Some? && LeaseOf(s.workers[w]).value.slot == slot
  }

  /** The slot's key is alive but is no worker's: its taker never learned of it, or its release
      got lost. */
  ghost predicate Abandoned(s: State, slot: nat) {
    !IsFree(s, slot) && forall w :: Holds(s, w, slot) ==> !StillOwned(s, LeaseOf(s.workers[w]).value)
  }

  /** A worker gets the slot it tries exactly when everybody still holding it is overdue and its
      key is not abandoned. */
  lemma SlotIsTakenExactly(c: Config, s: State, w: Worker)
    requires LeasesOwned(c, s) && Enabled(c, s, TrySlot(w))
    ensures Next(c, s, TrySlot(w)).workers[w].Admitted? <==>
      && !Abandoned(s, s.workers[w].slot)
      && forall v :: Holds(s, v, s.workers[w].slot) ==> LeaseOf(s.workers[v]).value.expires <= s.now
  {
    hide LeaseOf;
  }

  // ---------------------------------------------------------------- runs, end to end

  ghost predicate Reaches(c: Config, s: State, t: State) {
    exists steps :: IsRun(c, s, steps) && Run(c, s, steps) == t
  }

  lemma {:induction false} Concatenation(c: Config, s: State, a: seq<Step>, b: seq<Step>)
    requires IsRun(c, s, a) && IsRun(c, Run(c, s, a), b)
    ensures IsRun(c, s, a + b) && Run(c, s, a + b) == Run(c, Run(c, s, a), b)
    decreases |a|
  {
    hide Enabled, Next;
    if a == [] {
      assert a + b == b;
    } else {
      Concatenation(c, Next(c, s, a[0]), a[1..], b);
      assert (a + b)[1..] == a[1..] + b;
    }
  }

  lemma Onward(c: Config, s: State, t: State, u: State)
    requires Reaches(c, s, t) && Reaches(c, t, u)
    ensures Reaches(c, s, u)
  {
    var a :| IsRun(c, s, a) && Run(c, s, a) == t;
    var b :| IsRun(c, t, b) && Run(c, t, b) == u;
    hide IsRun, Run;
    Concatenation(c, s, a, b);
  }

  lemma OneStep(c: Config, s: State, step: Step)
    requires Enabled(c, s, step)
    ensures Reaches(c, s, Next(c, s, step))
  {
    hide Enabled, Next;
    assert [step][1..] == [];
    assert IsRun(c, Next(c, s, step), []);
    assert IsRun(c, s, [step]) && Run(c, s, [step]) == Next(c, s, step);
  }

  /** A scan passes the taken slots. */
  lemma {:induction false} ScanGoesOn(c: Config, s: State, w: Worker, slot: nat, deadline: real)
    requires w in s.workers && s.workers[w] == Scanning(0, deadline) && slot <= c.slots
    requires forall k: nat :: k < slot ==> !IsFree(s, k)
    ensures Reaches(c, s, Moved(s, w, Scanning(slot, deadline)))
  {
    if slot == 0 {
      assert Moved(s, w, Scanning(0, deadline)) == s;
      assert IsRun(c, s, []) && Run(c, s, []) == s;
    } else {
      ScanGoesOn(c, s, w, slot - 1, deadline);
      var t := Moved(s, w, Scanning(slot - 1, deadline));
      assert !IsFree(s, slot - 1) && !IsFree(t, slot - 1);
      assert Next(c, t, TrySlot(w)) == Moved(s, w, Scanning(slot, deadline));
      hide Next, Reaches;
      OneStep(c, t, TrySlot(w));
      Onward(c, s, t, Moved(s, w, Scanning(slot, deadline)));
    }
  }

  /** A worker that holds this slot and a permit. */
  function Entered(c: Config, s: State, w: Worker, slot: nat): State {
    State(s.now, s.workers[w := Uploading(Some(Held(slot, s.nextToken, s.now + c.leaseTime)), 1)],
          s.leases[slot := Lease(s.nextToken, s.now + c.leaseTime)], s.used[w.process := 1], s.nextToken + 1)
  }

  /** A newcomer gets the first free slot and a permit of its process. */
  lemma NewcomerEnters(c: Config, s: State, w: Worker, slot: nat)
    requires ValidConfig(c) && c.redis && w !in s.workers && UsedPermits(s, w.process) == 0 && slot < c.slots
    requires IsFree(s, slot) && forall k: nat :: k < slot ==> !IsFree(s, k)
    ensures Reaches(c, s, Entered(c, s, w, slot))
  {
    var deadline := s.now + c.waitTime;
    var s1 := Moved(s, w, Scanning(0, deadline));
    var s2 := Moved(s, w, Scanning(slot, deadline));
    var s3 := Next(c, s2, TrySlot(w));
    assert Next(c, s, Arrive(w)) == s1;
    assert Moved(s1, w, Scanning(slot, deadline)) == s2;
    forall k: nat | k < slot
      ensures !IsFree(s1, k)
    {
      assert !IsFree(s, k);
    }
    assert Next(c, s3, TakePermit(w)) == Entered(c, s, w, slot);
    hide Next, Reaches, Entered, IsFree;
    OneStep(c, s, Arrive(w));
    ScanGoesOn(c, s1, w, slot, deadline);
    OneStep(c, s2, TrySlot(w));
    OneStep(c, s3, TakePermit(w));
    Onward(c, s, s1, s2);
    Onward(c, s, s2, s3);
    Onward(c, s, s3, Entered(c, s, w, slot));
  }

  // ---------------------------------------------------------------- a crowd

  function Nth(i: nat): Worker { Worker(i, i) }

  /** The first n workers, each of a process of its own. */
  function FirstWorkers(n: nat): (some: set<Worker>)
    ensures |some| == n
    ensures forall w :: w in some <==> w.process == w.number < n
  {
    if n == 0 then {}
    else
      assert Nth(n - 1) !in FirstWorkers(n - 1);
      FirstWorkers(n - 1) + {Nth(n - 1)}
  }

  ghost predicate AllUploading(s: State, late: nat, timely: nat) {
    && (forall w :: w in s.workers <==> w in FirstWorkers(late + timely))
    && (forall w :: w in s.workers ==> UploadsFrom(s, w, late))
  }

  /** The workers numbered below `late` upload overdue, the others in time. */
  predicate UploadsFrom(s: State, w: Worker, late: nat)
    requires w in s.workers
  {
    && s.workers[w].Uploading? && s.workers[w].held.Some?
    && (s.workers[w].held.value.expires <= s.now <==> w.number < late)
  }

  ghost predicate SlotsTaken(s: State, n: nat) {
    forall slot: nat :: IsFree(s, slot) <==> slot >= n
  }

  ghost predicate PermitsUntaken(s: State, n: nat) {
    forall p: nat :: p >= n ==> UsedPermits(s, p) == 0
  }

  /** The first `late` workers upload overdue, the next `timely` ones in time on the slots from 0 up. */
  ghost predicate Crowd(s: State, late: nat, timely: nat) {
    AllUploading(s, late, timely) && SlotsTaken(s, timely) && PermitsUntaken(s, late + timely)
  }

  lemma CrowdCounts(s: State, late: nat, timely: nat)
    requires AllUploading(s, late, timely)
    ensures |AllInside(s)| == late + timely && |Overdue(s)| == late
  {
    assert AllInside(s) == FirstWorkers(late + timely);
    assert Overdue(s) == FirstWorkers(late);
  }

  lemma NewcomerUploads(c: Config, s: State, late: nat, timely: nat)
    requires ValidConfig(c) && AllUploading(s, late, timely)
    ensures AllUploading(Entered(c, s, Nth(late + timely), timely), late, timely + 1)
  {
    var t := Entered(c, s, Nth(late + timely), timely);
    hide FirstWorkers;
    forall w | w in t.workers
      ensures UploadsFrom(t, w, late)
    {
      assert w != Nth(late + timely) ==> UploadsFrom(s, w, late);
    }
  }

  lemma NewcomerTakesASlot(c: Config, s: State, w: Worker, slot: nat)
    requires ValidConfig(c) && SlotsTaken(s, slot)
    ensures SlotsTaken(Entered(c, s, w, slot), slot + 1)
  {
    var t := Entered(c, s, w, slot);
    forall k: nat
      ensures IsFree(t, k) <==> k >= slot + 1
    {
      assert IsFree(s, k) <==> k >= slot;
    }
  }

  lemma NewcomerTakesAPermit(c: Config, s: State, n: nat, slot: nat)
    requires PermitsUntaken(s, n)
    ensures PermitsUntaken(Entered(c, s, Nth(n), slot), n + 1)
  {
    var t := Entered(c, s, Nth(n), slot);
    forall p: nat | p >= n + 1
      ensures UsedPermits(t, p) == 0
    {
      assert UsedPermits(s, p) == 0;
    }
  }

  lemma OneMoreTimely(c: Config, s: State, late: nat, timely: nat)
    requires ValidConfig(c) && c.redis && Crowd(s, late, timely) && timely < c.slots
    ensures Reaches(c, s, Entered(c, s, Nth(late + timely), timely))
    ensures Crowd(Entered(c, s, Nth(late + timely), timely), late, timely + 1)
  {
    NewcomerUploads(c, s, late, timely);
    NewcomerTakesASlot(c, s, Nth(late + timely), timely);
    NewcomerTakesAPermit(c, s, late + timely, timely);
    assert UsedPermits(s, late + timely) == 0 && IsFree(s, timely);
    hide Reaches, AllUploading, PermitsUntaken, Entered, UsedPermits, IsFree;
    NotYetThere(s, late, timely);
    NewcomerEnters(c, s, Nth(late + timely), timely);
  }

  lemma NotYetThere(s: State, late: nat, timely: nat)
    requires AllUploading(s, late, timely)
    ensures Nth(late + timely) !in s.workers
  {
    hide FirstWorkers;
  }

  /** The lease of the only timely worker runs out. */
  lemma OneMoreLate(c: Config, s: State, late: nat)
    requires ValidConfig(c) && c.redis && Crowd(s, late, 0)
    ensures Reaches(c, s, Later(c, s, late)) && Crowd(Later(c, s, late), late + 1, 0)
  {
    var t := Entered(c, s, Nth(late), 0);
    LateCrowd(c, s, late);
    OneMoreTimely(c, s, late, 0);
    assert Next(c, t, Tick(c.leaseTime)) == Later(c, s, late);
    hide Reaches, Next, Crowd, Entered, Later;
    OneStep(c, t, Tick(c.leaseTime));
    Onward(c, s, t, Later(c, s, late));
  }

  lemma LateCrowd(c: Config, s: State, late: nat)
    requires ValidConfig(c) && Crowd(s, late, 0)
    ensures Crowd(Later(c, s, late), late + 1, 0)
  {
    var t, u := Entered(c, s, Nth(late), 0), Later(c, s, late);
    NewcomerUploads(c, s, late, 0);
    NewcomerTakesAPermit(c, s, late, 0);
    hide FirstWorkers;
    forall w | w in u.workers
      ensures UploadsFrom(u, w, late + 1)
    {
      assert UploadsFrom(t, w, late);
      assert w != Nth(late) ==> UploadsFrom(s, w, late);
    }
    forall k: nat
      ensures IsFree(u, k)
    {
      assert IsFree(s, k);
    }
    forall p: nat | p >= late + 1
      ensures UsedPermits(u, p) == 0
    {
      assert UsedPermits(t, p) == 0;
    }
  }

  function Later(c: Config, s: State, late: nat): State {
    var t := Entered(c, s, Nth(late), 0);
    t.(now := t.now + c.leaseTime)
  }

  ghost predicate CrowdReached(c: Config, now: real, late: nat, timely: nat) {
    exists s :: Reaches(c, Start(now), s) && Crowd(s, late, timely)
  }

  lemma NoCrowd(c: Config, now: real)
    ensures Reaches(c, Start(now), Start(now)) && Crowd(Start(now), 0, 0)
  {
    assert IsRun(c, Start(now), []) && Run(c, Start(now), []) == Start(now);
  }

  lemma {:induction false} CrowdsForm(c: Config, now: real, late: nat, timely: nat)
    requires ValidConfig(c) && c.redis && timely <= c.slots
    ensures CrowdReached(c, now, late, timely)
    decreases late + timely
  {
    hide Reaches, Crowd, Start, Entered, Later, ValidConfig;
    if timely > 0 {
      CrowdsForm(c, now, late, timely - 1);
      var s :| Reaches(c, Start(now), s) && Crowd(s, late, timely - 1);
      OneMoreTimely(c, s, late, timely - 1);
      Onward(c, Start(now), s, Entered(c, s, Nth(late + timely - 1), timely - 1));
    } else if late > 0 {
      CrowdsForm(c, now, late - 1, 0);
      var s :| Reaches(c, Start(now), s) && Crowd(s, late - 1, 0);
      OneMoreLate(c, s, late - 1);
      Onward(c, Start(now), s, Later(c, s, late - 1));
    } else {
      NoCrowd(c, now);
    }
  }

  /** Some run has this many uploads under way, this many of them overdue. */
  ghost predicate Possible(c: Config, now: real, uploads: nat, late: nat) {
    exists steps :: IsRun(c, Start(now), steps)
      && |AllInside(Run(c, Start(now), steps))| == uploads && |Overdue(Run(c, Start(now), steps))| == late
  }

  lemma PossibleOnlyWithin(c: Config, now: real, uploads: nat, late: nat)
    requires ValidConfig(c) && c.redis && Possible(c, now, uploads, late)
    ensures late <= uploads <= c.slots + late
  {
    var steps :| IsRun(c, Start(now), steps)
      && |AllInside(Run(c, Start(now), steps))| == uploads && |Overdue(Run(c, Start(now), steps))| == late;
    UploadsExceedSlotsOnlyByOverdueOnes(c, now, steps);
    var s := Run(c, Start(now), steps);
    assert Overdue(s) <= AllInside(s);
    hide *;
    Subset(Overdue(s), AllInside(s));
  }

  lemma PossibleUpTo(c: Config, now: real, timely: nat, late: nat)
    requires ValidConfig(c) && c.redis && timely <= c.slots
    ensures Possible(c, now, late + timely, late)
  {
    CrowdsForm(c, now, late, timely);
    var s :| Reaches(c, Start(now), s) && Crowd(s, late, timely);
    var steps :| IsRun(c, Start(now), steps) && Run(c, Start(now), steps) == s;
    hide IsRun, Run, Start, AllUploading;
    CrowdCounts(s, late, timely);
  }

  /** Uploads can exceed the slots by as many as are overdue, and by no more, for every limit. */
  lemma UploadsUnderWayExactly(c: Config, now: real, uploads: nat, late: nat)
    requires ValidConfig(c) && c.redis
    ensures Possible(c, now, uploads, late) <==> late <= uploads <= c.slots + late
  {
    hide Possible;
    if Possible(c, now, uploads, late) {
      PossibleOnlyWithin(c, now, uploads, late);
    }
    if late <= uploads <= c.slots + late {
      PossibleUpTo(c, now, uploads - late, late);
    }
  }
}
