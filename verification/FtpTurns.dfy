/** What one worker goes through: how long it waits to be let in, and when it tries again. */
module FtpTurns {
  import opened Wrappers
  import opened FtpAdmission

  // ---------------------------------------------------------------- waiting

  predicate Waits(phase: Phase, deadline: real) {
    (phase.Scanning? || phase.Resting?) && phase.deadline == deadline
  }

  /** A rest lasts a fifth of a second, or up to the deadline if that is nearer. */
  predicate RestsBriefly(phase: Phase, now: real) {
    phase.Resting? && now <= phase.deadline
      && phase.until <= now + 0.2 && phase.until <= phase.deadline && (phase.until == now + 0.2 || phase.until == phase.deadline)
  }

  /** Where a waiting worker gets by its own step. */
  lemma OwnTurnWhileWaiting(c: Config, s: State, step: Step, w: Worker)
    requires Enabled(c, s, step) && Concerns(step, w) && w in s.workers && (s.workers[w].Scanning? || s.workers[w].Resting?)
    ensures var phase, deadline, after := s.workers[w], s.workers[w].deadline, Next(c, s, step).workers[w];
            && (step.TrySlot? && phase.slot in s.leases && s.now < s.leases[phase.slot].expires ==>
                  after == Scanning(phase.slot + 1, deadline))
            && (step.CheckDeadline? && s.now < deadline ==> Waits(after, deadline) && RestsBriefly(after, s.now))
            && (step.CheckDeadline? && deadline <= s.now ==> after == Gone(false))
            && (step.WakeToScan? ==> after == Scanning(0, deadline))
  {
  }

  lemma OthersLeaveItWaiting(c: Config, s: State, step: Step, w: Worker)
    requires Enabled(c, s, step) && !Concerns(step, w) && w in s.workers
    ensures w in Next(c, s, step).workers && Next(c, s, step).workers[w] == s.workers[w]
  {
  }

  /** The first wait of a run that ends without an admission or a lost answer. */
  ghost predicate NotLetIn(c: Config, s: State, steps: seq<Step>, w: Worker)
    requires IsRun(c, s, steps)
    decreases |steps|
  {
    && w in s.workers && !s.workers[w].Admitted?
    && (steps != [] ==> !(steps[0].LoseAnswer? && steps[0].w == w) && NotLetIn(c, Next(c, s, steps[0]), steps[1..], w))
  }

  lemma {:induction false} WaitingGoesOn(c: Config, s: State, steps: seq<Step>, w: Worker, deadline: real)
    requires IsRun(c, s, steps) && NotLetIn(c, s, steps, w)
    requires Waits(s.workers[w], deadline) || (s.workers[w] == Gone(false) && deadline <= s.now)
    ensures var end := Run(c, s, steps);
            w in end.workers && (Waits(end.workers[w], deadline) || (end.workers[w] == Gone(false) && deadline <= end.now))
    decreases |steps|
  {
    if steps != [] {
      TurnKeepsWaiting(c, s, steps[0], w, deadline);
      hide Enabled, Next, Waits;
      WaitingGoesOn(c, Next(c, s, steps[0]), steps[1..], w, deadline);
    }
  }

  lemma TurnKeepsWaiting(c: Config, s: State, step: Step, w: Worker, deadline: real)
    requires Enabled(c, s, step) && w in s.workers && !(step.LoseAnswer? && step.w == w)
    requires Waits(s.workers[w], deadline) || (s.workers[w] == Gone(false) && deadline <= s.now)
    requires w in Next(c, s, step).workers && !Next(c, s, step).workers[w].Admitted?
    ensures var end := Next(c, s, step);
            Waits(end.workers[w], deadline) || (end.workers[w] == Gone(false) && deadline <= end.now)
  {
  }

  /** With Redis a worker that is never let in waits for the whole waiting time: it gives up only
      when that has passed since it arrived. */
  lemma NobodyGivesUpEarly(c: Config, s: State, w: Worker, steps: seq<Step>)
    requires c.redis && Enabled(c, s, Arrive(w))
    requires IsRun(c, Next(c, s, Arrive(w)), steps) && NotLetIn(c, Next(c, s, Arrive(w)), steps, w)
    ensures var end := Run(c, Next(c, s, Arrive(w)), steps);
            && w in end.workers
            && (Waits(end.workers[w], s.now + c.waitTime) || (end.workers[w] == Gone(false) && s.now + c.waitTime <= end.now))
  {
    WaitingGoesOn(c, Next(c, s, Arrive(w)), steps, w, s.now + c.waitTime);
  }

  // ---------------------------------------------------------------- without Redis

  ghost predicate NothingLeased(s: State) {
    && s.leases == map[]
    && forall w :: w in s.workers ==> !s.workers[w].Scanning? && !s.workers[w].Resting? && LeaseOf(s.workers[w]).None?
  }

  lemma {:induction false} UnleasedRuns(c: Config, s: State, steps: seq<Step>)
    requires !c.redis && NothingLeased(s) && IsRun(c, s, steps)
    ensures NothingLeased(Run(c, s, steps))
    decreases |steps|
  {
    if steps != [] {
      StepLeasesNothing(c, s, steps[0]);
      hide NothingLeased, Enabled, Next;
      UnleasedRuns(c, Next(c, s, steps[0]), steps[1..]);
    }
  }

  lemma StepLeasesNothing(c: Config, s: State, step: Step)
    requires !c.redis && NothingLeased(s) && Enabled(c, s, step)
    ensures NothingLeased(Next(c, s, step))
  {
  }

  /** Without Redis nobody scans, rests or takes a lease, in any run: only the permits limit. */
  lemma WithoutRedisNobodyWaits(c: Config, now: real, steps: seq<Step>)
    requires !c.redis && IsRun(c, Start(now), steps)
    ensures NothingLeased(Run(c, Start(now), steps))
  {
    UnleasedRuns(c, Start(now), steps);
  }

  // ---------------------------------------------------------------- trying again

  /** An upload that meets a connection limit before its last attempt keeps lease and permit and
      waits the longer the more attempts it has made; every other outcome ends it and gives the
      permit back. */
  lemma AttemptGoesOnExactly(c: Config, s: State, w: Worker, outcome: Outcome)
    requires Inv(c, s) && Enabled(c, s, Operate(w, outcome))
    ensures var Uploading(held, attempt) := s.workers[w];
            var after := Next(c, s, Operate(w, outcome));
            && after.leases == s.leases
            && (outcome.ConnectionLimit? && attempt < c.retries ==>
                  after.workers[w] == BackingOff(held, attempt, s.now + c.delay * attempt as real) && after.used == s.used)
            && (!(outcome.ConnectionLimit? && attempt < c.retries) ==>
                  && after.workers[w] == Leaving(held, outcome == Uploaded)
                  && UsedPermits(after, w.process) == UsedPermits(s, w.process) - 1
                  && forall p: nat :: p != w.process ==> UsedPermits(after, p) == UsedPermits(s, p))
  {
    assert w in Inside(s, w.process);
    assert UsedPermits(s, w.process) == |Inside(s, w.process)|;
    hide LeasesOwned;
  }

  lemma RetryIsTheNextAttempt(c: Config, s: State, w: Worker)
    requires Enabled(c, s, WakeToRetry(w))
    ensures s.workers[w].until <= s.now
    ensures Next(c, s, WakeToRetry(w)).workers[w] == Uploading(s.workers[w].held, s.workers[w].attempt + 1)
  {
  }
}
