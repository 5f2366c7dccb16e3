/** Giving a slot back: what an answered release does to the keys, and that in orderly runs the
    keys alive are exactly the slots in use. */
module FtpLeases {
  import opened Wrappers
  import opened FtpAdmission
  import opened FtpOverruns

  predicate KeyAlive(s: State, slot: nat) { slot in s.leases && s.now < s.leases[slot].expires }

  /** Every key but this one is as it was. */
  ghost predicate OtherKeysStay(before: State, after: State, slot: nat) {
    && (forall k: nat :: k != slot ==> (k in after.leases <==> k in before.leases))
    && (forall k: nat :: k != slot && k in before.leases && k in after.leases ==> after.leases[k] == before.leases[k])
  }

  // ---------------------------------------------------------------- one release

  /** An answered release of a lease that has not run out frees its slot at once, and touches no
      other key. */
  lemma ReleaseFreesTheSlot(c: Config, s: State, w: Worker)
    requires LeasesOwned(c, s) && Enabled(c, s, ReleaseLease(w, true))
    requires s.workers[w].held.Some? && s.now < s.workers[w].held.value.expires
    ensures var slot := s.workers[w].held.value.slot;
            var after := Next(c, s, ReleaseLease(w, true));
            && slot !in after.leases && OtherKeysStay(s, after, slot)
            && after.workers == s.workers[w := Gone(s.workers[w].uploaded)]
  {
    assert LeaseOf(s.workers[w]).Some?;
    hide LeaseOf;
  }

  // ---------------------------------------------------------------- orderly runs

  /** No answer of the lock server is lost. */
  predicate Answered(step: Step) { !step.LoseAnswer? && (step.ReleaseLease? ==> step.answered) }

  /** Nobody outlives its lease. */
  ghost predicate NobodyOverdue(s: State) {
    forall w :: w in s.workers && LeaseOf(s.workers[w]).Some? ==> s.now < LeaseOf(s.workers[w]).value.expires
  }

  ghost predicate Orderly(c: Config, s: State, steps: seq<Step>)
    requires IsRun(c, s, steps)
    decreases |steps|
  {
    NobodyOverdue(s) && (steps != [] ==> Answered(steps[0]) && Orderly(c, Next(c, s, steps[0]), steps[1..]))
  }

  /** Every key alive is the slot of a worker between scan and release. */
  ghost predicate NoKeyAbandoned(s: State) {
    forall slot: nat :: KeyAlive(s, slot) ==> exists w :: Holds(s, w, slot)
  }

  ghost predicate KeysAreSlotsInUse(s: State) {
    forall slot: nat :: KeyAlive(s, slot) <==> exists w :: Holds(s, w, slot)
  }

  /** A holder whose lease has not run out keeps its slot until its own release, which frees it. */
  lemma HolderStays(c: Config, s: State, step: Step, w: Worker, slot: nat)
    requires LeasesOwned(c, s) && NobodyOverdue(s) && Enabled(c, s, step) && Answered(step) && Holds(s, w, slot)
    ensures Holds(Next(c, s, step), w, slot) || !KeyAlive(Next(c, s, step), slot)
  {
    if step.ReleaseLease? && step.w == w {
      ReleaseFreesTheSlot(c, s, w);
    }
  }

  lemma NewKeysAreHeld(c: Config, s: State, step: Step, slot: nat)
    requires Enabled(c, s, step) && Answered(step) && !KeyAlive(s, slot) && KeyAlive(Next(c, s, step), slot)
    ensures step.TrySlot? && Holds(Next(c, s, step), step.w, slot)
  {
  }

  lemma StepAbandonsNoKey(c: Config, s: State, step: Step)
    requires LeasesOwned(c, s) && NoKeyAbandoned(s) && NobodyOverdue(s) && Enabled(c, s, step) && Answered(step)
    ensures NoKeyAbandoned(Next(c, s, step))
  {
    hide LeasesOwned, NobodyOverdue, Enabled, Next, Holds, Answered;
    var t := Next(c, s, step);
    forall slot: nat | KeyAlive(t, slot)
      ensures exists w :: Holds(t, w, slot)
    {
      if KeyAlive(s, slot) {
        var w :| Holds(s, w, slot);
        HolderStays(c, s, step, w, slot);
      } else {
        NewKeysAreHeld(c, s, step, slot);
      }
    }
  }

  lemma HoldersKeysAreAlive(c: Config, s: State)
    requires LeasesOwned(c, s) && NobodyOverdue(s) && NoKeyAbandoned(s)
    ensures KeysAreSlotsInUse(s)
  {
    forall slot: nat, w | Holds(s, w, slot)
      ensures KeyAlive(s, slot)
    {
      assert HeldIsSound(c, s, LeaseOf(s.workers[w]).value);
    }
    hide Holds, KeyAlive;
  }

  lemma {:induction false} OrderlyRunsAbandonNoKey(c: Config, s: State, steps: seq<Step>)
    requires ValidConfig(c) && Inv(c, s) && NoKeyAbandoned(s) && IsRun(c, s, steps) && Orderly(c, s, steps)
    ensures Inv(c, Run(c, s, steps)) && NobodyOverdue(Run(c, s, steps)) && NoKeyAbandoned(Run(c, s, steps))
    decreases |steps|
  {
    assert LeasesOwned(c, s);
    hide Inv, NoKeyAbandoned, NobodyOverdue, Enabled, Next, Answered, ValidConfig, LeasesOwned;
    if steps != [] {
      StepKeepsInv(c, s, steps[0]);
      StepAbandonsNoKey(c, s, steps[0]);
      OrderlyRunsAbandonNoKey(c, Next(c, s, steps[0]), steps[1..]);
    }
  }

  /** Over every run in which no answer is lost and nobody outlives its lease, the keys alive are
      exactly the slots of the workers between scan and release; so a worker that tries a slot is
      admitted exactly when nobody has it. */
  lemma KeysAreExactlyTheSlotsInUse(c: Config, now: real, steps: seq<Step>, w: Worker)
    requires ValidConfig(c) && IsRun(c, Start(now), steps) && Orderly(c, Start(now), steps)
    ensures var s := Run(c, Start(now), steps);
            && KeysAreSlotsInUse(s)
            && (Enabled(c, s, TrySlot(w)) ==>
                  (Next(c, s, TrySlot(w)).workers[w].Admitted? <==> forall v :: !Holds(s, v, s.workers[w].slot)))
  {
    StartInv(c, now);
    assert NoKeyAbandoned(Start(now));
    hide Start, IsRun, Run, Orderly, ValidConfig;
    OrderlyRunsAbandonNoKey(c, Start(now), steps);
    HoldersKeysAreAlive(c, Run(c, Start(now), steps));
    hide NobodyOverdue, NoKeyAbandoned, Inv, Holds;
    var s := Run(c, Start(now), steps);
    if Enabled(c, s, TrySlot(w)) {
      assert KeyAlive(s, s.workers[w].slot) <==> !IsFree(s, s.workers[w].slot);
    }
  }
}
