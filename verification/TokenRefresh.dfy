/** The access token of a browser session: one refresh at a time, at most one retry per request. */
module TokenRefresh {
  import opened Wrappers

  /** What a finished refresh told everybody who waited for it, and when. */
  datatype Refreshed = Refreshed(token: Option<string>, at: nat)

  /** Module variables: the token in memory, the refresh under way, all refreshes so far. */
  datatype Auth = Auth(memory: Option<string>, current: Option<nat>, results: map<nat, Refreshed>, started: nat)

  // ---------------------------------------------------------------- memory

  /** A token that is already there is kept; a blank one changes nothing. */
  function Saved(memory: Option<string>, token: string): Option<string> {
    if memory.Some? && token != "" && memory.value != token then memory
    else if token != "" then Some(token)
    else memory
  }

  /** Saving makes memory hold the given token exactly when no different one was there. */
  lemma SavingStoresExactly(memory: Option<string>, token: string)
    requires token != ""
    ensures Saved(memory, token) == Some(token) <==> memory.None? || memory == Some(token)
  {
  }

  /** The refresh to wait for: the one under way, or a new one. */
  function Joined(a: Auth): (Auth, nat) {
    if a.current.Some? then (a, a.current.value)
    else (a.(current := Some(a.started), started := a.started + 1), a.started)
  }

  /** The refresh under way ends: its token is saved, or on any failure memory is cleared. */
  function Completed(a: Auth, token: Option<string>, at: nat): Auth
    requires a.current.Some?
  {
    Auth(if token.Some? then Saved(a.memory, token.value) else None,
         None, a.results[a.current.value := Refreshed(token, at)], a.started)
  }

  /** The same variables updated in place, one method for each stretch between two awaits. */
  class AuthModule {
    var accessTokenMemory: Option<string>
    var refreshPromise: Option<nat>
    var results: map<nat, Refreshed>
    var started: nat

    function State(): Auth
      reads this
    {
      Auth(accessTokenMemory, refreshPromise, results, started)
    }

    constructor ()
      ensures State() == Auth(None, None, map[], 0)
    {
      accessTokenMemory, refreshPromise, results, started := None, None, map[], 0;
    }

    method SaveAuth(token: string)
      modifies this`accessTokenMemory
      ensures State() == old(State()).(memory := Saved(old(accessTokenMemory), token))
    {
      if accessTokenMemory.Some? && token != "" && accessTokenMemory.value != token {
        return;
      }
      if token != "" {
        accessTokenMemory := Some(token);
      }
    }

    method ClearAuth()
      modifies this`accessTokenMemory
      ensures State() == old(State()).(memory := None)
    {
      accessTokenMemory := None;
    }

    method RefreshAuthSession() returns (id: nat)
      modifies this`refreshPromise, this`started
      ensures (State(), id) == Joined(old(State()))
    {
      if refreshPromise.Some? {
        return refreshPromise.value;
      }
      id := started;
      refreshPromise := Some(id);
      started := started + 1;
    }

    method FinishRefresh(token: Option<string>, at: nat)
      requires refreshPromise.Some?
      modifies this
      ensures State() == Completed(old(State()), token, at)
    {
      if token.Some? {
        SaveAuth(token.value);
      } else {
        ClearAuth();
      }
      results := results[refreshPromise.value := Refreshed(token, at)];
      refreshPromise := None;
    }
  }

  // ---------------------------------------------------------------- interleaved requests

  /** Where a request stands. */
  datatype Phase =
    | AwaitingToken(refresh: nat, retry: bool)
    | FirstSent(retry: bool)
    | AwaitingRetry(refresh: nat, refusedAt: nat)
    | SecondSent
    | Answered

  /** A request that went out. */
  datatype Sent =
    | First(call: nat, bearer: Option<string>, sentAt: nat)
    | Second(call: nat, token: string, refresh: nat, refusedAt: nat, sentAt: nat)

  datatype World = World(auth: Auth, now: nat, calls: map<nat, Phase>, log: seq<Sent>)

  datatype Step =
    | Start(call: nat, offered: Option<string>, retry: bool)
    | ResumeFirst(call: nat)
    | Respond(call: nat, unauthorized: bool)
    | ResumeRetry(call: nat)
    | Bootstrap
    | RefreshEnds(token: Option<string>)
    | SaveElsewhere(saved: string)
    | ClearElsewhere

  const BEGINNING := World(Auth(None, None, map[], 0), 0, map[], [])

  predicate Enabled(w: World, step: Step) {
    match step
    case Start(c, _, _) => c !in w.calls
    case ResumeFirst(c) => c in w.calls && w.calls[c].AwaitingToken? && w.calls[c].refresh in w.auth.results
    case Respond(c, _) => c in w.calls && (w.calls[c].FirstSent? || w.calls[c].SecondSent?)
    case ResumeRetry(c) => c in w.calls && w.calls[c].AwaitingRetry? && w.calls[c].refresh in w.auth.results
    case RefreshEnds(_) => w.auth.current.Some?
    case _ => true
  }

  function NonBlank(token: Option<string>): Option<string> { if token == Some("") then None else token }

  /** The token of the first attempt, where one is at hand. */
  function TokenAtHand(a: Auth, offered: Option<string>): Option<string> {
    NonBlank(if a.memory.Some? then a.memory else offered)
  }

  function Moved(w: World, call: nat, phase: Phase): World { w.(calls := w.calls[call := phase]) }

  function Logged(w: World, entry: Sent): World { w.(log := w.log + [entry]) }

  /** One stretch of code between two awaits; time passes with every step. */
  function Next(w: World, step: Step): World
    requires Enabled(w, step)
  {
    var t := w.(now := w.now + 1);
    match step
    case Start(c, offered, retry) =>
      var token := TokenAtHand(w.auth, offered);
      if token.Some? then Logged(Moved(t, c, FirstSent(retry)), First(c, token, w.now))
      else
        var (auth, id) := Joined(w.auth);
        Moved(t.(auth := auth), c, AwaitingToken(id, retry))
    case ResumeFirst(c) =>
      Logged(Moved(t, c, FirstSent(w.calls[c].retry)), First(c, NonBlank(w.auth.results[w.calls[c].refresh].token), w.now))
    case Respond(c, unauthorized) =>
      if w.calls[c].FirstSent? && w.calls[c].retry && unauthorized then
        var (auth, id) := Joined(w.auth);
        Moved(t.(auth := auth), c, AwaitingRetry(id, w.now))
      else Moved(t, c, Answered)
    case ResumeRetry(c) =>
      var phase := w.calls[c];
      var token := NonBlank(w.auth.results[phase.refresh].token);
      (match token
       case None => Moved(t.(auth := t.auth.(memory := None)), c, Answered)
       case Some(s) => Logged(Moved(t, c, SecondSent), Second(c, s, phase.refresh, phase.refusedAt, w.now)))
    case Bootstrap => t.(auth := Joined(w.auth).0)
    case RefreshEnds(token) => t.(auth := Completed(w.auth, token, w.now))
    case SaveElsewhere(saved) => t.(auth := w.auth.(memory := Saved(w.auth.memory, saved)))
    case ClearElsewhere => t.(auth := w.auth.(memory := None))
  }

  ghost predicate IsRun(w: World, steps: seq<Step>)
    decreases |steps|
  {
    steps == [] || (Enabled(w, steps[0]) && IsRun(Next(w, steps[0]), steps[1..]))
  }

  ghost function Run(w: World, steps: seq<Step>): World
    requires IsRun(w, steps)
    decreases |steps|
  {
    if steps == [] then w else Run(Next(w, steps[0]), steps[1..])
  }

  // ---------------------------------------------------------------- the invariant

  /** At most one refresh is under way: every other one that was started has ended. */
  ghost predicate SingleFlight(a: Auth) {
    && (a.current.Some? ==> a.current.value < a.started && a.current.value !in a.results)
    && (forall id: nat :: id in a.results ==> id < a.started)
    && forall id: nat :: id < a.started && id !in a.results ==> a.current == Some(id)
  }

  /** A waiting request waits for a refresh that ends after it began to wait. */
  ghost predicate PhaseSound(w: World, phase: Phase) {
    && (phase.AwaitingToken? || phase.AwaitingRetry? ==> phase.refresh < w.auth.started)
    && (phase.AwaitingRetry? ==>
          phase.refusedAt < w.now
          && (phase.refresh in w.auth.results ==> phase.refusedAt < w.auth.results[phase.refresh].at))
  }

  /** A second attempt carries the token of a refresh that ended between the refusal and it. */
  ghost predicate EntrySound(w: World, s: Sent) {
    && s.call in w.calls && s.sentAt < w.now
    && (s.Second? ==>
          && s.token != "" && s.refresh in w.auth.results
          && w.auth.results[s.refresh].token == Some(s.token)
          && s.refusedAt < w.auth.results[s.refresh].at < s.sentAt)
  }

  /** Which attempts of a request have gone out, by its phase. */
  predicate FirstIsOut(phase: Phase) { !phase.AwaitingToken? }

  predicate SecondMayBeOut(phase: Phase) { phase.SecondSent? || phase.Answered? }

  ghost predicate LogSound(w: World) {
    && (forall i :: 0 <= i < |w.log| ==> EntrySound(w, w.log[i]))
    && (forall i :: 0 <= i < |w.log| ==>
          if w.log[i].First? then FirstIsOut(w.calls[w.log[i].call]) else SecondMayBeOut(w.calls[w.log[i].call]))
    && forall i, j :: 0 <= i < j < |w.log| ==> !SameAttempt(w.log[i], w.log[j])
  }

  predicate SameAttempt(s: Sent, t: Sent) { s.call == t.call && s.First? == t.First? }

  ghost predicate Inv(w: World) {
    && SingleFlight(w.auth) && LogSound(w)
    && (forall id :: id in w.auth.results ==> w.auth.results[id].at < w.now)
    && forall c :: c in w.calls ==> PhaseSound(w, w.calls[c])
  }

  // ---------------------------------------------------------------- every step keeps it

  lemma JoinedKeepsSingleFlight(a: Auth)
    requires SingleFlight(a)
    ensures var (after, id) := Joined(a);
            && SingleFlight(after) && after.current == Some(id) && id < after.started && id !in after.results
            && after.results == a.results && after.started >= a.started && after.memory == a.memory
  {
  }

  lemma CompletedKeepsSingleFlight(a: Auth, token: Option<string>, at: nat)
    requires SingleFlight(a) && a.current.Some?
    ensures SingleFlight(Completed(a, token, at)) && Completed(a, token, at).started == a.started
    ensures forall id :: id in a.results ==> id in Completed(a, token, at).results && Completed(a, token, at).results[id] == a.results[id]
    ensures forall id :: id in Completed(a, token, at).results && id !in a.results ==> Completed(a, token, at).results[id].at == at
  {
  }

  /** What never goes back: results, requests and the stages they have reached. */
  ghost predicate Grows(a: World, b: World) {
    && a.now < b.now && a.auth.started <= b.auth.started
    && (forall id :: id in a.auth.results ==> id in b.auth.results && b.auth.results[id] == a.auth.results[id])
    && forall c | c in a.calls :: c in b.calls && Advances(a.calls[c], b.calls[c])
  }

  predicate Advances(a: Phase, b: Phase) {
    (FirstIsOut(a) ==> FirstIsOut(b)) && (SecondMayBeOut(a) ==> SecondMayBeOut(b))
  }

  lemma NextGrows(w: World, step: Step)
    requires Inv(w) && Enabled(w, step)
    ensures Grows(w, Next(w, step)) && SingleFlight(Next(w, step).auth)
  {
    hide LogSound, PhaseSound, SingleFlight, Joined, Completed;
    JoinedKeepsSingleFlight(w.auth);
    if step.RefreshEnds? {
      CompletedKeepsSingleFlight(w.auth, step.token, w.now);
    }
    assert SingleFlight(w.auth.(memory := None)) by {
      MemoryIsFree(w.auth, None);
    }
    if step.SaveElsewhere? {
      MemoryIsFree(w.auth, Saved(w.auth.memory, step.saved));
    }
  }

  lemma MemoryIsFree(a: Auth, memory: Option<string>)
    requires SingleFlight(a)
    ensures SingleFlight(a.(memory := memory))
  {
  }

  lemma LogStaysSound(a: World, b: World)
    requires LogSound(a) && Grows(a, b) && a.log == b.log
    ensures LogSound(b)
  {
    hide SameAttempt, FirstIsOut, SecondMayBeOut;
  }

  lemma LogTakesOneMore(w: World, s: Sent)
    requires LogSound(w) && EntrySound(w, s)
    requires if s.First? then FirstIsOut(w.calls[s.call]) else SecondMayBeOut(w.calls[s.call])
    requires forall i :: 0 <= i < |w.log| ==> !SameAttempt(w.log[i], s)
    ensures LogSound(Logged(w, s))
  {
    var more := Logged(w, s);
    hide SameAttempt, FirstIsOut, SecondMayBeOut;
    forall i | 0 <= i < |more.log| ensures EntrySound(more, more.log[i]) {
      assert EntrySound(w, if i < |w.log| then w.log[i] else s);
    }
  }

  /** The entry a step adds to the log. */
  function NewEntry(w: World, step: Step): Option<Sent>
    requires Enabled(w, step)
  {
    match step
    case Start(c, offered, _) =>
      var token := TokenAtHand(w.auth, offered);
      if token.Some? then Some(First(c, token, w.now)) else None
    case ResumeFirst(c) => Some(First(c, NonBlank(w.auth.results[w.calls[c].refresh].token), w.now))
    case ResumeRetry(c) =>
      var phase := w.calls[c];
      (match NonBlank(w.auth.results[phase.refresh].token)
       case None => None
       case Some(s) => Some(Second(c, s, phase.refresh, phase.refusedAt, w.now)))
    case _ => None
  }

  lemma LogOfNext(w: World, step: Step)
    requires Enabled(w, step)
    ensures Next(w, step).log == match NewEntry(w, step)
                                 case None => w.log
                                 case Some(s) => w.log + [s]
    ensures NewEntry(w, step).Some? ==>
      Logged(Next(w, step).(log := w.log), NewEntry(w, step).value) == Next(w, step)
  {
    hide Joined, Completed;
  }

  lemma NewEntryIsSound(w: World, step: Step)
    requires Inv(w) && Enabled(w, step) && NewEntry(w, step).Some?
    ensures var s, after := NewEntry(w, step).value, Next(w, step);
            && EntrySound(after, s)
            && (if s.First? then FirstIsOut(after.calls[s.call]) else SecondMayBeOut(after.calls[s.call]))
            && forall i :: 0 <= i < |w.log| ==> !SameAttempt(w.log[i], s)
  {
    hide SingleFlight, Joined, Completed, Saved;
    var s := NewEntry(w, step).value;
    if s.Second? {
      assert PhaseSound(w, w.calls[s.call]);
    }
    forall i | 0 <= i < |w.log|
      ensures !SameAttempt(w.log[i], s)
    {
      assert EntrySound(w, w.log[i]);
    }
  }

  lemma StepKeepsLog(w: World, step: Step)
    requires Inv(w) && Enabled(w, step)
    ensures LogSound(Next(w, step))
  {
    NextGrows(w, step);
    LogOfNext(w, step);
    var quiet := Next(w, step).(log := w.log);
    if NewEntry(w, step).Some? {
      NewEntryIsSound(w, step);
    }
    hide Next, NewEntry, SingleFlight, PhaseSound, EntrySound, FirstIsOut, SecondMayBeOut, SameAttempt;
    assert Grows(w, quiet);
    hide Grows;
    LogStaysSound(w, quiet);
    if NewEntry(w, step).Some? {
      SoundWithoutLog(Next(w, step), quiet, NewEntry(w, step).value);
      hide LogSound;
      LogTakesOneMore(quiet, NewEntry(w, step).value);
    }
  }

  lemma SoundWithoutLog(a: World, b: World, s: Sent)
    requires EntrySound(a, s) && a.auth == b.auth && a.now == b.now && a.calls == b.calls
    ensures EntrySound(b, s)
  {
  }

  lemma PhasesStaySound(w: World, step: Step)
    requires Inv(w) && Enabled(w, step)
    ensures var after := Next(w, step);
            && (forall id :: id in after.auth.results ==> after.auth.results[id].at < after.now)
            && forall c :: c in after.calls ==> PhaseSound(after, after.calls[c])
  {
    JoinedKeepsSingleFlight(w.auth);
    if step.RefreshEnds? {
      CompletedKeepsSingleFlight(w.auth, step.token, w.now);
    }
    hide SingleFlight, LogSound, Joined, Completed, Saved, TokenAtHand, NonBlank;
    var after := Next(w, step);
    forall c | c in after.calls
      ensures PhaseSound(after, after.calls[c])
    {
      if c in w.calls {
        assert PhaseSound(w, w.calls[c]);
      }
    }
  }

  lemma StepKeepsInv(w: World, step: Step)
    requires Inv(w) && Enabled(w, step)
    ensures Inv(Next(w, step))
  {
    NextGrows(w, step);
    StepKeepsLog(w, step);
    PhasesStaySound(w, step);
    hide Next, SingleFlight, LogSound, PhaseSound, Grows;
  }

  lemma {:induction false} RunKeepsInv(w: World, steps: seq<Step>)
    requires Inv(w) && IsRun(w, steps)
    ensures Inv(Run(w, steps))
    decreases |steps|
  {
    hide Inv, Next, Enabled;
    if steps != [] {
      StepKeepsInv(w, steps[0]);
      RunKeepsInv(Next(w, steps[0]), steps[1..]);
    }
  }

  // ---------------------------------------------------------------- whole runs

  lemma BeginningIsSound()
    ensures Inv(BEGINNING)
  {
  }

  /** Of all refreshes ever started at most one is still without an answer. */
  lemma OneRefreshAtATime(steps: seq<Step>, i: nat, j: nat)
    requires IsRun(BEGINNING, steps)
    requires var a := Run(BEGINNING, steps).auth;
             i < a.started && i !in a.results && j < a.started && j !in a.results
    ensures i == j
  {
    BeginningIsSound();
    RunKeepsInv(BEGINNING, steps);
  }

  /** No request goes out more than twice. */
  lemma AtMostTwoAttempts(steps: seq<Step>, i: nat, j: nat, k: nat)
    requires IsRun(BEGINNING, steps) && i < j < k < |Run(BEGINNING, steps).log|
    ensures var log := Run(BEGINNING, steps).log; !(log[i].call == log[j].call == log[k].call)
  {
    BeginningIsSound();
    RunKeepsInv(BEGINNING, steps);
    var w := Run(BEGINNING, steps);
    assert LogSound(w);
    assert !SameAttempt(w.log[i], w.log[j]) && !SameAttempt(w.log[j], w.log[k]) && !SameAttempt(w.log[i], w.log[k]);
  }

  /** A second attempt carries the token of a refresh that ended after the refusal and before it. */
  lemma RetriesUseALaterRefresh(steps: seq<Step>, i: nat)
    requires IsRun(BEGINNING, steps) && i < |Run(BEGINNING, steps).log| && Run(BEGINNING, steps).log[i].Second?
    ensures var w := Run(BEGINNING, steps);
            var s := w.log[i];
            && s.refresh in w.auth.results && w.auth.results[s.refresh].token == Some(s.token) && s.token != ""
            && s.refusedAt < w.auth.results[s.refresh].at < s.sentAt
  {
    BeginningIsSound();
    RunKeepsInv(BEGINNING, steps);
    var w := Run(BEGINNING, steps);
    assert LogSound(w);
    assert EntrySound(w, w.log[i]);
  }

  /** The answer of a refresh is the same for everybody who joined it, whenever they look. */
  lemma {:induction false} AnswersNeverChange(w: World, steps: seq<Step>, id: nat)
    requires Inv(w) && IsRun(w, steps) && id in w.auth.results
    ensures id in Run(w, steps).auth.results && Run(w, steps).auth.results[id] == w.auth.results[id]
    decreases |steps|
  {
    if steps != [] {
      NextGrows(w, steps[0]);
      StepKeepsInv(w, steps[0]);
      hide Inv, Next, Enabled, SingleFlight;
      AnswersNeverChange(Next(w, steps[0]), steps[1..], id);
    }
  }

  /** A failed refresh leaves no token in memory; a successful one leaves its own token there
      exactly when no different one was saved meanwhile. */
  lemma MemoryAfterARefresh(w: World, token: Option<string>)
    requires w.auth.current.Some? && token != Some("")
    ensures var after := Next(w, RefreshEnds(token));
            && (token.None? ==> after.auth.memory.None?)
            && (token.Some? ==> (after.auth.memory == token <==> w.auth.memory.None? || w.auth.memory == token))
  {
    if token.Some? {
      SavingStoresExactly(w.auth.memory, token.value);
    }
  }

  // ---------------------------------------------------------------- how long a token stays

  /** Steps after which memory is empty whatever it held. */
  predicate ClearsMemory(w: World, step: Step)
    requires Enabled(w, step)
  {
    || step.ClearElsewhere?
    || (step.RefreshEnds? && step.token.None?)
    || (step.ResumeRetry? && NonBlank(w.auth.results[w.calls[step.call].refresh].token).None?)
  }

  lemma StepKeepsTokenExactly(w: World, step: Step, token: string)
    requires Enabled(w, step) && w.auth.memory == Some(token) && token != ""
    ensures Next(w, step).auth.memory == if ClearsMemory(w, step) then None else Some(token)
  {
    hide TokenAtHand, NonBlank;
  }

  /** Memory holds the token before, between and after the steps. */
  ghost predicate HoldsThroughout(w: World, steps: seq<Step>, token: string)
    requires IsRun(w, steps)
    decreases |steps|
  {
    w.auth.memory == Some(token) && (steps != [] ==> HoldsThroughout(Next(w, steps[0]), steps[1..], token))
  }

  ghost predicate NeverCleared(w: World, steps: seq<Step>)
    requires IsRun(w, steps)
    decreases |steps|
  {
    steps != [] ==> !ClearsMemory(w, steps[0]) && NeverCleared(Next(w, steps[0]), steps[1..])
  }

  /** A token stays in memory through a run exactly when the run has no logout, no failing refresh
      and no request resuming from a refresh that failed. */
  lemma {:induction false} TokenStaysExactly(w: World, steps: seq<Step>, token: string)
    requires IsRun(w, steps) && w.auth.memory == Some(token) && token != ""
    ensures HoldsThroughout(w, steps, token) <==> NeverCleared(w, steps)
    decreases |steps|
  {
    hide Next, Enabled, ClearsMemory;
    if steps != [] {
      StepKeepsTokenExactly(w, steps[0], token);
      if !ClearsMemory(w, steps[0]) {
        TokenStaysExactly(Next(w, steps[0]), steps[1..], token);
      }
    }
  }

  // ---------------------------------------------------------------- is a login safe?

  /** Nobody logs out and no refresh fails or answers with a blank token. */
  predicate GoesWell(step: Step) {
    !step.ClearElsewhere? && (step.RefreshEnds? ==> NonBlank(step.token).Some?)
  }

  /** A request refused earlier that has yet to learn that its refresh failed. */
  predicate WaitsForAFailure(w: World, call: nat) {
    && call in w.calls && w.calls[call].AwaitingRetry? && w.calls[call].refresh in w.auth.results
    && NonBlank(w.auth.results[w.calls[call].refresh].token).None?
  }

  /** While all goes well nobody newly comes to wait for a failed refresh. */
  lemma NoNewFailures(w: World, step: Step, call: nat)
    requires Inv(w) && Enabled(w, step) && GoesWell(step) && WaitsForAFailure(Next(w, step), call)
    ensures WaitsForAFailure(w, call)
  {
    JoinedKeepsSingleFlight(w.auth);
    if step.RefreshEnds? {
      CompletedKeepsSingleFlight(w.auth, step.token, w.now);
    }
    hide SingleFlight, LogSound, Joined, Saved, TokenAtHand;
  }

  lemma {:induction false} WaitersWereThere(w: World, steps: seq<Step>)
    requires Inv(w) && IsRun(w, steps) && (forall s :: s in steps ==> GoesWell(s)) && !NeverCleared(w, steps)
    ensures exists call :: WaitsForAFailure(w, call)
    decreases |steps|
  {
    if ClearsMemory(w, steps[0]) {
      assert GoesWell(steps[0]);
      assert WaitsForAFailure(w, steps[0].call);
    } else {
      StepKeepsInv(w, steps[0]);
      WaitersWereThere(Next(w, steps[0]), steps[1..]);
      hide Next, Inv;
      var call :| WaitsForAFailure(Next(w, steps[0]), call);
      NoNewFailures(w, steps[0], call);
    }
  }

  /** Some run in which all goes well loses the token. */
  ghost predicate CanBeLost(w: World, token: string) {
    exists steps :: IsRun(w, steps) && (forall s :: s in steps ==> GoesWell(s)) && !HoldsThroughout(w, steps, token)
  }

  /** A token just saved can be lost, although nobody logs out and no refresh fails from then on,
      exactly when some request still waits to learn of an earlier failed refresh. */
  lemma LoginCanBeLostExactly(w: World, token: string)
    requires Inv(w) && w.auth.memory == Some(token) && token != ""
    ensures CanBeLost(w, token) <==> exists call :: WaitsForAFailure(w, call)
  {
    forall steps | IsRun(w, steps) && (forall s :: s in steps ==> GoesWell(s)) && !HoldsThroughout(w, steps, token)
      ensures exists call :: WaitsForAFailure(w, call)
    {
      TokenStaysExactly(w, steps, token);
      WaitersWereThere(w, steps);
    }
    forall call | WaitsForAFailure(w, call)
      ensures CanBeLost(w, token)
    {
      ResumptionLoses(w, token, call);
    }
  }

  lemma ResumptionLoses(w: World, token: string, call: nat)
    requires w.auth.memory == Some(token) && token != "" && WaitsForAFailure(w, call)
    ensures CanBeLost(w, token)
  {
    var steps := [ResumeRetry(call)];
    assert Enabled(w, steps[0]) && ClearsMemory(w, steps[0]);
    hide Enabled, Next, ClearsMemory;
    assert steps[1..] == [] && IsRun(w, steps);
    assert !NeverCleared(w, steps);
    TokenStaysExactly(w, steps, token);
    assert forall s :: s in steps ==> GoesWell(s);
  }

  /** Prefixing one step to a run. */
  lemma RunCons(w: World, step: Step, rest: seq<Step>)
    requires Enabled(w, step) && IsRun(Next(w, step), rest)
    ensures IsRun(w, [step] + rest) && Run(w, [step] + rest) == Run(Next(w, step), rest)
  {
    hide Enabled, Next;
    assert ([step] + rest)[1..] == rest;
  }

  function LostLogin(token: string): seq<Step> {
    [Start(0, Some("x"), true)] + ([Respond(0, true)] + ([RefreshEnds(None)] + [SaveElsewhere(token)]))
  }

  /** Such a state is reached: a request is refused, its refresh fails, a login saves a token; the
      request then resumes and clears it. */
  lemma LateJoinerClearsANewLogin(token: string)
    requires token != ""
    ensures IsRun(BEGINNING, LostLogin(token)) && Run(BEGINNING, LostLogin(token)).auth.memory == Some(token)
    ensures WaitsForAFailure(Run(BEGINNING, LostLogin(token)), 0)
    ensures Next(Run(BEGINNING, LostLogin(token)), ResumeRetry(0)).auth.memory.None?
  {
    var w1 := World(Auth(None, None, map[], 0), 1, map[0 := FirstSent(true)], [First(0, Some("x"), 0)]);
    var w2 := World(Auth(None, Some(0), map[], 1), 2, map[0 := AwaitingRetry(0, 1)], w1.log);
    var w3 := World(Auth(None, None, map[0 := Refreshed(None, 2)], 1), 3, w2.calls, w1.log);
    var w4 := w3.(auth := w3.auth.(memory := Some(token)), now := 4);
    assert Next(BEGINNING, Start(0, Some("x"), true)) == w1;
    assert Next(w1, Respond(0, true)) == w2;
    assert Next(w2, RefreshEnds(None)) == w3;
    assert Next(w3, SaveElsewhere(token)) == w4;
    assert WaitsForAFailure(w4, 0);
    StepKeepsTokenExactly(w4, ResumeRetry(0), token);
    assert [SaveElsewhere(token)] + [] == [SaveElsewhere(token)];
    assert IsRun(w4, []) && Run(w4, []) == w4;
    hide Next;
    RunCons(w3, SaveElsewhere(token), []);
    RunCons(w2, RefreshEnds(None), [SaveElsewhere(token)]);
    RunCons(w1, Respond(0, true), [RefreshEnds(None)] + [SaveElsewhere(token)]);
    RunCons(BEGINNING, Start(0, Some("x"), true), [Respond(0, true)] + ([RefreshEnds(None)] + [SaveElsewhere(token)]));
  }
}
