/** With which token a request goes out, and what a refusal leads to. */
module TokenAttempts {
  import opened Wrappers
  import opened TokenRefresh

  /** The request waits for the refresh under way, which is a new one if there was none. */
  predicate WaitsForTheRefresh(before: World, after: World, id: nat) {
    && after.auth.current == Some(id)
    && (before.auth.current.Some? ==> after.auth == before.auth)
    && (before.auth.current.None? ==>
          && id == before.auth.started && after.auth.started == before.auth.started + 1
          && after.auth.memory == before.auth.memory && after.auth.results == before.auth.results)
  }

  predicate SendsFirst(before: World, after: World, call: nat, bearer: Option<string>) {
    after.log == before.log + [First(call, bearer, before.now)] && after.auth == before.auth
  }

  /** A request takes the token in memory, or else the one it is given; without either it waits
      for the refresh, and goes out with what that brings, if anything. */
  lemma FirstAttemptsTakeATokenAtHand(w: World, call: nat, offered: Option<string>, retry: bool)
    requires Enabled(w, Start(call, offered, retry)) && w.auth.memory != Some("")
    ensures var after := Next(w, Start(call, offered, retry));
            && call in after.calls
            && (w.auth.memory.Some? ==> SendsFirst(w, after, call, w.auth.memory) && after.calls[call] == FirstSent(retry))
            && (w.auth.memory.None? && offered.Some? && offered != Some("") ==>
                  SendsFirst(w, after, call, offered) && after.calls[call] == FirstSent(retry))
            && (w.auth.memory.None? && (offered.None? || offered == Some("")) ==>
                  && after.calls[call].AwaitingToken? && after.calls[call].retry == retry && after.log == w.log
                  && WaitsForTheRefresh(w, after, after.calls[call].refresh))
  {
  }

  lemma WaitingRequestsTakeTheAnswer(w: World, call: nat)
    requires Enabled(w, ResumeFirst(call))
    ensures var told := w.auth.results[w.calls[call].refresh].token;
            var after := Next(w, ResumeFirst(call));
            && SendsFirst(w, after, call, if told == Some("") then None else told)
            && after.calls == w.calls[call := FirstSent(w.calls[call].retry)]
  {
  }

  /** A refusal leads to a refresh exactly when it is the first one and the request may retry;
      every other response ends the request. */
  lemma RefusalsLeadToARefreshExactly(w: World, call: nat, unauthorized: bool)
    requires Enabled(w, Respond(call, unauthorized))
    ensures var after := Next(w, Respond(call, unauthorized));
            && call in after.calls && after.log == w.log
            && (unauthorized && w.calls[call] == FirstSent(true) <==> after.calls[call].AwaitingRetry?)
            && (after.calls[call].AwaitingRetry? ==>
                  after.calls[call].refusedAt == w.now && WaitsForTheRefresh(w, after, after.calls[call].refresh))
            && (!after.calls[call].AwaitingRetry? ==> after.calls[call].Answered? && after.auth == w.auth)
  {
  }

  /** After the refresh it goes out once more with the new token; without one it ends and clears
      memory. */
  lemma RetriesTakeTheAnswer(w: World, call: nat)
    requires Enabled(w, ResumeRetry(call))
    ensures var AwaitingRetry(refresh, refusedAt) := w.calls[call];
            var told := w.auth.results[refresh].token;
            var after := Next(w, ResumeRetry(call));
            && (told.Some? && told != Some("") ==>
                  && after.log == w.log + [Second(call, told.value, refresh, refusedAt, w.now)]
                  && after.calls == w.calls[call := SecondSent] && after.auth == w.auth)
            && (told.None? || told == Some("") ==>
                  && after.log == w.log && after.calls == w.calls[call := Answered]
                  && after.auth == w.auth.(memory := None))
  {
  }

  /** The end of a refresh, and saving elsewhere, keep a token that is there; no blank one gets in. */
  lemma MemoryAfterExactly(w: World, token: Option<string>, saved: string)
    requires w.auth.current.Some? && w.auth.memory != Some("")
    ensures var ended := Next(w, RefreshEnds(token)).auth;
            && ended.current.None? && ended.started == w.auth.started
            && ended.results == w.auth.results[w.auth.current.value := Refreshed(token, w.now)]
            && ended.memory == (match token
                                case None => None
                                case Some(s) => if w.auth.memory.None? && s != "" then Some(s) else w.auth.memory)
    ensures Next(w, SaveElsewhere(saved)).auth
      == w.auth.(memory := if w.auth.memory.None? && saved != "" then Some(saved) else w.auth.memory)
    ensures Next(w, ClearElsewhere).auth == w.auth.(memory := None)
  {
  }

  ghost predicate NeverBlank(w: World) {
    && w.auth.memory != Some("")
    && forall i :: 0 <= i < |w.log| ==> (w.log[i].First? ==> w.log[i].bearer != Some("")) && (w.log[i].Second? ==> w.log[i].token != "")
  }

  lemma StepIsNeverBlank(w: World, step: Step)
    requires NeverBlank(w) && Enabled(w, step)
    ensures NeverBlank(Next(w, step))
  {
  }

  lemma {:induction false} RunIsNeverBlank(w: World, steps: seq<Step>)
    requires NeverBlank(w) && IsRun(w, steps)
    ensures NeverBlank(Run(w, steps))
    decreases |steps|
  {
    hide NeverBlank, Next, Enabled;
    if steps != [] {
      StepIsNeverBlank(w, steps[0]);
      RunIsNeverBlank(Next(w, steps[0]), steps[1..]);
    }
  }

  /** Over every run memory never holds a blank token, and no request goes out with one. */
  lemma NoRunSendsABlankToken(steps: seq<Step>)
    requires IsRun(BEGINNING, steps)
    ensures NeverBlank(Run(BEGINNING, steps))
  {
    RunIsNeverBlank(BEGINNING, steps);
  }
}
