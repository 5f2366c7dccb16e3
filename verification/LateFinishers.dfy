/** What a finalizer does that comes after its claim has run out: it writes through the row
    handle, whoever holds the row by then. */
module LateFinishers {
  import opened Wrappers
  import opened Idempotency
  import opened IdempotencyRuns

  // ---------------------------------------------------------------- whose answer is stored

  /** What a completed record offers to the next request was produced for the record's own hash. */
  ghost predicate RecordIsHonest(s: System) {
    s.record.Some? && s.record.value.state.Completed? ==>
      Produced(s.claims, s.record.value.requestHash, s.record.value.statusCode, s.record.value.payload)
  }

  ghost predicate Honest(s: System) { RecordIsHonest(s) && ReplaysAreHonest(s) }

  /** Whoever executes holds a claim of its own, for its own hash, without an ending. */
  ghost predicate HoldsOwnClaim(s: System, w: nat)
    requires w < |s.clients|
  {
    s.clients[w].Executing? ==>
      && s.record.Some? && s.clients[w].claim < |s.claims|
      && s.claims[s.clients[w].claim].requestHash == s.clients[w].hash
      && s.claims[s.clients[w].claim].ending.None?
  }

  ghost predicate OwnClaims(s: System) {
    && (forall w :: 0 <= w < |s.clients| ==> HoldsOwnClaim(s, w))
    && (forall v, w :: 0 <= v < |s.clients| && 0 <= w < |s.clients| && v != w && s.clients[v].Executing? && s.clients[w].Executing?
          ==> s.clients[v].claim != s.clients[w].claim)
  }

  lemma StepKeepsOwnClaims(s: System, a: Action)
    requires OwnClaims(s) && Enabled(s, a)
    ensures OwnClaims(Act(s, a))
  {
    var t := Act(s, a);
    forall w | 0 <= w < |s.clients|
      ensures s.clients[w].Executing? ==> s.clients[w].claim < |s.claims|
      ensures |t.clients| == |s.clients| && HoldsOwnClaim(t, w)
    {
      assert HoldsOwnClaim(s, w);
      OwnClaimStays(s, a, w);
    }
  }

  lemma OwnClaimStays(s: System, a: Action, w: nat)
    requires OwnClaims(s) && Enabled(s, a) && w < |s.clients|
    ensures |Act(s, a).clients| == |s.clients| && HoldsOwnClaim(Act(s, a), w)
  {
    assert HoldsOwnClaim(s, w);
  }

  /** The finisher's request has the record's hash, or another request with that hash was
      already answered the same. */
  ghost predicate StoresOwnAnswer(s: System, w: nat, statusCode: int, payload: string)
    requires Enabled(s, Succeed(w, statusCode, payload))
  {
    || s.clients[w].hash == s.record.value.requestHash
    || Produced(s.claims, s.record.value.requestHash, Some(statusCode), payload)
  }

  ghost predicate Proper(s: System, a: Action)
    requires Enabled(s, a)
  {
    a.Succeed? ==> StoresOwnAnswer(s, a.w, a.statusCode, a.payload)
  }

  lemma SuccessIsHonestExactly(s: System, w: nat, statusCode: int, payload: string)
    requires OwnClaims(s) && Enabled(s, Succeed(w, statusCode, payload))
    ensures RecordIsHonest(Act(s, Succeed(w, statusCode, payload))) <==> StoresOwnAnswer(s, w, statusCode, payload)
  {
    var t := Act(s, Succeed(w, statusCode, payload));
    var c, hash := s.clients[w].claim, s.record.value.requestHash;
    assert HoldsOwnClaim(s, w);
    assert t.claims[c] == s.claims[c].(ending := Some(Succeeded(statusCode, payload)));
    assert forall d :: 0 <= d < |s.claims| && d != c ==> t.claims[d] == s.claims[d];
    if Produced(t.claims, hash, Some(statusCode), payload) && s.clients[w].hash != hash {
      var d :| 0 <= d < |t.claims| && t.claims[d].requestHash == hash && t.claims[d].ending == Some(Succeeded(statusCode, payload));
      assert d != c && s.claims[d] == t.claims[d];
    }
  }

  /** Endings already given are never taken back. */
  lemma ReplaysStayHonest(s: System, a: Action)
    requires OwnClaims(s) && Enabled(s, a) && Honest(s)
    ensures ReplaysAreHonest(Act(s, a))
  {
    var t := Act(s, a);
    EndingsStay(s, a);
    forall w | 0 <= w < |t.clients| && t.clients[w].Answered? && t.clients[w].outcome.Replay?
      ensures Produced(t.claims, t.clients[w].hash, t.clients[w].outcome.statusCode, t.clients[w].outcome.payload)
    {
      AnswersAreProduced(s, a, w);
      ProducedStays(s.claims, t.claims, t.clients[w].hash, t.clients[w].outcome.statusCode, t.clients[w].outcome.payload);
    }
  }

  lemma EndingsStay(s: System, a: Action)
    requires OwnClaims(s) && Enabled(s, a)
    ensures |s.claims| <= |Act(s, a).claims|
    ensures forall c :: 0 <= c < |s.claims| && s.claims[c].ending.Some? ==> Act(s, a).claims[c] == s.claims[c]
  {
    if a.Succeed? || a.Fail? {
      assert HoldsOwnClaim(s, a.w);
    }
  }

  /** A replay handed out now or before was produced before. */
  lemma AnswersAreProduced(s: System, a: Action, w: nat)
    requires Honest(s) && Enabled(s, a) && w < |Act(s, a).clients|
    requires Act(s, a).clients[w].Answered? && Act(s, a).clients[w].outcome.Replay?
    ensures var v := Act(s, a).clients[w]; Produced(s.claims, v.hash, v.outcome.statusCode, v.outcome.payload)
  {
    hide Produced;
  }

  lemma StepIsHonestExactly(s: System, a: Action)
    requires OwnClaims(s) && Enabled(s, a) && Honest(s)
    ensures Honest(Act(s, a)) <==> Proper(s, a)
  {
    ReplaysStayHonest(s, a);
    if a.Succeed? {
      hide Act, Enabled, OwnClaims, RecordIsHonest, StoresOwnAnswer;
      SuccessIsHonestExactly(s, a.w, a.statusCode, a.payload);
    } else {
      hide OwnClaims;
      OtherStepsKeepRecordHonest(s, a);
    }
  }

  lemma OtherStepsKeepRecordHonest(s: System, a: Action)
    requires OwnClaims(s) && Enabled(s, a) && RecordIsHonest(s) && !a.Succeed?
    ensures RecordIsHonest(Act(s, a))
  {
    var t := Act(s, a);
    EndingsStay(s, a);
    if t.record.Some? && t.record.value.state.Completed? {
      assert t.record == s.record;
      ProducedStays(s.claims, t.claims, s.record.value.requestHash, s.record.value.statusCode, s.record.value.payload);
    }
  }

  ghost predicate HonestThroughout(s: System, acts: seq<Action>)
    requires Runnable(s, acts)
    decreases |acts|
  {
    Honest(s) && (acts != [] ==> HonestThroughout(Act(s, acts[0]), acts[1..]))
  }

  ghost predicate AlwaysProper(s: System, acts: seq<Action>)
    requires Runnable(s, acts)
    decreases |acts|
  {
    acts != [] ==> Proper(s, acts[0]) && AlwaysProper(Act(s, acts[0]), acts[1..])
  }

  lemma {:induction false} RunIsHonestExactly(s: System, acts: seq<Action>)
    requires OwnClaims(s) && Honest(s) && Runnable(s, acts)
    ensures HonestThroughout(s, acts) <==> AlwaysProper(s, acts)
    decreases |acts|
  {
    hide OwnClaims, Honest, Act, Enabled, Proper;
    if acts != [] {
      StepIsHonestExactly(s, acts[0]);
      if Proper(s, acts[0]) {
        StepKeepsOwnClaims(s, acts[0]);
        RunIsHonestExactly(Act(s, acts[0]), acts[1..]);
      }
    }
  }

  /** Over every run, late finishers included: all answers handed out, and the one on offer, were
      produced for the request they answer exactly when every success was stored on a record with
      the finisher's own hash (or repeated what that hash had been answered before). */
  lemma RunsAreHonestExactly(clients: nat, clock: int, acts: seq<Action>)
    requires Runnable(Start(clients, clock), acts)
    ensures HonestThroughout(Start(clients, clock), acts) <==> AlwaysProper(Start(clients, clock), acts)
  {
    var s := Start(clients, clock);
    assert OwnClaims(s) && Honest(s);
    hide Start, Act, Enabled, Runnable, OwnClaims, Honest;
    RunIsHonestExactly(s, acts);
  }

  /** The next live request with the record's hash is answered what the finisher stored; that
      answer is its own exactly under the same condition. */
  lemma LateSuccessAnswersExactly(s: System, w: nat, v: nat, statusCode: int, payload: string)
    requires OwnClaims(s) && Enabled(s, Succeed(w, statusCode, payload)) && Enabled(s, Resolve(v))
    requires s.clients[v].hash == s.record.value.requestHash && s.clients[v].now < s.record.value.expiresAt
    ensures Enabled(Act(s, Succeed(w, statusCode, payload)), Resolve(v))
    ensures var t := Act(Act(s, Succeed(w, statusCode, payload)), Resolve(v));
            && t.clients[v] == Answered(s.clients[v].hash, s.clients[v].now, Replay(Some(statusCode), payload))
            && (Produced(t.claims, s.clients[v].hash, Some(statusCode), payload) <==> StoresOwnAnswer(s, w, statusCode, payload))
  {
    SuccessIsHonestExactly(s, w, statusCode, payload);
    hide Produced, OwnClaims;
  }

  // ---------------------------------------------------------------- late errors

  predicate Alone(s: System, w: nat) {
    forall v :: 0 <= v < |s.clients| && s.clients[v].Executing? ==> v == w
  }

  /** No other claim's success is still alive. */
  predicate NoLiveSuccess(s: System) {
    forall c :: 0 <= c < |s.claims| && s.claims[c].ending.Some? && s.claims[c].ending.value.Succeeded?
      ==> s.claims[c].expiresAt <= s.clock
  }

  /** After an error was stored, the next live request with the record's hash executes, whatever
      the record said before. One client executes then exactly when the finisher was alone, and
      no success is overtaken exactly when none was alive. */
  lemma LateErrorExactly(s: System, w: nat, v: nat, statusCode: int, payload: string, code: string)
    requires OwnClaims(s) && SuccessesLast(s) && Enabled(s, Fail(w, statusCode, payload, code)) && Enabled(s, Resolve(v))
    requires s.clients[v].hash == s.record.value.requestHash && s.clients[v].now < s.record.value.expiresAt
    ensures Enabled(Act(s, Fail(w, statusCode, payload, code)), Resolve(v))
    ensures var t := Act(Act(s, Fail(w, statusCode, payload, code)), Resolve(v));
            && t.clients[v] == Executing(s.clients[v].hash, |s.claims|)
            && (OneExecutor(t) <==> Alone(s, w))
            && (SuccessesLast(t) <==> NoLiveSuccess(s))
  {
    assert HoldsOwnClaim(s, w);
    hide OwnClaims;
    var t := Act(Act(s, Fail(w, statusCode, payload, code)), Resolve(v));
    assert t.clients == s.clients[w := Gone][v := Executing(s.clients[v].hash, |s.claims|)];
    OneExecutorExactly(s, t, w, v, s.clients[v].hash, |s.claims|);
    var c, grant := s.clients[w].claim, Claim(s.clients[v].hash, s.clock, t.record.value.expiresAt, None);
    assert t.claims == s.claims[c := s.claims[c].(ending := Some(Errored))] + [grant];
    SuccessesLastExactly(s, t, c, grant);
  }

  lemma OneExecutorExactly(s: System, t: System, w: nat, v: nat, hash: string, claim: nat)
    requires w < |s.clients| && v < |s.clients| && s.clients[w].Executing? && !s.clients[v].Executing?
    requires t.clients == s.clients[w := Gone][v := Executing(hash, claim)]
    ensures OneExecutor(t) <==> Alone(s, w)
  {
    assert t.clients[v].Executing?;
    assert forall x :: 0 <= x < |s.clients| && x != w && x != v ==> t.clients[x] == s.clients[x];
  }

  lemma SuccessesLastExactly(s: System, t: System, c: nat, grant: Claim)
    requires SuccessesLast(s) && c < |s.claims| && s.claims[c].ending.None?
    requires grant.grantedAt == s.clock && grant.ending.None?
    requires t.claims == s.claims[c := s.claims[c].(ending := Some(Errored))] + [grant]
    ensures SuccessesLast(t) <==> NoLiveSuccess(s)
  {
    var n := |s.claims|;
    assert t.claims[n] == grant;
    assert t.claims[c].ending == Some(Errored) && t.claims[c].grantedAt == s.claims[c].grantedAt;
    assert forall k :: 0 <= k < n && k != c ==> t.claims[k] == s.claims[k];
    if SuccessesLast(t) {
      forall k | 0 <= k < n && s.claims[k].ending.Some? && s.claims[k].ending.value.Succeeded?
        ensures s.claims[k].expiresAt <= s.clock
      {
        assert t.claims[k] == s.claims[k];
      }
    }
  }

  // ---------------------------------------------------------------- runs that go wrong

  /** Client 0 has overrun its claim by one instant and client 1 has taken the record over. */
  function TakenOver(h1: string, h2: string): System {
    System(Some(NewRecord(h2, 60)), 30, [Executing(h1, 0), Executing(h2, 1), Idle],
           [Claim(h1, 0, 30, None), Claim(h2, 30, 60, None)])
  }

  function TakeoverRun(h1: string, h2: string, rest: seq<Action>): seq<Action> {
    [Arrive(0, h1, 30)] + ([TryInsert(0)] + ([Tick(30)] + ([Arrive(1, h2, 30)] + ([TryInsert(1)] + ([Resolve(1)] + rest)))))
  }

  lemma Takeover(h1: string, h2: string, rest: seq<Action>, end: System)
    requires Runnable(TakenOver(h1, h2), rest) && After(TakenOver(h1, h2), rest) == end
    ensures Runnable(Start(3, 0), TakeoverRun(h1, h2, rest)) && After(Start(3, 0), TakeoverRun(h1, h2, rest)) == end
  {
    var s0 := System(None, 0, [Idle, Idle, Idle], []);
    var s1 := s0.(clients := [Arrived(h1, 0, 30), Idle, Idle]);
    var s2 := System(Some(NewRecord(h1, 30)), 0, [Executing(h1, 0), Idle, Idle], [Claim(h1, 0, 30, None)]);
    var s3 := s2.(clock := 30);
    var s4 := s3.(clients := [Executing(h1, 0), Arrived(h2, 30, 30), Idle]);
    var s5 := s3.(clients := [Executing(h1, 0), Refused(h2, 30, 30), Idle]);
    var s6 := TakenOver(h1, h2);
    assert Start(3, 0) == s0;
    assert Act(s0, Arrive(0, h1, 30)) == s1 && Act(s1, TryInsert(0)) == s2 && Act(s2, Tick(30)) == s3;
    assert Act(s3, Arrive(1, h2, 30)) == s4 && Act(s4, TryInsert(1)) == s5 && Act(s5, Resolve(1)) == s6;
    hide Act, TakenOver;
    Before(s5, Resolve(1), s6, rest, end);
    Before(s4, TryInsert(1), s5, [Resolve(1)] + rest, end);
    Before(s3, Arrive(1, h2, 30), s4, [TryInsert(1)] + ([Resolve(1)] + rest), end);
    Before(s2, Tick(30), s3, [Arrive(1, h2, 30)] + ([TryInsert(1)] + ([Resolve(1)] + rest)), end);
    BeginTakeover(s0, s1, s2, h1, h2, rest, end);
  }

  lemma BeginTakeover(s0: System, s1: System, s2: System, h1: string, h2: string, rest: seq<Action>, end: System)
    requires Enabled(s0, Arrive(0, h1, 30)) && Act(s0, Arrive(0, h1, 30)) == s1
    requires Enabled(s1, TryInsert(0)) && Act(s1, TryInsert(0)) == s2
    requires var steps := [Tick(30)] + ([Arrive(1, h2, 30)] + ([TryInsert(1)] + ([Resolve(1)] + rest)));
             Runnable(s2, steps) && After(s2, steps) == end
    ensures Runnable(s0, TakeoverRun(h1, h2, rest)) && After(s0, TakeoverRun(h1, h2, rest)) == end
  {
    hide Act, Enabled, Runnable, After;
    var steps := [Tick(30)] + ([Arrive(1, h2, 30)] + ([TryInsert(1)] + ([Resolve(1)] + rest)));
    Before(s1, TryInsert(0), s2, steps, end);
    Before(s0, Arrive(0, h1, 30), s1, [TryInsert(0)] + steps, end);
  }

  /** Client 2 asks with client 1's request. */
  function AskAgain(h2: string): seq<Action> { [Arrive(2, h2, 30)] + ([TryInsert(2)] + ([Resolve(2)] + [])) }

  lemma AskedAgain(s: System, h2: string, end: System)
    requires |s.clients| == 3 && s.clients[2].Idle? && s.record.Some?
    requires end == Act(s.(clients := s.clients[2 := Refused(h2, s.clock, 30)]), Resolve(2))
    ensures Runnable(s, AskAgain(h2)) && After(s, AskAgain(h2)) == end
  {
    var a := s.(clients := s.clients[2 := Arrived(h2, s.clock, 30)]);
    var b := s.(clients := s.clients[2 := Refused(h2, s.clock, 30)]);
    assert Act(s, Arrive(2, h2, 30)) == a && Act(a, TryInsert(2)) == b;
    hide Act;
    Before(b, Resolve(2), end, [], end);
    Before(a, TryInsert(2), b, [Resolve(2)] + [], end);
    Before(s, Arrive(2, h2, 30), a, [TryInsert(2)] + ([Resolve(2)] + []), end);
  }

  function LateRun(h1: string, h2: string, statusCode: int, payload: string): seq<Action> {
    TakeoverRun(h1, h2, [Succeed(0, statusCode, payload)] + AskAgain(h2))
  }

  /** Client 0 stores its success on client 1's record; client 2, who asks the same as client 1,
      gets that answer, and it is wrong whenever the two requests differ. */
  lemma LateFinalizerPoisonsReplay(h1: string, h2: string, statusCode: int, payload: string)
    ensures Runnable(Start(3, 0), LateRun(h1, h2, statusCode, payload))
    ensures ReplaysAreHonest(After(Start(3, 0), LateRun(h1, h2, statusCode, payload))) <==> h1 == h2
  {
    var s6 := TakenOver(h1, h2);
    var claims := [Claim(h1, 0, 30, Some(Succeeded(statusCode, payload))), Claim(h2, 30, 60, None)];
    var record := WithSuccess(NewRecord(h2, 60), statusCode, payload);
    var s7 := System(Some(record), 30, [Gone, Executing(h2, 1), Idle], claims);
    var end := s7.(clients := [Gone, Executing(h2, 1), Answered(h2, 30, Replay(Some(statusCode), payload))]);
    assert s7.clients[2 := Refused(h2, 30, 30)] == [Gone, Executing(h2, 1), Refused(h2, 30, 30)];
    assert Act(s7.(clients := [Gone, Executing(h2, 1), Refused(h2, 30, 30)]), Resolve(2)) == end;
    assert Act(s6, Succeed(0, statusCode, payload)) == s7;
    assert claims[0].requestHash == h1;
    assert Produced(claims, h2, Some(statusCode), payload) <==> h1 == h2;
    assert end.clients[2].Answered?;
    assert ReplaysAreHonest(end) <==> h1 == h2;
    AskedAgain(s7, h2, end);
    hide Act, ReplaysAreHonest, TakeoverRun, AskAgain;
    Before(s6, Succeed(0, statusCode, payload), s7, AskAgain(h2), end);
    Takeover(h1, h2, [Succeed(0, statusCode, payload)] + AskAgain(h2), end);
  }

  function LateErrorRun(h1: string, h2: string, statusCode: int, payload: string): seq<Action> {
    TakeoverRun(h1, h2, [Succeed(1, statusCode, payload)] + ([Fail(0, 500, "", "")] + AskAgain(h2)))
  }

  /** Client 1 succeeds, client 0 fails late, and client 2, who asks the same as client 1, executes
      again although client 1's answer is alive for another half minute. */
  lemma LateErrorRepeatsASuccess(h1: string, h2: string, statusCode: int, payload: string)
    ensures Runnable(Start(3, 0), LateErrorRun(h1, h2, statusCode, payload))
    ensures !SuccessesLast(After(Start(3, 0), LateErrorRun(h1, h2, statusCode, payload)))
    ensures After(Start(3, 0), LateErrorRun(h1, h2, statusCode, payload)).clients == [Gone, Gone, Executing(h2, 2)]
  {
    var s6 := TakenOver(h1, h2);
    var done := Claim(h2, 30, 60, Some(Succeeded(statusCode, payload)));
    var success := WithSuccess(NewRecord(h2, 60), statusCode, payload);
    var failure := WithError(success, 500, "", "");
    var s7 := System(Some(success), 30, [Executing(h1, 0), Gone, Idle], [Claim(h1, 0, 30, None), done]);
    var s8 := System(Some(failure), 30, [Gone, Gone, Idle], [Claim(h1, 0, 30, Some(Errored)), done]);
    var end := System(Some(failure.(state := Processing)), 30, [Gone, Gone, Executing(h2, 2)],
                      [Claim(h1, 0, 30, Some(Errored)), done, Claim(h2, 30, 60, None)]);
    assert s8.clients[2 := Refused(h2, 30, 30)] == [Gone, Gone, Refused(h2, 30, 30)];
    assert Act(s8.(clients := [Gone, Gone, Refused(h2, 30, 30)]), Resolve(2)) == end;
    assert Act(s6, Succeed(1, statusCode, payload)) == s7 && Act(s7, Fail(0, 500, "", "")) == s8;
    assert end.claims[1] == done && end.claims[2].grantedAt == 30;
    assert !SuccessesLast(end);
    AskedAgain(s8, h2, end);
    hide Act, SuccessesLast, TakeoverRun, AskAgain;
    Before(s7, Fail(0, 500, "", ""), s8, AskAgain(h2), end);
    Before(s6, Succeed(1, statusCode, payload), s7, [Fail(0, 500, "", "")] + AskAgain(h2), end);
    Takeover(h1, h2, [Succeed(1, statusCode, payload)] + ([Fail(0, 500, "", "")] + AskAgain(h2)), end);
  }
}
