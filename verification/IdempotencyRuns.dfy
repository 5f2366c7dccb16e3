/** Every interleaving of claimers, finalizers and clock ticks on one (scope, key). */
module IdempotencyRuns {
  import opened Wrappers
  import opened Idempotency

  /** How an execution ended. */
  datatype Ending = Succeeded(statusCode: int, payload: string) | Errored

  /** One granted claim: whose request, when, until when, and how its execution ended. */
  datatype Claim = Claim(requestHash: string, grantedAt: int, expiresAt: int, ending: Option<Ending>)

  datatype Client =
    | Idle
    | Arrived(hash: string, now: int, ttl: int)
    | Refused(hash: string, now: int, ttl: int)
    | Executing(hash: string, claim: nat)
    | Answered(hash: string, now: int, outcome: Outcome)
    | Gone

  datatype System = System(record: Option<Record>, clock: int, clients: seq<Client>, claims: seq<Claim>)

  datatype Action =
    | Arrive(w: nat, hash: string, ttl: int)
    | TryInsert(w: nat)
    | Resolve(w: nat)
    | Succeed(w: nat, statusCode: int, payload: string)
    | Fail(w: nat, statusCode: int, payload: string, code: string)
    | Abandon(w: nat)
    | Tick(seconds: nat)

  predicate Enabled(s: System, a: Action) {
    match a
    case Arrive(w, _, _) => w < |s.clients| && s.clients[w].Idle?
    case TryInsert(w) => w < |s.clients| && s.clients[w].Arrived?
    case Resolve(w) => w < |s.clients| && s.clients[w].Refused?
    case Succeed(w, _, _) => w < |s.clients| && s.clients[w].Executing? && s.record.Some? && s.clients[w].claim < |s.claims|
    case Fail(w, _, _, _) => w < |s.clients| && s.clients[w].Executing? && s.record.Some? && s.clients[w].claim < |s.claims|
    case Abandon(w) => w < |s.clients| && s.clients[w].Executing?
    case Tick(_) => true
  }

  /** A claim is granted: the record is written and the client starts to execute. */
  function Grant(s: System, w: nat, hash: string, r: Record): System
    requires w < |s.clients|
  {
    s.(record := Some(r), clients := s.clients[w := Executing(hash, |s.claims|)],
       claims := s.claims + [Claim(hash, s.clock, r.expiresAt, None)])
  }

  function Finish(s: System, w: nat, r: Record, ending: Ending): System
    requires w < |s.clients| && s.clients[w].Executing? && s.clients[w].claim < |s.claims|
  {
    var c := s.clients[w].claim;
    s.(record := Some(r), clients := s.clients[w := Gone], claims := s.claims[c := s.claims[c].(ending := Some(ending))])
  }

  function Act(s: System, a: Action): System
    requires Enabled(s, a)
  {
    match a
    case Arrive(w, hash, ttl) => s.(clients := s.clients[w := Arrived(hash, s.clock, ttl)])
    case TryInsert(w) =>
      var Arrived(hash, now, ttl) := s.clients[w];
      if s.record.None? then Grant(s, w, hash, NewRecord(hash, Expiry(now, ttl)))
      else s.(clients := s.clients[w := Refused(hash, now, ttl)])
    case Resolve(w) =>
      var Refused(hash, now, ttl) := s.clients[w];
      var (after, outcome) := Resolved(s.record, hash, now, Expiry(now, ttl));
      if outcome.Claimed? && after.Some? then Grant(s, w, hash, after.value)
      else s.(clients := s.clients[w := Answered(hash, now, outcome)])
    case Succeed(w, statusCode, payload) =>
      Finish(s, w, WithSuccess(s.record.value, statusCode, payload), Succeeded(statusCode, payload))
    case Fail(w, statusCode, payload, code) =>
      Finish(s, w, WithError(s.record.value, statusCode, payload, code), Errored)
    case Abandon(w) => s.(clients := s.clients[w := Gone])
    case Tick(seconds) => s.(clock := s.clock + seconds)
  }

  // ---------------------------------------------------------------- the invariant

  /** The hypothesis: nobody is still executing when its claim expires. */
  ghost predicate InTime(s: System) {
    forall w :: 0 <= w < |s.clients| && s.clients[w].Executing? && s.clients[w].claim < |s.claims|
      ==> s.clock < s.claims[s.clients[w].claim].expiresAt
  }

  /** The record tells how the latest claim ended. */
  ghost predicate RecordMatchesLatest(s: System) {
    s.record.Some? ==>
      && s.claims != []
      && var latest, r := s.claims[|s.claims| - 1], s.record.value;
         && r.requestHash == latest.requestHash && r.expiresAt == latest.expiresAt
         && (r.state.Completed? <==> latest.ending.Some? && latest.ending.value.Succeeded?)
         && (r.state.Completed? ==> r.statusCode.Some? && latest.ending == Some(Succeeded(r.statusCode.value, r.payload)))
         && (r.state.Failed? <==> latest.ending == Some(Errored))
  }

  /** Whoever executes holds the latest claim, under its own hash, and has not finished it. */
  ghost predicate ExecutorsHoldLatest(s: System) {
    forall w :: 0 <= w < |s.clients| && s.clients[w].Executing? ==>
      && s.record.Some? && s.claims != []
      && s.clients[w].claim == |s.claims| - 1
      && s.claims[|s.claims| - 1].requestHash == s.clients[w].hash
      && s.claims[|s.claims| - 1].ending.None?
  }

  ghost predicate OneExecutor(s: System) {
    forall v, w :: 0 <= v < |s.clients| && 0 <= w < |s.clients| && s.clients[v].Executing? && s.clients[w].Executing? ==> v == w
  }

  ghost predicate ClocksSane(s: System) {
    && (forall w :: 0 <= w < |s.clients| && s.clients[w].Arrived? ==> s.clients[w].now <= s.clock)
    && (forall w :: 0 <= w < |s.clients| && s.clients[w].Refused? ==> s.clients[w].now <= s.clock)
    && (forall c :: 0 <= c < |s.claims| ==> s.claims[c].grantedAt <= s.clock)
    && (forall c, d :: 0 <= c < d < |s.claims| ==> s.claims[c].grantedAt <= s.claims[d].grantedAt)
  }

  /** After a success, no claim is granted until that success has expired. */
  ghost predicate SuccessesLast(s: System) {
    forall c, d :: 0 <= c < d < |s.claims| && s.claims[c].ending.Some? && s.claims[c].ending.value.Succeeded?
      ==> s.claims[c].expiresAt <= s.claims[d].grantedAt
  }

  ghost predicate Produced(claims: seq<Claim>, hash: string, statusCode: Option<int>, payload: string) {
    exists c :: 0 <= c < |claims| && claims[c].requestHash == hash && statusCode.Some?
      && claims[c].ending == Some(Succeeded(statusCode.value, payload))
  }

  /** Every replay handed out was produced by an execution of the same request. */
  ghost predicate ReplaysAreHonest(s: System) {
    forall w :: 0 <= w < |s.clients| && s.clients[w].Answered? && s.clients[w].outcome.Replay?
      ==> Produced(s.claims, s.clients[w].hash, s.clients[w].outcome.statusCode, s.clients[w].outcome.payload)
  }

  ghost predicate Inv(s: System) {
    RecordMatchesLatest(s) && ExecutorsHoldLatest(s) && OneExecutor(s) && ClocksSane(s) && SuccessesLast(s) && ReplaysAreHonest(s)
    && (s.record.None? ==> s.claims == []) && NeverMissing(s)
  }

  /** A refused insert means the row exists; rows are never deleted. */
  ghost predicate NeverMissing(s: System) {
    forall w :: 0 <= w < |s.clients| ==>
      (s.clients[w].Refused? ==> s.record.Some?) && (s.clients[w].Answered? ==> s.clients[w].outcome != Missing)
  }

  // ---------------------------------------------------------------- steps

  /** Appending a claim is safe when nobody executes and no success is still alive. */
  lemma GrantKeepsInv(s: System, w: nat, hash: string, r: Record)
    requires Inv(s) && w < |s.clients| && !s.clients[w].Executing?
    requires forall v :: 0 <= v < |s.clients| ==> !s.clients[v].Executing?
    requires r.requestHash == hash && r.state.Processing?
    requires s.claims != [] && s.claims[|s.claims| - 1].ending.Some? && s.claims[|s.claims| - 1].ending.value.Succeeded?
      ==> s.claims[|s.claims| - 1].expiresAt <= s.clock
    ensures Inv(Grant(s, w, hash, r))
  {
    var t := Grant(s, w, hash, r);
    assert forall c :: 0 <= c < |s.claims| ==> t.claims[c] == s.claims[c];
    forall c, d | 0 <= c < d < |t.claims| && t.claims[c].ending.Some? && t.claims[c].ending.value.Succeeded?
      ensures t.claims[c].expiresAt <= t.claims[d].grantedAt
    {
      if d == |s.claims| && c < d - 1 {
        assert s.claims[c].expiresAt <= s.claims[d - 1].grantedAt;
      }
    }
    forall v | 0 <= v < |t.clients| && t.clients[v].Answered? && t.clients[v].outcome.Replay?
      ensures Produced(t.claims, t.clients[v].hash, t.clients[v].outcome.statusCode, t.clients[v].outcome.payload)
    {
      ProducedStays(s.claims, t.claims, t.clients[v].hash, t.clients[v].outcome.statusCode, t.clients[v].outcome.payload);
    }
  }

  lemma ProducedStays(before: seq<Claim>, after: seq<Claim>, hash: string, statusCode: Option<int>, payload: string)
    requires Produced(before, hash, statusCode, payload) && |before| <= |after|
    requires forall c :: 0 <= c < |before| && before[c].ending.Some? ==> after[c] == before[c]
    ensures Produced(after, hash, statusCode, payload)
  {
    var c :| 0 <= c < |before| && before[c].requestHash == hash && statusCode.Some?
      && before[c].ending == Some(Succeeded(statusCode.value, payload));
    assert after[c] == before[c];
  }

  lemma FinishKeepsInv(s: System, w: nat, r: Record, ending: Ending)
    requires Inv(s) && w < |s.clients| && s.clients[w].Executing?
    requires r.requestHash == s.record.value.requestHash && r.expiresAt == s.record.value.expiresAt
    requires ending.Succeeded? ==> r.state.Completed? && r.statusCode == Some(ending.statusCode) && r.payload == ending.payload
    requires ending.Errored? ==> r.state.Failed?
    ensures Inv(Finish(s, w, r, ending))
  {
    var t := Finish(s, w, r, ending);
    var last := |s.claims| - 1;
    assert s.clients[w].claim == last;
    assert forall c :: 0 <= c < last ==> t.claims[c] == s.claims[c];
    forall v | 0 <= v < |t.clients| && t.clients[v].Answered? && t.clients[v].outcome.Replay?
      ensures Produced(t.claims, t.clients[v].hash, t.clients[v].outcome.statusCode, t.clients[v].outcome.payload)
    {
      ProducedStays(s.claims, t.claims, t.clients[v].hash, t.clients[v].outcome.statusCode, t.clients[v].outcome.payload);
    }
  }

  lemma TryInsertKeepsInv(s: System, w: nat)
    requires Inv(s) && Enabled(s, TryInsert(w))
    ensures Inv(Act(s, TryInsert(w)))
  {
    if s.record.None? {
      GrantKeepsInv(s, w, s.clients[w].hash, NewRecord(s.clients[w].hash, Expiry(s.clients[w].now, s.clients[w].ttl)));
    }
  }

  /** Under the hypothesis an expired record has no executor, and a live one answers honestly. */
  lemma ResolveKeepsInv(s: System, w: nat)
    requires Inv(s) && InTime(s) && Enabled(s, Resolve(w))
    ensures Inv(Act(s, Resolve(w)))
  {
    var Refused(hash, now, ttl) := s.clients[w];
    var (after, outcome) := Resolved(s.record, hash, now, Expiry(now, ttl));
    if outcome.Claimed? {
      GrantKeepsInv(s, w, hash, after.value);
    } else if outcome.Replay? {
      var last := |s.claims| - 1;
      assert s.claims[last].requestHash == hash;
      assert Produced(s.claims, hash, outcome.statusCode, outcome.payload);
    }
  }

  lemma TickKeepsInv(s: System, seconds: nat)
    requires Inv(s)
    ensures Inv(s.(clock := s.clock + seconds))
  {
    hide Produced;
  }

  /** A client that is not executing moves without touching the record or the claims. */
  lemma MoveKeepsInv(s: System, w: nat, client: Client)
    requires Inv(s) && w < |s.clients| && !client.Executing? && !client.Refused? && !client.Answered?
    requires client.Arrived? ==> client.now <= s.clock
    ensures Inv(s.(clients := s.clients[w := client]))
  {
    hide Produced;
  }

  lemma StepKeepsInv(s: System, a: Action)
    requires Inv(s) && InTime(s) && Enabled(s, a)
    ensures Inv(Act(s, a))
  {
    match a
    case Arrive(w, hash, ttl) =>
      hide Inv;
      MoveKeepsInv(s, w, Arrived(hash, s.clock, ttl));
    case TryInsert(w) =>
      hide Inv, Act;
      TryInsertKeepsInv(s, w);
    case Resolve(w) =>
      hide Inv, Act;
      ResolveKeepsInv(s, w);
    case Succeed(w, statusCode, payload) =>
      hide Inv, Finish;
      FinishKeepsInv(s, w, WithSuccess(s.record.value, statusCode, payload), Succeeded(statusCode, payload));
    case Fail(w, statusCode, payload, code) =>
      hide Inv, Finish;
      FinishKeepsInv(s, w, WithError(s.record.value, statusCode, payload, code), Errored);
    case Abandon(w) =>
      hide Inv;
      MoveKeepsInv(s, w, Gone);
    case Tick(seconds) =>
      hide Inv;
      TickKeepsInv(s, seconds);
  }

  // ---------------------------------------------------------------- runs

  ghost predicate Runnable(s: System, acts: seq<Action>)
    decreases |acts|
  {
    acts != [] ==> Enabled(s, acts[0]) && Runnable(Act(s, acts[0]), acts[1..])
  }

  ghost function After(s: System, acts: seq<Action>): System
    requires Runnable(s, acts)
    decreases |acts|
  {
    if acts == [] then s else After(Act(s, acts[0]), acts[1..])
  }

  ghost predicate AlwaysInTime(s: System, acts: seq<Action>)
    requires Runnable(s, acts)
    decreases |acts|
  {
    InTime(s) && (acts != [] ==> AlwaysInTime(Act(s, acts[0]), acts[1..]))
  }

  lemma {:induction false} RunKeepsInv(s: System, acts: seq<Action>)
    requires Inv(s) && Runnable(s, acts) && AlwaysInTime(s, acts)
    ensures Inv(After(s, acts))
    decreases |acts|
  {
    hide Inv, Act, Enabled, InTime;
    if acts != [] {
      StepKeepsInv(s, acts[0]);
      RunKeepsInv(Act(s, acts[0]), acts[1..]);
    }
  }

  /** No record yet, nobody has arrived. */
  function Start(clients: nat, clock: int): System { System(None, clock, seq(clients, i => Idle), []) }

  /** In every run in which no execution outlives its claim: at most one client executes, every
      replay was produced by an execution of the same request, and between a success and its
      expiry no other claim is granted, so no second execution can succeed. */
  lemma TimelyRunsAreSafe(clients: nat, clock: int, acts: seq<Action>)
    requires Runnable(Start(clients, clock), acts) && AlwaysInTime(Start(clients, clock), acts)
    ensures var s := After(Start(clients, clock), acts);
            OneExecutor(s) && ReplaysAreHonest(s) && SuccessesLast(s) && RecordMatchesLatest(s) && NeverMissing(s)
  {
    var s := Start(clients, clock);
    assert Inv(s);
    hide Start, Act, Enabled, Runnable, After;
    RunKeepsInv(s, acts);
  }

  /** While a record is live, a request with another hash gets a conflict and changes nothing. */
  lemma LiveRecordRefusesOtherRequests(s: System, w: nat)
    requires ClocksSane(s) && Enabled(s, Resolve(w)) && s.record.Some?
    requires s.clock < s.record.value.expiresAt && s.record.value.requestHash != s.clients[w].hash
    ensures Act(s, Resolve(w)) == s.(clients := s.clients[w := Answered(s.clients[w].hash, s.clients[w].now, Conflict)])
  {
  }

  /** A replay tells what the latest claim's execution stored, and changes nothing. */
  lemma ReplayIsTheLatestSuccess(s: System, w: nat)
    requires Inv(s) && Enabled(s, Resolve(w))
    requires Act(s, Resolve(w)).clients[w].Answered? && Act(s, Resolve(w)).clients[w].outcome.Replay?
    ensures Act(s, Resolve(w)).record == s.record && Act(s, Resolve(w)).claims == s.claims && s.claims != []
    ensures var latest := s.claims[|s.claims| - 1];
            var outcome := Act(s, Resolve(w)).clients[w].outcome;
            && latest.requestHash == s.clients[w].hash
            && outcome.statusCode.Some?
            && latest.ending == Some(Succeeded(outcome.statusCode.value, outcome.payload))
  {
    assert RecordMatchesLatest(s);
  }

  /** Prefixing one step to a run. */
  lemma Before(s: System, a: Action, t: System, rest: seq<Action>, end: System)
    requires Enabled(s, a) && Act(s, a) == t && Runnable(t, rest) && After(t, rest) == end
    ensures Runnable(s, [a] + rest) && After(s, [a] + rest) == end
  {
    assert ([a] + rest)[1..] == rest;
  }
}
