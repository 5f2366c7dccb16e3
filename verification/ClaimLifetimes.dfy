/** How long a record speaks for its key: what a request finds, by the record's own fields, and
    that no answer is ever given by a record that has run out. */
module ClaimLifetimes {
  import opened Wrappers
  import opened Idempotency
  import opened IdempotencyRuns

  // ---------------------------------------------------------------- one request

  /** The record of a granted claim: it lasts for the wished time, but thirty seconds at least. */
  predicate ClaimedBy(r: Record, hash: string, now: int, ttl: int) {
    && r.requestHash == hash && r.state.Processing?
    && now + 30 <= r.expiresAt && now + ttl <= r.expiresAt && (r.expiresAt == now + 30 || r.expiresAt == now + ttl)
  }

  predicate NothingStored(r: Record) { r.statusCode.None? && r.payload == "{}" && r.errorCode == "" }

  /** The first request for a key executes. */
  lemma FirstRequestClaims(s: System, w: nat)
    requires Enabled(s, TryInsert(w)) && s.record.None?
    ensures var Arrived(hash, now, ttl) := s.clients[w];
            var t := Act(s, TryInsert(w));
            && t.clients[w] == Executing(hash, |s.claims|) && t.record.Some?
            && ClaimedBy(t.record.value, hash, now, ttl) && NothingStored(t.record.value)
  {
  }

  /** A request that finds the record run out executes, whatever the record said and for whom; all
      that was stored is gone. */
  lemma ExpiredRecordIsReclaimed(s: System, w: nat)
    requires Enabled(s, Resolve(w)) && s.record.Some? && s.record.value.expiresAt <= s.clients[w].now
    ensures var Refused(hash, now, ttl) := s.clients[w];
            var t := Act(s, Resolve(w));
            && t.clients[w] == Executing(hash, |s.claims|) && t.record.Some?
            && ClaimedBy(t.record.value, hash, now, ttl) && NothingStored(t.record.value)
  {
  }

  /** What a live record answers, and that only a failed one lets the request execute. */
  lemma LiveRecordAnswersExactly(s: System, w: nat)
    requires Enabled(s, Resolve(w)) && s.record.Some? && s.clients[w].now < s.record.value.expiresAt
    ensures var Refused(hash, now, ttl) := s.clients[w];
            var r, t := s.record.value, Act(s, Resolve(w));
            && (t.clients[w] == Answered(hash, now, Conflict) <==> r.requestHash != hash)
            && (t.clients[w] == Answered(hash, now, Replay(r.statusCode, r.payload)) <==> r.requestHash == hash && r.state.Completed?)
            && (t.clients[w] == Answered(hash, now, InProgress) <==> r.requestHash == hash && r.state.Processing?)
            && (t.clients[w] == Executing(hash, |s.claims|) <==> r.requestHash == hash && r.state.Failed?)
            && (t.clients[w].Answered? ==> t.record == s.record && t.claims == s.claims)
            && (t.clients[w].Executing? ==> t.record.Some? && ClaimedBy(t.record.value, hash, now, ttl))
  {
  }

  /** A finalizer stores its own answer and leaves hash and expiry alone, whoever holds the claim;
      the code of an error is cut at 128 characters and never empty. */
  lemma FinalizersStoreTheirAnswer(s: System, w: nat, statusCode: int, payload: string, code: string)
    requires Enabled(s, Succeed(w, statusCode, payload))
    ensures var r := s.record.value;
            && Act(s, Succeed(w, statusCode, payload)).record
               == Some(Record(r.requestHash, Completed, Some(statusCode), payload, "", r.expiresAt))
            && (exists kept: string :: KeptCode(kept, code) && Act(s, Fail(w, statusCode, payload, code)).record
                  == Some(Record(r.requestHash, Failed, Some(statusCode), payload, kept, r.expiresAt)))
  {
    assert KeptCode(ErrorCode(code), code);
  }

  /** An execution that is given up leaves record and claims as they are, for others to run out. */
  lemma AbandonedClaimsStay(s: System, w: nat)
    requires Enabled(s, Abandon(w))
    ensures Act(s, Abandon(w)) == System(s.record, s.clock, s.clients[w := Gone], s.claims)
  {
  }

  predicate KeptCode(kept: string, code: string) {
    && (code == "" ==> kept == "unknown_error")
    && (code != "" ==> kept <= code && |kept| <= 128 && (|kept| < |code| ==> |kept| == 128))
  }

  // ---------------------------------------------------------------- whole runs

  /** The record carries hash and expiry of the latest claim, however that claim went on. */
  ghost predicate RecordIsTheLatestClaim(s: System) {
    s.record.Some? ==>
      && s.claims != []
      && s.record.value.requestHash == s.claims[|s.claims| - 1].requestHash
      && s.record.value.expiresAt == s.claims[|s.claims| - 1].expiresAt
  }

  /** Some claim of this hash was alive at that time. */
  ghost predicate AliveAt(claims: seq<Claim>, hash: string, now: int) {
    exists c :: 0 <= c < |claims| && claims[c].requestHash == hash && now < claims[c].expiresAt
  }

  ghost predicate AnotherAliveAt(claims: seq<Claim>, hash: string, now: int) {
    exists c :: 0 <= c < |claims| && claims[c].requestHash != hash && now < claims[c].expiresAt
  }

  /** A replay or "in progress" comes from a claim of the same request that was alive when the
      client looked at its clock, a conflict from a live claim of another request. */
  ghost predicate WellFounded(claims: seq<Claim>, c: Client) {
    c.Answered? ==>
      && ((c.outcome.Replay? || c.outcome.InProgress?) ==> AliveAt(claims, c.hash, c.now))
      && (c.outcome.Conflict? ==> AnotherAliveAt(claims, c.hash, c.now))
  }

  ghost predicate AnswersWellFounded(s: System) {
    forall w :: 0 <= w < |s.clients| ==> WellFounded(s.claims, s.clients[w])
  }

  /** Claims are only added, and keep hash and expiry. */
  ghost predicate ClaimsGrow(before: seq<Claim>, after: seq<Claim>) {
    && |before| <= |after|
    && forall c :: 0 <= c < |before| ==> after[c].requestHash == before[c].requestHash && after[c].expiresAt == before[c].expiresAt
  }

  lemma WellFoundedStays(before: seq<Claim>, after: seq<Claim>, c: Client)
    requires WellFounded(before, c) && ClaimsGrow(before, after)
    ensures WellFounded(after, c)
  {
  }

  lemma StepGrowsClaims(s: System, a: Action)
    requires Enabled(s, a) && RecordIsTheLatestClaim(s)
    ensures ClaimsGrow(s.claims, Act(s, a).claims) && RecordIsTheLatestClaim(Act(s, a))
  {
  }

  lemma StepFoundsAnswers(s: System, a: Action)
    requires Enabled(s, a) && RecordIsTheLatestClaim(s) && AnswersWellFounded(s)
    ensures AnswersWellFounded(Act(s, a))
  {
    var t := Act(s, a);
    StepGrowsClaims(s, a);
    forall w | 0 <= w < |t.clients|
      ensures WellFounded(t.claims, t.clients[w])
    {
      if t.clients[w] == s.clients[w] {
        WellFoundedStays(s.claims, t.claims, s.clients[w]);
      } else if t.clients[w].Answered? {
        AnswerIsFounded(s, w);
      }
    }
  }

  lemma AnswerIsFounded(s: System, w: nat)
    requires Enabled(s, Resolve(w)) && RecordIsTheLatestClaim(s)
    ensures WellFounded(s.claims, Act(s, Resolve(w)).clients[w])
  {
  }

  lemma {:induction false} RunFoundsAnswers(s: System, acts: seq<Action>)
    requires RecordIsTheLatestClaim(s) && AnswersWellFounded(s) && Runnable(s, acts)
    ensures AnswersWellFounded(After(s, acts)) && RecordIsTheLatestClaim(After(s, acts))
    decreases |acts|
  {
    hide RecordIsTheLatestClaim, AnswersWellFounded, Act, Enabled;
    if acts != [] {
      StepGrowsClaims(s, acts[0]);
      StepFoundsAnswers(s, acts[0]);
      RunFoundsAnswers(Act(s, acts[0]), acts[1..]);
    }
  }

  /** Over every run, late finishers included, no answer is given by a claim that had run out for
      the client that asked. */
  lemma NoAnswerOutlivesItsClaim(clients: nat, clock: int, acts: seq<Action>)
    requires Runnable(Start(clients, clock), acts)
    ensures AnswersWellFounded(After(Start(clients, clock), acts))
  {
    var s := Start(clients, clock);
    assert RecordIsTheLatestClaim(s) && AnswersWellFounded(s);
    hide Start, Act, Enabled, Runnable, After;
    RunFoundsAnswers(s, acts);
  }
}
