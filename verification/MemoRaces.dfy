/** Pushes of one order row in their single statements: the row can be edited, and other pushes of
    it can run, between reading the memo, sending it and marking the row. */
module MemoRaces {
  import opened Wrappers
  import opened OrderTable
  import M = MemoSync

  /** A push under way: where it sends, the memo it has read, and its calls so far. */
  datatype Flight = Flight(to: M.Identity, memo: string, made: seq<M.Call>)

  datatype Desk = Desk(row: Row, remote: M.Remote, calls: seq<M.Call>, flights: map<nat, Flight>)

  datatype Move =
    | Edit(memo: Option<string>)
    | Begin(p: nat, kidNumbers: seq<string>, lookup: M.Lookup)
    | Attempt(p: nat, reply: M.Reply)
    | Mark(p: nat, now: int)

  predicate MayRepeat(calls: seq<M.Call>) {
    calls == [] || (|calls| < M.MAX_ATTEMPTS && M.Retryable(calls[|calls| - 1].reply))
  }

  predicate Enabled(d: Desk, m: Move) {
    match m
    case Edit(_) => true
    case Begin(p, _, _) => p !in d.flights
    case Attempt(p, _) => p in d.flights && MayRepeat(d.flights[p].made)
    case Mark(p, _) => p in d.flights && !MayRepeat(d.flights[p].made)
  }

  function Next(d: Desk, m: Move): Desk
    requires Enabled(d, m)
  {
    match m
    case Edit(memo) => d.(row := M.Edited(d.row, memo))
    case Begin(p, kidNumbers, lookup) =>
      (match M.IdentityFor(d.row, kidNumbers, lookup)
       case None => d.(row := M.MarkedFailed(d.row, OrderNotFound, None))
       case Some(to) =>
         d.(row := M.MarkedPending(d.row, to.profile), flights := d.flights[p := Flight(to, M.MemoText(d.row.memo), [])]))
    case Attempt(p, reply) =>
      var f := d.flights[p];
      var c := M.Call(d.row.pk, f.to, f.memo, reply);
      d.(remote := M.AfterCall(d.remote, c), calls := d.calls + [c], flights := d.flights[p := f.(made := f.made + [c])])
    case Mark(p, now) =>
      d.(row := M.Concluded(d.row, d.flights[p].to, d.flights[p].made, now), flights := d.flights - {p})
  }

  ghost predicate IsRun(d: Desk, moves: seq<Move>)
    decreases |moves|
  {
    moves != [] ==> Enabled(d, moves[0]) && IsRun(Next(d, moves[0]), moves[1..])
  }

  ghost function Run(d: Desk, moves: seq<Move>): Desk
    requires IsRun(d, moves)
    decreases |moves|
  {
    if moves == [] then d else Run(Next(d, moves[0]), moves[1..])
  }

  // ---------------------------------------------------------------- what a mark says

  /** A row shown as synced has its memo delivered. */
  ghost predicate Honest(d: Desk) {
    d.row.memoStatus.Synced? ==> M.Delivered(d.calls, 0, d.row.pk, d.row.memo)
  }

  predicate SentBy(f: Flight, calls: seq<M.Call>, pk: nat, i: nat) {
    i < |calls| && calls[i].pk == pk && calls[i].memo == f.memo && calls[i].reply.Accepted?
  }

  /** A push whose last call was accepted has delivered the memo it had read. */
  ghost predicate Sound(d: Desk) {
    forall p :: p in d.flights && M.VerdictOf(d.flights[p].made).Done?
      ==> exists i :: SentBy(d.flights[p], d.calls, d.row.pk, i)
  }

  /** The row still has the memo this push has sent, or one that was delivered anyway. */
  ghost predicate StillItsMemo(d: Desk, p: nat)
    requires p in d.flights
  {
    M.MemoText(d.row.memo) == d.flights[p].memo || M.Delivered(d.calls, 0, d.row.pk, d.row.memo)
  }

  /** Marks as synced only what was delivered. */
  ghost predicate Proper(d: Desk, m: Move)
    requires Enabled(d, m)
  {
    m.Mark? && M.VerdictOf(d.flights[m.p].made).Done? ==> StillItsMemo(d, m.p)
  }

  lemma SentStays(f: Flight, calls: seq<M.Call>, more: seq<M.Call>, pk: nat, i: nat)
    requires SentBy(f, calls, pk, i)
    ensures SentBy(f, calls + more, pk, i)
  {
  }

  lemma NextKeepsSound(d: Desk, m: Move)
    requires Sound(d) && Enabled(d, m)
    ensures Sound(Next(d, m))
  {
    var e := Next(d, m);
    assert e.row.pk == d.row.pk && d.calls <= e.calls;
    forall p | p in e.flights && M.VerdictOf(e.flights[p].made).Done?
      ensures exists i :: SentBy(e.flights[p], e.calls, e.row.pk, i)
    {
      if p in d.flights && e.flights[p] == d.flights[p] {
        var i :| SentBy(d.flights[p], d.calls, d.row.pk, i);
        assert SentBy(e.flights[p], e.calls, e.row.pk, i);
      } else {
        assert SentBy(e.flights[p], e.calls, e.row.pk, |d.calls|);
      }
    }
  }

  lemma NextIsHonestExactly(d: Desk, m: Move)
    requires Sound(d) && Honest(d) && Enabled(d, m)
    ensures Honest(Next(d, m)) <==> Proper(d, m)
  {
    var e := Next(d, m);
    assert d.calls <= e.calls;
    if m.Mark? && M.VerdictOf(d.flights[m.p].made).Done? {
      var i :| SentBy(d.flights[m.p], d.calls, d.row.pk, i);
    }
  }

  ghost predicate HonestThroughout(d: Desk, moves: seq<Move>)
    requires IsRun(d, moves)
    decreases |moves|
  {
    Honest(d) && (moves != [] ==> HonestThroughout(Next(d, moves[0]), moves[1..]))
  }

  ghost predicate AlwaysProper(d: Desk, moves: seq<Move>)
    requires IsRun(d, moves)
    decreases |moves|
  {
    moves != [] ==> Proper(d, moves[0]) && AlwaysProper(Next(d, moves[0]), moves[1..])
  }

  /** Whatever edits and other pushes come in between: a synced row never has an undelivered memo
      exactly when every successful push finds, on marking, the memo it has sent. */
  lemma {:induction false} RunsAreHonestExactly(d: Desk, moves: seq<Move>)
    requires Sound(d) && Honest(d) && IsRun(d, moves)
    ensures HonestThroughout(d, moves) <==> AlwaysProper(d, moves)
    decreases |moves|
  {
    hide Sound, Honest, Enabled, Next, Proper;
    if moves != [] {
      NextIsHonestExactly(d, moves[0]);
      if Proper(d, moves[0]) {
        NextKeepsSound(d, moves[0]);
        RunsAreHonestExactly(Next(d, moves[0]), moves[1..]);
      }
    }
  }

  // ---------------------------------------------------------------- one push among others

  predicate Marks(m: Move, p: nat) { m.Mark? && m.p == p }

  /** The memo a push sends is the one it has read, whatever happens to the row. */
  lemma {:induction false} FlightKeepsItsMemo(d: Desk, p: nat, moves: seq<Move>)
    requires IsRun(d, moves) && p in d.flights && forall m :: m in moves ==> !Marks(m, p)
    ensures p in Run(d, moves).flights && Run(d, moves).flights[p].memo == d.flights[p].memo
    decreases |moves|
  {
    if moves != [] {
      assert !Marks(moves[0], p);
      FlightKeepsItsMemo(Next(d, moves[0]), p, moves[1..]);
    }
  }

  /** A successful push marks the row as synced; its own calls are of the memo the row then has
      exactly when that reads as it did when the push began. */
  lemma MarkIsRightExactly(d: Desk, p: nat, kidNumbers: seq<string>, lookup: M.Lookup, between: seq<Move>, now: int)
    requires Enabled(d, Begin(p, kidNumbers, lookup)) && M.IdentityFor(d.row, kidNumbers, lookup).Some?
    requires IsRun(Next(d, Begin(p, kidNumbers, lookup)), between) && forall m :: m in between ==> !Marks(m, p)
    requires var e := Run(Next(d, Begin(p, kidNumbers, lookup)), between);
             p in e.flights ==> M.VerdictOf(e.flights[p].made).Done?
    ensures var e := Run(Next(d, Begin(p, kidNumbers, lookup)), between);
            && Enabled(e, Mark(p, now)) && Next(e, Mark(p, now)).row.memoStatus.Synced?
            && (e.flights[p].memo == M.MemoText(Next(e, Mark(p, now)).row.memo) <==> M.MemoText(e.row.memo) == M.MemoText(d.row.memo))
  {
    FlightKeepsItsMemo(Next(d, Begin(p, kidNumbers, lookup)), p, between);
  }

  /** An edit between the call and the mark: the row is shown as synced with a memo that no call
      has ever sent. */
  lemma EditDuringAPushIsLost(row: Row, kidNumbers: seq<string>, lookup: M.Lookup, edited: string, now: int)
    requires M.IdentityFor(row, kidNumbers, lookup).Some? && edited != M.MemoText(row.memo)
    ensures var moves := [Begin(0, kidNumbers, lookup)] + ([Attempt(0, M.Accepted)] + ([Edit(Some(edited))] + ([Mark(0, now)] + [])));
            var d := Desk(row, map[], [], map[]);
            && IsRun(d, moves)
            && Run(d, moves).row.memo == Some(edited) && Run(d, moves).row.memoStatus.Synced?
            && !M.Delivered(Run(d, moves).calls, 0, row.pk, Some(edited))
  {
    var to, memo := M.IdentityFor(row, kidNumbers, lookup).value, M.MemoText(row.memo);
    var d0, d1 := Desk(row, map[], [], map[]), Sending(row, to, memo, []);
    var c := M.Call(row.pk, to, memo, M.Accepted);
    var d2 := Sending(row, to, memo, [c]);
    var d3 := d2.(row := M.Edited(d2.row, Some(edited)));
    var d4 := Desk(M.MarkedSynced(d3.row, to.profile, now), d2.remote, [c], map[]);
    hide *;
    Beginning(row, kidNumbers, lookup, to);
    Sent(row, to, memo);
    Ending(d2, to, memo, c, edited, now);
    RunCons(d1, Attempt(0, M.Accepted), [Edit(Some(edited))] + ([Mark(0, now)] + []));
    RunCons(d0, Begin(0, kidNumbers, lookup), [Attempt(0, M.Accepted)] + ([Edit(Some(edited))] + ([Mark(0, now)] + [])));
  }

  /** The only push of a row, after these calls. */
  function Sending(row: Row, to: M.Identity, memo: string, made: seq<M.Call>): Desk {
    Desk(M.MarkedPending(row, to.profile), if made == [] then map[] else map[to := memo], made, map[0 := Flight(to, memo, made)])
  }

  lemma Beginning(row: Row, kidNumbers: seq<string>, lookup: M.Lookup, to: M.Identity)
    requires M.IdentityFor(row, kidNumbers, lookup) == Some(to)
    ensures Enabled(Desk(row, map[], [], map[]), Begin(0, kidNumbers, lookup))
    ensures Next(Desk(row, map[], [], map[]), Begin(0, kidNumbers, lookup)) == Sending(row, to, M.MemoText(row.memo), [])
  {
    hide M.IdentityFor, M.MemoText;
  }

  lemma Sent(row: Row, to: M.Identity, memo: string)
    ensures Enabled(Sending(row, to, memo, []), Attempt(0, M.Accepted))
    ensures Next(Sending(row, to, memo, []), Attempt(0, M.Accepted)) == Sending(row, to, memo, [M.Call(row.pk, to, memo, M.Accepted)])
  {
    assert [] + [M.Call(row.pk, to, memo, M.Accepted)] == [M.Call(row.pk, to, memo, M.Accepted)];
  }

  /** The edit after the accepted call, and the mark after the edit. */
  lemma Ending(d: Desk, to: M.Identity, memo: string, c: M.Call, edited: string, now: int)
    requires d.calls == [c] && d.flights == map[0 := Flight(to, memo, [c])] && c.reply.Accepted? && c.memo != edited && c.pk == d.row.pk
    ensures var moves := [Edit(Some(edited))] + ([Mark(0, now)] + []);
            && IsRun(d, moves)
            && Run(d, moves).row.memo == Some(edited) && Run(d, moves).row.memoStatus.Synced?
            && !M.Delivered(Run(d, moves).calls, 0, d.row.pk, Some(edited))
  {
    var e := Next(d, Edit(Some(edited)));
    assert Enabled(e, Mark(0, now)) && IsRun(Next(e, Mark(0, now)), []);
    assert !M.Delivered([c], 0, d.row.pk, Some(edited));
    RunCons(e, Mark(0, now), []);
    RunCons(d, Edit(Some(edited)), [Mark(0, now)] + []);
  }

  lemma RunCons(d: Desk, m: Move, rest: seq<Move>)
    requires Enabled(d, m) && IsRun(Next(d, m), rest)
    ensures IsRun(d, [m] + rest) && Run(d, [m] + rest) == Run(Next(d, m), rest)
  {
    hide Enabled, Next;
    assert ([m] + rest)[1..] == rest;
  }

  /** While a push is under way its row says so: an edit or the start of a push makes it pending
      and drops the error of an earlier one; only the mark of a push changes that again. */
  lemma StartedRowsArePending(d: Desk, m: Move)
    requires Enabled(d, m) && (m.Edit? || (m.Begin? && M.IdentityFor(d.row, m.kidNumbers, m.lookup).Some?))
    ensures var row := Next(d, m).row;
            && row.memoStatus.Pending? && row.memoError.None? && row.memoErrorType.None? && row.memoSyncedAt == d.row.memoSyncedAt
            && row.memo == (if m.Edit? then m.memo else d.row.memo)
            && row.profile == (if m.Edit? then d.row.profile else Some(M.IdentityFor(d.row, m.kidNumbers, m.lookup).value.profile))
  {
    hide M.IdentityFor;
  }

  /** A push that finds no order fails at once, and never gets under way. */
  lemma UnaddressedPushesFail(d: Desk, m: Move)
    requires Enabled(d, m) && m.Begin? && M.IdentityFor(d.row, m.kidNumbers, m.lookup).None?
    ensures Next(d, m) == d.(row := d.row.(memoStatus := FailedSync, memoError := Some(OrderNotFound), memoErrorType := None))
  {
    hide M.IdentityFor;
  }

  lemma OnlyMarksConclude(d: Desk, m: Move)
    requires Enabled(d, m) && !m.Mark? && !m.Edit? && !m.Begin?
    ensures Next(d, m).row == d.row
  {
  }

  // ---------------------------------------------------------------- undisturbed

  /** The attempts of a push that is left alone. */
  function Tries(p: nat, reply: nat -> M.Reply): seq<Move> {
    if M.Retryable(reply(0)) then [Attempt(p, reply(0))] + ([Attempt(p, reply(1))] + []) else [Attempt(p, reply(0))] + []
  }

  /** Left alone, a push that finds its order does what it does as one step. */
  lemma UndisturbedPushIsOneStep(d: Desk, p: nat, step: M.Step)
    requires step.Push? && p !in d.flights && M.IdentityFor(d.row, step.kidNumbers, step.lookup).Some?
    ensures var begun := Next(d, Begin(p, step.kidNumbers, step.lookup));
            var (after, made) := M.Pushed(d.row, step);
            && IsRun(begun, Tries(p, step.reply))
            && Enabled(Run(begun, Tries(p, step.reply)), Mark(p, step.now))
            && Next(Run(begun, Tries(p, step.reply)), Mark(p, step.now))
               == Desk(after, M.AfterCalls(d.remote, made), d.calls + made, d.flights)
  {
    M.PushOf(d.row, step);
    var to := M.IdentityFor(d.row, step.kidNumbers, step.lookup).value;
    var begun := Next(d, Begin(p, step.kidNumbers, step.lookup));
    var made := M.Attempts(d.row.pk, to, M.MemoText(d.row.memo), step.reply, 0);
    BegunPush(d, p, step, to);
    hide *;
    TriesMakeTheCalls(begun, p, step.reply);
    MarkEndsIt(begun, p, Run(begun, Tries(p, step.reply)).remote, d.calls + made, made, step.now);
  }

  lemma BegunPush(d: Desk, p: nat, step: M.Step, to: M.Identity)
    requires step.Push? && p !in d.flights && M.IdentityFor(d.row, step.kidNumbers, step.lookup) == Some(to)
    ensures Enabled(d, Begin(p, step.kidNumbers, step.lookup))
    ensures var begun := Next(d, Begin(p, step.kidNumbers, step.lookup));
            && begun.row == M.MarkedPending(d.row, to.profile) && begun.row.pk == d.row.pk
            && begun.remote == d.remote && begun.calls == d.calls
            && p in begun.flights && begun.flights[p] == Flight(to, M.MemoText(d.row.memo), [])
            && begun.flights - {p} == d.flights
  {
    hide M.IdentityFor, M.MemoText;
  }

  lemma MarkEndsIt(d: Desk, p: nat, remote: M.Remote, calls: seq<M.Call>, made: seq<M.Call>, now: int)
    requires p in d.flights && !MayRepeat(made)
    ensures var e := Desk(d.row, remote, calls, d.flights[p := d.flights[p].(made := made)]);
            && Enabled(e, Mark(p, now))
            && Next(e, Mark(p, now)) == Desk(M.Concluded(d.row, d.flights[p].to, made, now), remote, calls, d.flights - {p})
  {
    hide M.Concluded, MayRepeat;
  }

  lemma TriesMakeTheCalls(d: Desk, p: nat, reply: nat -> M.Reply)
    requires p in d.flights && d.flights[p].made == []
    ensures var f := d.flights[p];
            var made := M.Attempts(d.row.pk, f.to, f.memo, reply, 0);
            && IsRun(d, Tries(p, reply))
            && Run(d, Tries(p, reply))
               == Desk(d.row, M.AfterCalls(d.remote, made), d.calls + made, d.flights[p := f.(made := made)])
            && !MayRepeat(made)
  {
    var f := d.flights[p];
    var c0, c1 := M.Call(d.row.pk, f.to, f.memo, reply(0)), M.Call(d.row.pk, f.to, f.memo, reply(1));
    TheCalls(d.row.pk, f.to, f.memo, reply);
    TwoCalls(d.remote, c0, c1);
    hide M.Attempts, M.AfterCalls, M.AfterCall;
    var d1 := Next(d, Attempt(p, reply(0)));
    assert [] + [c0] == [c0];
    assert d1 == Desk(d.row, M.AfterCalls(d.remote, [c0]), d.calls + [c0], d.flights[p := f.(made := [c0])]);
    if M.Retryable(reply(0)) {
      SecondCall(d, d1, p, c0, c1);
      var d2 := Next(d1, Attempt(p, reply(1)));
      hide Next;
      assert IsRun(d2, []);
      RunCons(d1, Attempt(p, reply(1)), []);
      RunCons(d, Attempt(p, reply(0)), [Attempt(p, reply(1))] + []);
    } else {
      hide Next;
      assert IsRun(d1, []);
      RunCons(d, Attempt(p, reply(0)), []);
    }
  }

  lemma SecondCall(d: Desk, d1: Desk, p: nat, c0: M.Call, c1: M.Call)
    requires p in d.flights && d1.flights == d.flights[p := d.flights[p].(made := [c0])] && d1.calls == d.calls + [c0]
    requires d1.row == d.row && M.Retryable(c0.reply)
    requires c1 == M.Call(d.row.pk, d.flights[p].to, d.flights[p].memo, c1.reply)
    ensures Enabled(d1, Attempt(p, c1.reply))
    ensures Next(d1, Attempt(p, c1.reply))
      == Desk(d.row, M.AfterCall(d1.remote, c1), d.calls + [c0, c1], d.flights[p := d.flights[p].(made := [c0, c1])])
  {
    assert [c0] + [c1] == [c0, c1] && d.calls + [c0] + [c1] == d.calls + [c0, c1];
  }

  lemma TheCalls(pk: nat, to: M.Identity, memo: string, reply: nat -> M.Reply)
    ensures M.Attempts(pk, to, memo, reply, 0)
      == if M.Retryable(reply(0)) then [M.Call(pk, to, memo, reply(0)), M.Call(pk, to, memo, reply(1))]
         else [M.Call(pk, to, memo, reply(0))]
  {
    assert M.Attempts(pk, to, memo, reply, 1) == [M.Call(pk, to, memo, reply(1))];
  }

  lemma TwoCalls(remote: M.Remote, c0: M.Call, c1: M.Call)
    ensures M.AfterCalls(remote, [c0]) == M.AfterCall(remote, c0)
    ensures M.AfterCalls(remote, [c0, c1]) == M.AfterCall(M.AfterCall(remote, c0), c1)
  {
    assert [c0][..0] == [] && [c0, c1][..1] == [c0];
    assert M.AfterCalls(remote, []) == remote;
  }
}
