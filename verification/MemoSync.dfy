/** Pushing a locally edited order memo to Afterbuy: which remote order is addressed, how often
    it is tried, and what the row says afterwards. */
module MemoSync {
  import opened Wrappers
  import opened Text
  import opened OrderTable
  import opened OrderSync

  const MAX_ATTEMPTS := 2
  const MESSAGE_LIMIT := 1000
  const DEFAULT_PROFILES := ["JV", "XL", "CH"]

  // ---------------------------------------------------------------- finding the remote order

  datatype SoldItem = SoldItem(platformOrderId: string, ebayTransactionId: string)

  datatype SoldOrder = SoldOrder(orderId: string, orderIdAlt: string, items: seq<SoldItem>)

  datatype Identity = Identity(profile: string, orderId: string)

  /** The orders each profile returns for the kid; None where the request failed. */
  type Lookup = string -> Option<seq<SoldOrder>>

  predicate MatchesExternalId(o: SoldOrder, id: string) {
    || id == o.orderId || id == o.orderIdAlt
    || exists item :: item in o.items && (id == item.platformOrderId || id == item.ebayTransactionId)
  }

  predicate IsPositiveId(value: string) { value != "" && AllDigits(value) && DecimalValue(value) > 0 }

  predicate Qualifies(o: SoldOrder, id: string) { MatchesExternalId(o, id) && IsPositiveId(o.orderId) }

  function FirstMatch(orders: seq<SoldOrder>, id: string): Option<SoldOrder> {
    if orders == [] then None
    else if Qualifies(orders[0], id) then Some(orders[0])
    else FirstMatch(orders[1..], id)
  }

  function OrdersOf(lookup: Lookup, profile: string): seq<SoldOrder> {
    match lookup(profile)
    case None => []
    case Some(orders) => orders
  }

  function FirstIdentity(profiles: seq<string>, id: string, lookup: Lookup): Option<Identity> {
    if profiles == [] then None
    else
      match FirstMatch(OrdersOf(lookup, profiles[0]), id)
      case Some(o) => Some(Identity(ToUpper(profiles[0]), o.orderId))
      case None => FirstIdentity(profiles[1..], id, lookup)
  }

  function Resolved(profiles: seq<string>, externalId: string, lookup: Lookup): Option<Identity> {
    var id := Trim(Python, externalId);
    if id == "" then None else FirstIdentity(profiles, id, lookup)
  }

  method ResolveInternalOrderId(profiles: seq<string>, externalId: string, lookup: Lookup) returns (found: Option<Identity>)
    ensures found == Resolved(profiles, externalId, lookup)
  {
    var id := Trim(Python, externalId);
    if id == "" {
      return None;
    }
    var p := 0;
    while p < |profiles|
      invariant 0 <= p <= |profiles|
      invariant FirstIdentity(profiles[p..], id, lookup) == FirstIdentity(profiles, id, lookup)
    {
      assert profiles[p..][1..] == profiles[p + 1..];
      if lookup(profiles[p]).Some? {
        var orders := lookup(profiles[p]).value;
        var k := 0;
        while k < |orders|
          invariant 0 <= k <= |orders|
          invariant FirstMatch(orders[k..], id) == FirstMatch(orders, id)
        {
          assert orders[k..][1..] == orders[k + 1..];
          if Qualifies(orders[k], id) {
            return Some(Identity(ToUpper(profiles[p]), orders[k].orderId));
          }
          k := k + 1;
        }
      }
      p := p + 1;
    }
    return None;
  }

  lemma {:induction false} FirstMatchAt(orders: seq<SoldOrder>, id: string, k: nat)
    requires k < |orders| && Qualifies(orders[k], id)
    requires forall j :: 0 <= j < k ==> !Qualifies(orders[j], id)
    ensures FirstMatch(orders, id) == Some(orders[k])
  {
    hide Qualifies;
    if k > 0 {
      FirstMatchAt(orders[1..], id, k - 1);
    }
  }

  lemma {:induction false} NoMatchAnywhere(orders: seq<SoldOrder>, id: string)
    ensures FirstMatch(orders, id).None? <==> forall o :: o in orders ==> !Qualifies(o, id)
  {
    hide Qualifies;
    if orders != [] {
      NoMatchAnywhere(orders[1..], id);
      assert forall o :: o in orders <==> o == orders[0] || o in orders[1..];
    }
  }

  /** The addressed order is the first one that qualifies, profiles in order. */
  lemma {:induction false} FirstProfileWins(profiles: seq<string>, id: string, lookup: Lookup, p: nat, k: nat)
    requires p < |profiles| && k < |OrdersOf(lookup, profiles[p])|
    requires Qualifies(OrdersOf(lookup, profiles[p])[k], id)
    requires forall j :: 0 <= j < k ==> !Qualifies(OrdersOf(lookup, profiles[p])[j], id)
    requires forall q, o | 0 <= q < p && o in OrdersOf(lookup, profiles[q]) :: !Qualifies(o, id)
    ensures FirstIdentity(profiles, id, lookup)
      == Some(Identity(ToUpper(profiles[p]), OrdersOf(lookup, profiles[p])[k].orderId))
  {
    hide Qualifies, OrdersOf;
    if p == 0 {
      FirstMatchAt(OrdersOf(lookup, profiles[0]), id, k);
    } else {
      NoMatchAnywhere(OrdersOf(lookup, profiles[0]), id);
      FirstProfileWins(profiles[1..], id, lookup, p - 1, k);
    }
  }

  lemma {:induction false} NothingQualifies(profiles: seq<string>, id: string, lookup: Lookup)
    ensures FirstIdentity(profiles, id, lookup).None?
      <==> forall p, o | p in profiles && o in OrdersOf(lookup, p) :: !Qualifies(o, id)
  {
    hide Qualifies, OrdersOf;
    if profiles != [] {
      NoMatchAnywhere(OrdersOf(lookup, profiles[0]), id);
      NothingQualifies(profiles[1..], id, lookup);
      assert forall p :: p in profiles <==> p == profiles[0] || p in profiles[1..];
    }
  }

  // ---------------------------------------------------------------- the attempts

  /** How one update call ends; a rejected call may still have stored the memo. */
  datatype Reply =
    | Accepted
    | Rejected(notSelectable: bool, retryable: bool, message: string, stored: bool)
    | Invalid(message: string)

  datatype Call = Call(pk: nat, to: Identity, memo: string, reply: Reply)

  datatype Verdict = Done | Failed(message: SyncMessage, errorType: Option<SyncErrorType>)

  type Remote = map<Identity, string>

  predicate Retryable(reply: Reply) { reply.Rejected? && reply.retryable && !reply.notSelectable }

  predicate Stores(reply: Reply) { reply.Accepted? || (reply.Rejected? && reply.stored) }

  function AfterCall(remote: Remote, c: Call): Remote {
    if Stores(c.reply) then remote[c.to := c.memo] else remote
  }

  function AfterCalls(remote: Remote, calls: seq<Call>): Remote {
    if calls == [] then remote else AfterCall(AfterCalls(remote, calls[..|calls| - 1]), calls[|calls| - 1])
  }

  function Refusal(reply: Reply): Verdict
    requires !reply.Accepted?
  {
    match reply
    case Invalid(m) => Failed(ErrorText(m), None)
    case Rejected(notSelectable, _, m, _) =>
      if notSelectable then Failed(OperationNotSelectable, Some(NotSelectable)) else Failed(ErrorText(m), None)
  }

  /** The verdict of a sequence of calls: that of its last one. */
  function VerdictOf(calls: seq<Call>): Verdict {
    if calls == [] then Failed(GaveUp, None)
    else
      var reply := calls[|calls| - 1].reply;
      if reply.Accepted? then Done else Refusal(reply)
  }

  /** Calls that follow the retry rule: alike, at most the maximum, and each but the last one
      answered by a retryable error. */
  ghost predicate FollowsRetryRule(calls: seq<Call>, pk: nat, to: Identity, memo: string, reply: nat -> Reply) {
    && |calls| <= MAX_ATTEMPTS
    && (forall i :: 0 <= i < |calls| ==> calls[i] == Call(pk, to, memo, reply(i)))
    && forall i :: 0 <= i < |calls| - 1 ==> Retryable(calls[i].reply)
  }

  /** Such calls are complete when no further one may follow. */
  ghost predicate Complete(calls: seq<Call>) {
    calls != [] && (|calls| == MAX_ATTEMPTS || !Retryable(calls[|calls| - 1].reply))
  }

  /** The calls from one attempt on. */
  function Attempts(pk: nat, to: Identity, memo: string, reply: nat -> Reply, attempt: nat): (calls: seq<Call>)
    requires attempt < MAX_ATTEMPTS
    ensures calls != [] && |calls| <= MAX_ATTEMPTS - attempt
    decreases MAX_ATTEMPTS - attempt
  {
    [Call(pk, to, memo, reply(attempt))]
    + if Retryable(reply(attempt)) && attempt + 1 < MAX_ATTEMPTS then Attempts(pk, to, memo, reply, attempt + 1) else []
  }

  /** The retry rule leaves no choice: it fixes the calls as a function of the replies. */
  lemma {:induction false} RetryRuleFixesTheCalls(calls: seq<Call>, pk: nat, to: Identity, memo: string, reply: nat -> Reply,
                                                  attempt: nat)
    requires FollowsRetryRule(calls, pk, to, memo, reply) && Complete(calls) && attempt < |calls|
    ensures calls[attempt..] == Attempts(pk, to, memo, reply, attempt)
    decreases |calls| - attempt
  {
    if attempt + 1 < |calls| {
      RetryRuleFixesTheCalls(calls, pk, to, memo, reply, attempt + 1);
    }
    assert calls[attempt..] == [calls[attempt]] + calls[attempt + 1..];
  }

  lemma {:induction false} AttemptsFollowTheRule(pk: nat, to: Identity, memo: string, reply: nat -> Reply, attempt: nat)
    requires attempt < MAX_ATTEMPTS
    ensures var calls := Attempts(pk, to, memo, reply, attempt);
            && (forall i :: 0 <= i < |calls| ==> calls[i] == Call(pk, to, memo, reply(attempt + i)))
            && (forall i :: 0 <= i < |calls| - 1 ==> Retryable(calls[i].reply))
            && (|calls| == MAX_ATTEMPTS - attempt || !Retryable(calls[|calls| - 1].reply))
    decreases MAX_ATTEMPTS - attempt
  {
    if Retryable(reply(attempt)) && attempt + 1 < MAX_ATTEMPTS {
      AttemptsFollowTheRule(pk, to, memo, reply, attempt + 1);
    }
  }

  lemma NoCalls(pk: nat, to: Identity, memo: string, reply: nat -> Reply, remote: Remote)
    ensures FollowsRetryRule([], pk, to, memo, reply) && AfterCalls(remote, []) == remote
  {
  }

  /** What one more attempt adds to the calls, the remote memos and the verdict. */
  lemma OneMoreCall(calls: seq<Call>, pk: nat, to: Identity, memo: string, reply: nat -> Reply, remote: Remote)
    requires FollowsRetryRule(calls, pk, to, memo, reply) && |calls| < MAX_ATTEMPTS
    requires calls != [] ==> Retryable(calls[|calls| - 1].reply)
    ensures var c := Call(pk, to, memo, reply(|calls|));
            && FollowsRetryRule(calls + [c], pk, to, memo, reply)
            && AfterCalls(remote, calls + [c]) == AfterCall(AfterCalls(remote, calls), c)
            && VerdictOf(calls + [c]) == (if c.reply.Accepted? then Done else Refusal(c.reply))
            && (Complete(calls + [c]) <==> |calls| + 1 == MAX_ATTEMPTS || !Retryable(c.reply))
  {
    var c := Call(pk, to, memo, reply(|calls|));
    assert (calls + [c])[..|calls|] == calls;
  }

  lemma AcceptedCallStores(remote: Remote, calls: seq<Call>)
    requires calls != [] && VerdictOf(calls).Done?
    ensures var c := calls[|calls| - 1]; c.to in AfterCalls(remote, calls) && AfterCalls(remote, calls)[c.to] == c.memo
  {
  }

  // ---------------------------------------------------------------- one push

  function PrimaryKid(numbers: seq<string>): string {
    if numbers == [] then ""
    else if Trim(Python, numbers[0]) != "" then Trim(Python, numbers[0])
    else PrimaryKid(numbers[1..])
  }

  function ProfilesFor(row: Row): seq<string> {
    if row.profile.Some? && row.profile.value != "" then [row.profile.value] else DEFAULT_PROFILES
  }

  function MemoText(memo: Option<string>): string {
    match memo
    case None => ""
    case Some(m) => m
  }

  /** At most the first thousand characters; the fixed messages are shorter. */
  function Shortened(message: SyncMessage): (s: SyncMessage)
    ensures s.ErrorText? <==> message.ErrorText?
    ensures s.ErrorText? ==> |s.text| <= MESSAGE_LIMIT && s.text <= message.text
  {
    if message.ErrorText? && |message.text| > MESSAGE_LIMIT then ErrorText(message.text[..MESSAGE_LIMIT]) else message
  }

  function MarkedPending(row: Row, profile: string): Row {
    row.(profile := Some(profile), memoStatus := Pending, memoError := None, memoErrorType := None)
  }

  function MarkedSynced(row: Row, profile: string, now: int): Row {
    row.(profile := Some(profile), memoStatus := Synced, memoError := None, memoErrorType := None, memoSyncedAt := Some(now))
  }

  function MarkedFailed(row: Row, message: SyncMessage, errorType: Option<SyncErrorType>): Row {
    row.(memoStatus := FailedSync, memoError := Some(Shortened(message)), memoErrorType := errorType)
  }

  /** Whether the push finds the order it should address. */
  function IdentityFor(row: Row, kidNumbers: seq<string>, lookup: Lookup): Option<Identity> {
    if PrimaryKid(kidNumbers) == "" then None else Resolved(ProfilesFor(row), row.orderId, lookup)
  }

  /** What the verdict of the calls makes of a row marked pending. */
  function Concluded(row: Row, to: Identity, calls: seq<Call>, now: int): (after: Row)
    ensures after.pk == row.pk
  {
    match VerdictOf(calls)
    case Done => MarkedSynced(row, to.profile, now)
    case Failed(message, errorType) => MarkedFailed(row, message, errorType)
  }

  /** The order object a push works on, the memos stored remotely, and the calls made so far. */
  class Pusher {
    var row: Row
    var remote: Remote
    var calls: seq<Call>

    constructor (row: Row, remote: Remote)
      ensures this.row == row && this.remote == remote && calls == []
    {
      this.row, this.remote, calls := row, remote, [];
    }

    method UpdateOrderMemo(to: Identity, memo: string, reply: Reply)
      modifies this`remote, this`calls
      ensures calls == old(calls) + [Call(row.pk, to, memo, reply)]
      ensures remote == AfterCall(old(remote), Call(row.pk, to, memo, reply))
    {
      if Stores(reply) {
        remote := remote[to := memo];
      }
      calls := calls + [Call(row.pk, to, memo, reply)];
    }

    /** The attempt loop on a row already marked pending. */
    method TryUpdates(to: Identity, reply: nat -> Reply, now: int)
      requires calls == []
      modifies this
      ensures FollowsRetryRule(calls, old(row).pk, to, MemoText(old(row).memo), reply) && Complete(calls)
      ensures calls != [] && row == Concluded(old(row), to, calls, now)
      ensures remote == AfterCalls(old(remote), calls)
    {
      hide FollowsRetryRule, Complete, AfterCall, AfterCalls, VerdictOf, MemoText, MarkedSynced, MarkedFailed;
      ghost var memo := MemoText(row.memo);
      NoCalls(row.pk, to, memo, reply, remote);
      var attempt := 1;
      while attempt <= MAX_ATTEMPTS
        invariant 1 <= attempt <= MAX_ATTEMPTS
        invariant |calls| == attempt - 1
        invariant FollowsRetryRule(calls, row.pk, to, memo, reply)
        invariant calls != [] ==> Retryable(calls[|calls| - 1].reply)
        invariant remote == AfterCalls(old(remote), calls)
        invariant row == old(row)
      {
        OneMoreCall(calls, row.pk, to, memo, reply, old(remote));
        UpdateOrderMemo(to, MemoText(row.memo), reply(attempt - 1));
        match reply(attempt - 1) {
          case Accepted =>
            row := MarkedSynced(row, to.profile, now);
            return;
          case Invalid(message) =>
            row := MarkedFailed(row, ErrorText(message), None);
            return;
          case Rejected(notSelectable, retryable, message, _) =>
            if notSelectable {
              row := MarkedFailed(row, OperationNotSelectable, Some(NotSelectable));
              return;
            }
            if !retryable || attempt == MAX_ATTEMPTS {
              row := MarkedFailed(row, ErrorText(message), None);
              return;
            }
        }
        attempt := attempt + 1;
      }
      // The loop always returns: the last attempt is never followed by another.
      assert false;
    }

    method SyncOrder(kidNumbers: seq<string>, lookup: Lookup, reply: nat -> Reply, now: int)
      requires calls == []
      modifies this
      ensures IdentityFor(old(row), kidNumbers, lookup).None? ==>
        calls == [] && row == MarkedFailed(old(row), OrderNotFound, None)
      ensures IdentityFor(old(row), kidNumbers, lookup).Some? ==>
        var to := IdentityFor(old(row), kidNumbers, lookup).value;
        && FollowsRetryRule(calls, old(row).pk, to, MemoText(old(row).memo), reply) && Complete(calls)
        && row == Concluded(MarkedPending(old(row), to.profile), to, calls, now)
      ensures (row, calls) == Pushed(old(row), Push(old(row).pk, kidNumbers, lookup, reply, now))
      ensures remote == AfterCalls(old(remote), calls)
    {
      hide FollowsRetryRule, Complete, Concluded, Attempts, Pushed, MemoText;
      PushOf(row, Push(row.pk, kidNumbers, lookup, reply, now));
      if PrimaryKid(kidNumbers) == "" {
        row := MarkedFailed(row, OrderNotFound, None);
        return;
      }
      var found := ResolveInternalOrderId(ProfilesFor(row), row.orderId, lookup);
      if found.None? {
        row := MarkedFailed(row, OrderNotFound, None);
        return;
      }
      row := MarkedPending(row, found.value.profile);
      TryUpdates(found.value, reply, now);
      RetryRuleFixesTheCalls(calls, row.pk, found.value, MemoText(old(row).memo), reply, 0);
      assert calls[0..] == calls;
    }
  }

  // ---------------------------------------------------------------- whole runs

  /** The orders of one kid, the remote memos, and all update calls ever made. */
  datatype World = World(table: Table, remote: Remote, calls: seq<Call>)

  datatype Step =
    | Edit(pk: nat, memo: Option<string>)
    | Push(pk: nat, kidNumbers: seq<string>, lookup: Lookup, reply: nat -> Reply, now: int)
    | Sync(orders: seq<RemoteOrder>, at: int)
    | RemoteEdit(id: Identity, text: string)

  function RowWith(rows: seq<Row>, pk: nat): (r: Option<Row>)
    ensures r.Some? ==> r.value in rows && r.value.pk == pk
    ensures r.None? ==> forall q :: q in rows ==> q.pk != pk
  {
    if rows == [] then None else if rows[0].pk == pk then Some(rows[0]) else RowWith(rows[1..], pk)
  }

  function WithRow(t: Table, pk: nat, row: Row): (after: Table)
    ensures |after.rows| == |t.rows|
    ensures forall i :: 0 <= i < |t.rows| ==> after.rows[i] == if t.rows[i].pk == pk then row else t.rows[i]
  {
    t.(rows := seq(|t.rows|, i requires 0 <= i < |t.rows| => if t.rows[i].pk == pk then row else t.rows[i]))
  }

  function Edited(row: Row, memo: Option<string>): Row {
    row.(memo := memo, memoStatus := Pending, memoError := None, memoErrorType := None)
  }

  /** One push as a function: the row afterwards and the calls it made. */
  function Pushed(row: Row, step: Step): (Row, seq<Call>)
    requires step.Push?
  {
    match IdentityFor(row, step.kidNumbers, step.lookup)
    case None => (MarkedFailed(row, OrderNotFound, None), [])
    case Some(to) =>
      var calls := Attempts(row.pk, to, MemoText(row.memo), step.reply, 0);
      (Concluded(MarkedPending(row, to.profile), to, calls, step.now), calls)
  }

  function Next(w: World, step: Step): World {
    match step
    case Edit(pk, memo) =>
      (match RowWith(w.table.rows, pk)
       case None => w
       case Some(row) => w.(table := WithRow(w.table, pk, Edited(row, memo))))
    case Push(pk, _, _, _, _) =>
      (match RowWith(w.table.rows, pk)
       case None => w
       case Some(row) =>
         var (after, made) := Pushed(row, step);
         World(WithRow(w.table, pk, after), AfterCalls(w.remote, made), w.calls + made))
    case Sync(orders, at) => w.(table := SyncedAll(w.table, orders, at))
    case RemoteEdit(id, text) => w.(remote := w.remote[id := text])
  }

  function Run(w: World, steps: seq<Step>): World {
    if steps == [] then w else Next(Run(w, steps[..|steps| - 1]), steps[|steps| - 1])
  }

  lemma PushOf(row: Row, step: Step)
    requires step.Push?
    ensures Pushed(row, step) ==
      match IdentityFor(row, step.kidNumbers, step.lookup)
      case None => (MarkedFailed(row, OrderNotFound, None), [])
      case Some(to) =>
        var calls := Attempts(row.pk, to, MemoText(row.memo), step.reply, 0);
        (Concluded(MarkedPending(row, to.profile), to, calls, step.now), calls)
  {
    hide Attempts, Concluded, MemoText, IdentityFor;
  }

  /** What the calls of a push and its row look like once an identity is found. */
  lemma ConcludedPromises(row: Row, to: Identity, calls: seq<Call>, now: int)
    ensures var after := Concluded(MarkedPending(row, to.profile), to, calls, now);
            && after.memo == row.memo && after.orderId == row.orderId
            && (after.memoStatus.Synced? || after.memoStatus.FailedSync?)
            && (after.memoStatus.Synced? <==> VerdictOf(calls).Done?)
            && (after.memoStatus.Synced? ==> after.profile == Some(to.profile))
  {
    hide VerdictOf, Shortened;
  }

  lemma VerdictOfCalls(calls: seq<Call>)
    ensures VerdictOf(calls).Done? <==> calls != [] && calls[|calls| - 1].reply.Accepted?
  {
  }

  /** What a push promises: the memo itself never changes; the row ends synced or failed, and
      synced only after an accepted call that left this memo on the remote order. */
  lemma PushPromises(row: Row, step: Step, remote: Remote)
    requires step.Push?
    ensures var (after, made) := Pushed(row, step);
            && after.memo == row.memo && after.pk == row.pk && after.orderId == row.orderId
            && (after.memoStatus.Synced? || after.memoStatus.FailedSync?)
            && (after.memoStatus.Synced? <==> made != [] && made[|made| - 1].reply.Accepted?)
            && (after.memoStatus.Synced? ==>
                  var c := made[|made| - 1];
                  && c.pk == row.pk && c.memo == MemoText(row.memo) && after.profile == Some(c.to.profile)
                  && c.to in AfterCalls(remote, made) && AfterCalls(remote, made)[c.to] == MemoText(row.memo))
            && |made| <= MAX_ATTEMPTS
            && forall i :: 0 <= i < |made| - 1 ==> Retryable(made[i].reply)
  {
    PushOf(row, step);
    hide Pushed, IdentityFor, Attempts, Concluded, AfterCalls, VerdictOf, MemoText, Retryable;
    match IdentityFor(row, step.kidNumbers, step.lookup)
    case None =>
    case Some(to) =>
      var made := Attempts(row.pk, to, MemoText(row.memo), step.reply, 0);
      AttemptsFollowTheRule(row.pk, to, MemoText(row.memo), step.reply, 0);
      ConcludedPromises(row, to, made, step.now);
      VerdictOfCalls(made);
      if VerdictOf(made).Done? {
        AcceptedCallStores(remote, made);
      }
  }

  ghost predicate ValidWorld(w: World) { Valid(w.table) }

  lemma WithRowKeepsValid(t: Table, pk: nat, was: Row, row: Row)
    requires Valid(t) && was in t.rows && was.pk == pk && row.pk == pk && row.orderId == was.orderId
    ensures Valid(WithRow(t, pk, row))
    ensures forall r :: r in WithRow(t, pk, row).rows ==> r == row || (r in t.rows && r.pk != pk)
  {
    var after := WithRow(t, pk, row).rows;
    forall i | 0 <= i < |t.rows| && t.rows[i].pk == pk
      ensures t.rows[i] == was
    {
      PkIdentifies(t.rows, t.rows[i], was);
    }
    forall i, j | 0 <= i < j < |after|
      ensures after[i].orderId != after[j].orderId && after[i].pk != after[j].pk
    {
    }
  }

  lemma NextKeepsValid(w: World, step: Step)
    requires ValidWorld(w)
    ensures ValidWorld(Next(w, step)) && Next(w, step).table.nextPk >= w.table.nextPk
    ensures w.calls <= Next(w, step).calls
  {
    match step
    case Edit(pk, memo) =>
      if RowWith(w.table.rows, pk).Some? {
        var row := RowWith(w.table.rows, pk).value;
        WithRowKeepsValid(w.table, pk, row, Edited(row, memo));
      }
    case Push(pk, _, _, _, _) =>
      if RowWith(w.table.rows, pk).Some? {
        var row := RowWith(w.table.rows, pk).value;
        PushPromises(row, step, w.remote);
        hide Pushed, Valid;
        WithRowKeepsValid(w.table, pk, row, Pushed(row, step).0);
      }
    case Sync(orders, at) =>
      SyncKeepsValid(w.table, orders, at);
      SyncNeverReusesKeys(w.table, orders, at);
    case RemoteEdit(_, _) =>
  }

  lemma {:induction false} RunKeepsValid(w: World, steps: seq<Step>)
    requires ValidWorld(w)
    ensures ValidWorld(Run(w, steps)) && Run(w, steps).table.nextPk >= w.table.nextPk
    ensures w.calls <= Run(w, steps).calls
  {
    hide Next, ValidWorld;
    if steps != [] {
      RunKeepsValid(w, steps[..|steps| - 1]);
      NextKeepsValid(Run(w, steps[..|steps| - 1]), steps[|steps| - 1]);
    }
  }

  /** Among the calls from number `from` on, one has pushed this memo of this row successfully. */
  ghost predicate Delivered(calls: seq<Call>, from: nat, pk: nat, memo: Option<string>) {
    exists i :: from <= i < |calls| && calls[i].pk == pk && calls[i].memo == MemoText(memo) && calls[i].reply.Accepted?
  }

  /** One step keeps an unsynced memo, or delivers it, or is an edit of that very row. */
  lemma NextKeepsUnsyncedMemo(w: World, step: Step, r: Row) returns (was: Row)
    requires ValidWorld(w) && r in Next(w, step).table.rows && r.pk < w.table.nextPk
    requires !(step.Edit? && step.pk == r.pk)
    ensures was in w.table.rows && was.pk == r.pk
    ensures was.memoStatus.Synced? || (r.memo == was.memo && !r.memoStatus.Synced?)
      || Delivered(Next(w, step).calls, |w.calls|, r.pk, was.memo)
  {
    match step
    case Edit(pk, memo) =>
      if RowWith(w.table.rows, pk).Some? {
        var row := RowWith(w.table.rows, pk).value;
        WithRowKeepsValid(w.table, pk, row, Edited(row, memo));
      }
      was := r;
    case Push(pk, _, _, _, _) =>
      if RowWith(w.table.rows, pk).Some? {
        var row := RowWith(w.table.rows, pk).value;
        PushPromises(row, step, w.remote);
        hide Pushed;
        WithRowKeepsValid(w.table, pk, row, Pushed(row, step).0);
        was := if r.pk == pk then row else r;
        if r.pk == pk && Pushed(row, step).0.memoStatus.Synced? {
          var made := Pushed(row, step).1;
          assert Next(w, step).calls[|w.calls| + |made| - 1] == made[|made| - 1];
        }
      } else {
        was := r;
      }
    case Sync(orders, at) =>
      was := SyncedRowHasASource(w.table, orders, at, r);
      if !was.memoStatus.Synced? {
        SyncKeepsUnsyncedMemo(w.table, orders, at, was, r);
      }
    case RemoteEdit(_, _) =>
      was := r;
  }

  /** No run loses a local edit silently: unless the row itself is edited again, its memo is
      still there and still unsynced, or an accepted call has delivered it. */
  lemma {:induction false} NoRunLosesAnEdit(w: World, steps: seq<Step>, was: Row, r: Row)
    requires ValidWorld(w) && was in w.table.rows && !was.memoStatus.Synced?
    requires forall s :: s in steps ==> !(s.Edit? && s.pk == was.pk)
    requires r in Run(w, steps).table.rows && r.pk == was.pk
    ensures (r.memo == was.memo && !r.memoStatus.Synced?) || Delivered(Run(w, steps).calls, |w.calls|, was.pk, was.memo)
  {
    if steps == [] {
      PkIdentifies(w.table.rows, was, r);
    } else {
      var init, last := steps[..|steps| - 1], steps[|steps| - 1];
      var before := Run(w, init);
      assert last in steps && forall s :: s in init ==> s in steps;
      RunKeepsValid(w, init);
      NextKeepsValid(before, last);
      hide Next, MemoText;
      var middle := NextKeepsUnsyncedMemo(before, last, r);
      NoRunLosesAnEdit(w, init, was, middle);
    }
  }
}
