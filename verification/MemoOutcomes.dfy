/** What the answers of the remote service make of a push, in the fields of the answers and the row. */
module MemoOutcomes {
  import opened Wrappers
  import opened Text
  import opened OrderTable
  import opened MemoSync

  /** An answer after which the push tries again, if it may. */
  predicate InvitesRetry(reply: Reply) {
    match reply
    case Rejected(notSelectable, retryable, _, _) => retryable && !notSelectable
    case _ => false
  }

  function LastReply(step: Step): Reply
    requires step.Push?
  {
    if InvitesRetry(step.reply(0)) then step.reply(1) else step.reply(0)
  }

  /** An error text is kept up to a thousand characters. */
  predicate KeptText(kept: Option<SyncMessage>, text: string) {
    && kept.Some? && kept.value.ErrorText? && kept.value.text <= text
    && |kept.value.text| == if |text| < 1000 then |text| else 1000
  }

  /** The row's memo columns by the last answer. */
  predicate ShowsReply(after: Row, was: Row, to: Identity, last: Reply, now: int) {
    && after.profile == Some(to.profile)
    && match last
       case Accepted =>
         && after.memoStatus.Synced? && after.memoSyncedAt == Some(now)
         && after.memoError.None? && after.memoErrorType.None?
       case Rejected(true, _, _, _) =>
         && after.memoStatus.FailedSync? && after.memoSyncedAt == was.memoSyncedAt
         && after.memoError == Some(OperationNotSelectable) && after.memoErrorType == Some(NotSelectable)
       case Rejected(false, _, text, _) =>
         && after.memoStatus.FailedSync? && after.memoSyncedAt == was.memoSyncedAt
         && KeptText(after.memoError, text) && after.memoErrorType.None?
       case Invalid(text) =>
         && after.memoStatus.FailedSync? && after.memoSyncedAt == was.memoSyncedAt
         && KeptText(after.memoError, text) && after.memoErrorType.None?
  }

  lemma TwoAttempts(row: Row, to: Identity, memo: string, reply: nat -> Reply)
    ensures Attempts(row.pk, to, memo, reply, 0)
      == if InvitesRetry(reply(0)) then [Call(row.pk, to, memo, reply(0)), Call(row.pk, to, memo, reply(1))]
         else [Call(row.pk, to, memo, reply(0))]
  {
    assert Attempts(row.pk, to, memo, reply, 1) == [Call(row.pk, to, memo, reply(1))];
  }

  lemma ConclusionShowsReply(row: Row, to: Identity, calls: seq<Call>, now: int)
    requires calls != []
    ensures ShowsReply(Concluded(MarkedPending(row, to.profile), to, calls, now), row, to, calls[|calls| - 1].reply, now)
  {
  }

  /** A push that finds its order asks twice exactly when the first answer is a retryable refusal
      of a selectable order, and the row then shows the last answer; a push that finds none says so
      and asks nobody. */
  lemma PushShowsTheLastReply(row: Row, step: Step)
    requires step.Push?
    ensures var (after, calls) := Pushed(row, step);
            var found := IdentityFor(row, step.kidNumbers, step.lookup);
            && (found.Some? ==> |calls| == (if InvitesRetry(step.reply(0)) then 2 else 1)
                                && ShowsReply(after, row, found.value, LastReply(step), step.now))
            && (found.None? ==> calls == []
                                && after == row.(memoStatus := FailedSync, memoError := Some(OrderNotFound), memoErrorType := None))
  {
    PushOf(row, step);
    hide IdentityFor, Concluded, Attempts, MemoText, ShowsReply;
    match IdentityFor(row, step.kidNumbers, step.lookup)
    case None =>
    case Some(to) =>
      TwoAttempts(row, to, MemoText(row.memo), step.reply);
      ConclusionShowsReply(row, to, Attempts(row.pk, to, MemoText(row.memo), step.reply, 0), step.now);
  }

  // ---------------------------------------------------------------- the remote memos

  predicate HasStored(c: Call) { c.reply.Accepted? || (c.reply.Rejected? && c.reply.stored) }

  predicate StoresAt(c: Call, to: Identity) { c.to == to && HasStored(c) }

  function MemoAt(remote: Remote, to: Identity): Option<string> { if to in remote then Some(remote[to]) else None }

  /** A remote memo on which no call was stored is as it was. */
  lemma {:induction false} UntouchedMemosStay(remote: Remote, calls: seq<Call>, to: Identity)
    requires forall i :: 0 <= i < |calls| ==> !StoresAt(calls[i], to)
    ensures MemoAt(AfterCalls(remote, calls), to) == MemoAt(remote, to)
  {
    if calls != [] {
      assert !StoresAt(calls[|calls| - 1], to);
      UntouchedMemosStay(remote, calls[..|calls| - 1], to);
    }
  }

  /** Otherwise it is that of the last call that was stored there, accepted or not. */
  lemma {:induction false} LastStoredMemoStays(remote: Remote, calls: seq<Call>, to: Identity, i: nat)
    requires i < |calls| && StoresAt(calls[i], to) && forall j :: i < j < |calls| ==> !StoresAt(calls[j], to)
    ensures MemoAt(AfterCalls(remote, calls), to) == Some(calls[i].memo)
  {
    if i < |calls| - 1 {
      assert !StoresAt(calls[|calls| - 1], to);
      LastStoredMemoStays(remote, calls[..|calls| - 1], to, i);
    }
  }

  // ---------------------------------------------------------------- edits

  /** An edit of a row changes its memo and makes it pending; edits of other rows and of remote
      orders leave it alone. */
  lemma EditsChangeTheirRowExactly(w: World, pk: nat, memo: Option<string>, id: Identity, text: string, r: Row)
    requires ValidWorld(w) && r in w.table.rows
    ensures r.pk == pk ==>
      r.(memo := memo, memoStatus := Pending, memoError := None, memoErrorType := None) in Next(w, Edit(pk, memo)).table.rows
    ensures r.pk != pk ==> r in Next(w, Edit(pk, memo)).table.rows
    ensures Next(w, Edit(pk, memo)).remote == w.remote && Next(w, Edit(pk, memo)).calls == w.calls
    ensures Next(w, RemoteEdit(id, text)).table == w.table
    ensures MemoAt(Next(w, RemoteEdit(id, text)).remote, id) == Some(text)
    ensures forall other :: other != id ==> MemoAt(Next(w, RemoteEdit(id, text)).remote, other) == MemoAt(w.remote, other)
  {
    var i :| 0 <= i < |w.table.rows| && w.table.rows[i] == r;
    var found := RowWith(w.table.rows, pk);
    if found.Some? {
      var row := Edited(found.value, memo);
      var after := WithRow(w.table, pk, row).rows;
      assert after[i] in after;
      if r.pk == pk {
        SameRow(w.table, r, found.value);
      }
    }
  }

  lemma SameRow(t: Table, a: Row, b: Row)
    requires Valid(t) && a in t.rows && b in t.rows && a.pk == b.pk
    ensures a == b
  {
  }
}
