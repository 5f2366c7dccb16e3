/** What deletion by id does to a row, and how long a softly deleted row is kept. */
module Retention {
  import opened Wrappers
  import opened Text
  import opened IntakeText
  import opened IntakeStore

  /** Seconds in thirty days. */
  const THIRTY_DAYS := 2592000

  // ---------------------------------------------------------------- the mode text

  predicate SaysSoft(mode: Option<string>) {
    mode.None? || ToLower(Trim(Rust, mode.value)) in ["", "soft"]
  }

  predicate SaysHard(mode: Option<string>) { mode.Some? && ToLower(Trim(Rust, mode.value)) == "hard" }

  predicate MayDelete(row: Intake, mode: Option<string>, hardAllowed: bool) {
    (SaysSoft(mode) && !row.isRemoved) || (SaysHard(mode) && hardAllowed)
  }

  /** A soft deletion marks the row with the time and keeps it; a hard one takes it away; no other
      row changes. */
  lemma DeletionByIdExactly(st: Store, id: nat, mode: Option<string>, hardAllowed: bool, now: int)
    ensures var (after, answer) := DeletedById(st, id, mode, hardAllowed, now);
            && (answer.Ok? <==> id in st.intakes && MayDelete(st.intakes[id], mode, hardAllowed))
            && (answer.Ok? ==> answer.value == st.intakes[id])
            && (answer.Ok? && SaysSoft(mode) ==>
                  after.intakes == st.intakes[id := st.intakes[id].(isRemoved := true, removedAt := Some(now))])
            && (answer.Ok? && SaysHard(mode) ==> after.intakes == map k | k in st.intakes && k != id :: st.intakes[k])
            && (answer.Err? ==> after == st)
            && (answer == Err(InvalidDeleteMode) <==> !SaysSoft(mode) && !SaysHard(mode))
            && (answer == Err(AdminRequired) <==> SaysHard(mode) && !hardAllowed)
  {
    hide Trim, ToLower;
  }

  // ---------------------------------------------------------------- how long it is kept

  /** Commands that erase a row removed at this time. */
  predicate Erases(c: Command, id: nat, removedAt: int) {
    match c
    case Create(_, env) => removedAt + THIRTY_DAYS <= env.now
    case Purge(at) => removedAt + THIRTY_DAYS <= at
    case DeleteById(other, mode, hardAllowed, _) => other == id && SaysHard(mode) && hardAllowed
    case DeleteOldest(_, _, _) => false
  }

  predicate Keeps(rows: Intakes, id: nat, row: Intake) { id in rows && rows[id] == row }

  lemma {:induction false} InsertionKeepsRows(rows: Intakes, d: Draft, p: Placement, env: Env, k: int)
    requires 1 <= k && d.form.boxTotal <= 20 && InsertBoxes(rows, d, p, env, k).Ok?
    ensures forall id :: id in InsertBoxes(rows, d, p, env, k).value && id !in rows ==> !InsertBoxes(rows, d, p, env, k).value[id].isRemoved
    ensures forall id :: id in rows ==> Keeps(InsertBoxes(rows, d, p, env, k).value, id, rows[id])
    decreases d.form.boxTotal - k
  {
    if k <= d.form.boxTotal {
      InsertionKeepsRows(rows[env.ids[k] := Box(d, p, env, k)], d, p, env, k + 1);
    }
  }

  lemma CommitKeepsRemoved(st: Store, d: Draft, env: Env, id: nat, row: Intake)
    requires 1 <= d.form.boxTotal <= 20 && Committed(st, d, env).Ok? && row.isRemoved
    requires id in st.intakes ==> st.intakes[id] == row
    ensures Keeps(Committed(st, d, env).value.intakes, id, row) <==> id in st.intakes
  {
    var p := Place(st, d).value;
    hide Place;
    InsertionKeepsRows(st.intakes, d, p, env, 1);
    hide InsertBoxes;
  }

  lemma CreationErasesExactly(st: Store, req: CreateRequest, env: Env, id: nat)
    requires id in st.intakes && st.intakes[id].isRemoved && st.intakes[id].removedAt.Some?
    ensures Keeps(Created(st, req, env).0.intakes, id, st.intakes[id]) <==> env.now < st.intakes[id].removedAt.value + THIRTY_DAYS
  {
    var st0 := Purged(st, env.now);
    assert id in st0.intakes <==> env.now < st.intakes[id].removedAt.value + THIRTY_DAYS;
    assert id in st0.intakes ==> st0.intakes[id] == st.intakes[id];
    hide Purged, Committed, Prepare;
    var prepared := Prepare(st0.intakes, req);
    if prepared.Ok? && Committed(st0, prepared.value, env).Ok? {
      CommitKeepsRemoved(st0, prepared.value, env, id, st.intakes[id]);
    }
  }

  lemma DeletionByIdErasesExactly(st: Store, other: nat, mode: Option<string>, hardAllowed: bool, now: int, id: nat)
    requires id in st.intakes && st.intakes[id].isRemoved
    ensures Keeps(DeletedById(st, other, mode, hardAllowed, now).0.intakes, id, st.intakes[id]) <==>
      !(other == id && SaysHard(mode) && hardAllowed)
  {
    assert !(SaysHard(mode) && SaysSoft(mode));
    DeletionByIdExactly(st, other, mode, hardAllowed, now);
    hide DeletedById, SaysHard, SaysSoft;
  }

  lemma DeletionByLocationErasesNothing(st: Store, section: string, slot: int, now: int, id: nat)
    requires id in st.intakes && st.intakes[id].isRemoved
    ensures Keeps(DeletedOldest(st, section, slot, now).0.intakes, id, st.intakes[id])
  {
    hide OldestAt, NormalizeSection, GroupOf;
  }

  /** One step keeps a removed row as it is, unless it is one of those that erase it. */
  lemma StepErasesExactly(st: Store, c: Command, id: nat)
    requires id in st.intakes && st.intakes[id].isRemoved && st.intakes[id].removedAt.Some?
    ensures Keeps(Step(st, c).intakes, id, st.intakes[id]) <==> !Erases(c, id, st.intakes[id].removedAt.value)
  {
    hide Created, DeletedById, DeletedOldest, SaysHard, Keeps;
    match c
    case Create(req, env) => CreationErasesExactly(st, req, env, id);
    case DeleteById(other, mode, hardAllowed, at) => DeletionByIdErasesExactly(st, other, mode, hardAllowed, at, id);
    case DeleteOldest(section, slot, at) => DeletionByLocationErasesNothing(st, section, slot, at, id);
    case Purge(at) => PurgeErasesExactly(st, at, id);
  }

  lemma PurgeErasesExactly(st: Store, now: int, id: nat)
    requires id in st.intakes && st.intakes[id].isRemoved && st.intakes[id].removedAt.Some?
    ensures Keeps(Purged(st, now).intakes, id, st.intakes[id]) <==> now < st.intakes[id].removedAt.value + THIRTY_DAYS
  {
  }

  ghost predicate KeepsThroughout(st: Store, cs: seq<Command>, id: nat, row: Intake)
    decreases |cs|
  {
    Keeps(st.intakes, id, row) && (cs != [] ==> KeepsThroughout(Step(st, cs[0]), cs[1..], id, row))
  }

  /** Over every run a softly deleted row stays exactly as the deletion left it until a purge or a
      creation at least thirty days later, or its own permitted hard deletion. */
  lemma {:induction false} RemovedRowsStayExactly(st: Store, cs: seq<Command>, id: nat)
    requires id in st.intakes && st.intakes[id].isRemoved && st.intakes[id].removedAt.Some?
    ensures KeepsThroughout(st, cs, id, st.intakes[id]) <==>
      forall c :: c in cs ==> !Erases(c, id, st.intakes[id].removedAt.value)
    decreases |cs|
  {
    hide Step, Erases;
    if cs != [] {
      StepErasesExactly(st, cs[0], id);
      assert forall c :: c in cs <==> c == cs[0] || c in cs[1..];
      if !Erases(cs[0], id, st.intakes[id].removedAt.value) {
        RemovedRowsStayExactly(Step(st, cs[0]), cs[1..], id);
      }
    }
  }

  /** The same from the deletion on. */
  lemma SoftlyDeletedRowsStayExactly(st: Store, id: nat, mode: Option<string>, hardAllowed: bool, now: int, cs: seq<Command>)
    requires id in st.intakes && !st.intakes[id].isRemoved && SaysSoft(mode)
    ensures var marked := st.intakes[id].(isRemoved := true, removedAt := Some(now));
            KeepsThroughout(Step(st, DeleteById(id, mode, hardAllowed, now)), cs, id, marked) <==> forall c :: c in cs ==> !Erases(c, id, now)
  {
    DeletionByIdExactly(st, id, mode, hardAllowed, now);
    hide DeletedById, SaysSoft, Erases, KeepsThroughout;
    RemovedRowsStayExactly(Step(st, DeleteById(id, mode, hardAllowed, now)), cs, id);
  }
}
