/** When a creation succeeds, in the texts of the request and the fields of the rows. */
module CreationOutcomes {
  import opened Wrappers
  import opened Text
  import opened IntakeText
  import opened IntakeStore
  import opened PoolSafety
  import opened UnitNumbers
  import opened SeatChoice

  // ---------------------------------------------------------------- the texts

  /** Between one and `limit` characters once trimmed. */
  predicate Fits(text: string, limit: nat) { 1 <= |Trim(Rust, text)| <= limit }

  predicate IsControl(c: char) {
    '\U{00}' <= c <= '\U{08}' || c == '\U{0B}' || c == '\U{0C}' || '\U{0E}' <= c <= '\U{1F}' || '\U{7F}' <= c <= '\U{9F}'
  }

  /** What a request must look like: codes within their lengths and free of control characters,
      one to twenty boxes, a known section and a short place where one is given. */
  predicate WellFormed(req: CreateRequest) {
    && Fits(req.qrCode, 512) && (forall c :: c in Trim(Rust, req.qrCode) ==> !IsControl(c))
    && Fits(req.kidNumber, 64)
    && (req.boxTotal.Some? ==> 1 <= req.boxTotal.value <= 20)
    && (req.section.Some? ==> ToUpper(Trim(Rust, req.section.value)) in ["A", "B", "C", "D", "E", "F", "G", "H", "I", "J", "K", "M"])
    && (req.location.Some? ==> Fits(req.location.value, 64))
  }

  lemma ControlIsForbidden(c: char)
    ensures IsForbiddenControl(c) <==> IsControl(c)
  {
  }

  lemma SectionIsKnown(raw: string)
    ensures NormalizeSection(raw).Ok? <==> ToUpper(Trim(Rust, raw)) in ["A", "B", "C", "D", "E", "F", "G", "H", "I", "J", "K", "M"]
  {
    hide Trim, ToUpper;
  }

  lemma CodesAreWellFormed(qr: string, kid: string, location: string)
    ensures NormalizeQrCode(qr).Ok? <==> Fits(qr, 512) && forall c :: c in Trim(Rust, qr) ==> !IsControl(c)
    ensures NormalizeKidNumber(kid).Ok? <==> Fits(kid, 64)
    ensures NormalizeLocationText(location).Ok? <==> Fits(location, 64)
  {
    forall c | c in Trim(Rust, qr)
      ensures IsForbiddenControl(c) <==> IsControl(c)
    {
      ControlIsForbidden(c);
    }
    hide Trim, IsForbiddenControl, IsControl;
  }

  lemma NormalizedInParts(req: CreateRequest)
    ensures Normalized(req).Ok? <==>
      && NormalizeQrCode(req.qrCode).Ok? && NormalizeKidNumber(req.kidNumber).Ok?
      && (req.boxTotal.Some? ==> 1 <= req.boxTotal.value <= 20)
      && (req.section.Some? ==> NormalizeSection(req.section.value).Ok?)
      && (req.location.Some? ==> NormalizeLocationText(req.location.value).Ok?)
    ensures Normalized(req).Ok? ==> (Normalized(req).value.section.Some? <==> req.section.Some?)
    ensures Normalized(req).Ok? ==> (Normalized(req).value.manual.Some? <==> req.location.Some?)
  {
    hide NormalizeQrCode, NormalizeKidNumber, NormalizeSection, NormalizeLocationText, NormalizeStrategy, NormalizeProductKey;
  }

  lemma WellFormedExactly(req: CreateRequest)
    ensures Normalized(req).Ok? <==> WellFormed(req)
  {
    hide Trim, ToUpper, NormalizeQrCode, NormalizeKidNumber, NormalizeSection, NormalizeLocationText, Normalized, IsControl, Fits;
    NormalizedInParts(req);
    CodesAreWellFormed(req.qrCode, req.kidNumber, if req.location.Some? then req.location.value else "");
    if req.section.Some? {
      SectionIsKnown(req.section.value);
    }
  }

  // ---------------------------------------------------------------- the place

  /** Some number of the pool is mapped in no section. */
  ghost predicate PoolHasRoom(pools: Pools) {
    exists n :: 1 <= n <= 10000 && forall s :: s in pools ==> Decimal(n) !in pools[s]
  }

  /** The strategy asked for can place the boxes. */
  ghost predicate CanBePlaced(pools: Pools, req: CreateRequest) {
    && (Asks(req, "pool_auto") ==> req.section.Some? && PoolHasRoom(pools))
    && (Asks(req, "manual") ==> req.location.Some? && ParsedLocation(ToUpper(Trim(Rust, req.location.value))).Ok?)
  }

  lemma PoolHasRoomExactly(pools: Pools, section: string, index: string)
    ensures Reserve(pools, section, index).Some? <==> PoolHasRoom(pools)
  {
    ReserveFailsOnlyWhenFull(pools, section, index);
    hide Reserve, Decimal;
    forall n | 1 <= n <= 10000
      ensures SlotKey(n) in UsedKeys(pools) <==> !(forall s :: s in pools ==> Decimal(n) !in pools[s])
    {
    }
  }

  lemma PlacedByStrategy(st: Store, d: Draft)
    ensures Place(st, d).Ok? <==>
      && (d.form.strategy.PoolAuto? ==> d.form.section.Some? && Reserve(st.pools, d.form.section.value, d.internalIndex).Some?)
      && (d.form.strategy.Manual? ==> d.form.manual.Some? && ParsedLocation(d.form.manual.value).Ok?)
  {
    hide Reserve, ParsedLocation, ExistingSeat, SuggestLocation, ComposeLocation;
  }

  lemma PlacedExactly(st: Store, req: CreateRequest, d: Draft)
    requires Normalized(req) == Ok(d.form)
    ensures Place(st, d).Ok? <==> CanBePlaced(st.pools, req)
  {
    hide Normalized, Asks, Trim, ToUpper, Reserve, PoolHasRoom, ParsedLocation, Place, NormalizeQrCode, NormalizeKidNumber,
      NormalizeSection, NormalizeLocationText;
    NormalizedStrategy(req);
    NormalizedInParts(req);
    PlacedByStrategy(st, d);
    if d.form.section.Some? {
      PoolHasRoomExactly(st.pools, d.form.section.value, d.internalIndex);
    }
  }

  // ---------------------------------------------------------------- the boxes

  /** An active row for the same box of the same unit of the same label. */
  predicate IsTwin(row: Intake, qr: string, kid: string, unit: int, box: int) {
    !row.isRemoved && row.qrCode == qr && row.kidNumber == kid && row.unitIndex == unit && row.boxIndex == box
  }

  ghost predicate BoxFits(rows: Intakes, d: Draft, env: Env, j: int)
    requires 1 <= j <= 20
  {
    && env.ids[j] !in rows && env.fault != InsertFails(j)
    && forall id :: id in rows ==> !IsTwin(rows[id], d.form.qrCode, d.form.kidNumber, d.unitIndex, j)
  }

  /** Boxes k to the last can be inserted one after the other. */
  ghost predicate BoxesFit(rows: Intakes, d: Draft, env: Env, k: int)
    requires 1 <= k && d.form.boxTotal <= 20
  {
    && (forall j :: k <= j <= d.form.boxTotal ==> BoxFits(rows, d, env, j))
    && forall i, j :: k <= i < j <= d.form.boxTotal ==> env.ids[i] != env.ids[j]
  }

  lemma {:induction false} InsertedExactly(rows: Intakes, d: Draft, p: Placement, env: Env, k: int)
    requires 1 <= k && d.form.boxTotal <= 20
    ensures InsertBoxes(rows, d, p, env, k).Ok? <==> BoxesFit(rows, d, env, k)
    decreases d.form.boxTotal - k
  {
    if k <= d.form.boxTotal {
      var next := rows[env.ids[k] := Box(d, p, env, k)];
      InsertedExactly(next, d, p, env, k + 1);
      FirstBoxFits(rows, d, p, env, k);
      OneBoxLater(rows, d, p, env, k);
      hide BoxesFit, BoxFits, Box;
    }
  }

  lemma FirstBoxFits(rows: Intakes, d: Draft, p: Placement, env: Env, k: int)
    requires 1 <= k <= 20
    ensures BoxFits(rows, d, env, k) <==> env.fault != InsertFails(k) && !Clashes(rows, Box(d, p, env, k))
  {
  }

  lemma NextBoxFits(rows: Intakes, d: Draft, p: Placement, env: Env, k: int, j: int)
    requires 1 <= k < j <= 20
    ensures BoxFits(rows[env.ids[k] := Box(d, p, env, k)], d, env, j) <==>
      env.ids[j] != env.ids[k] && BoxFits(if env.ids[k] in rows then rows[env.ids[k] := Box(d, p, env, k)] else rows, d, env, j)
  {
    var next := rows[env.ids[k] := Box(d, p, env, k)];
    assert !IsTwin(next[env.ids[k]], d.form.qrCode, d.form.kidNumber, d.unitIndex, j);
    assert forall id :: id in rows && id != env.ids[k] ==> next[id] == rows[id];
  }

  lemma OneBoxLater(rows: Intakes, d: Draft, p: Placement, env: Env, k: int)
    requires 1 <= k <= d.form.boxTotal <= 20
    ensures BoxesFit(rows, d, env, k) <==>
      BoxFits(rows, d, env, k) && BoxesFit(rows[env.ids[k] := Box(d, p, env, k)], d, env, k + 1)
  {
    var next := rows[env.ids[k] := Box(d, p, env, k)];
    if env.ids[k] !in rows {
      forall j | k < j <= d.form.boxTotal
        ensures BoxFits(next, d, env, j) <==> env.ids[k] != env.ids[j] && BoxFits(rows, d, env, j)
      {
        NextBoxFits(rows, d, p, env, k, j);
      }
      hide BoxFits, Box;
    }
  }

  lemma CreatedInParts(st: Store, req: CreateRequest, env: Env)
    ensures var st0 := Purged(st, env.now);
            Created(st, req, env).1.Ok? <==>
              && Normalized(req).Ok?
              && var d := DraftOf(st0.intakes, Normalized(req).value);
                 Place(st0, d).Ok? && InsertBoxes(st0.intakes, d, Place(st0, d).value, env, 1).Ok? && !env.fault.CommitFails?
    ensures Created(st, req, env).1.Err? ==> Created(st, req, env).0 == Purged(st, env.now)
  {
    hide Purged, Normalized, DraftOf, Place, InsertBoxes;
  }

  /** The next unit of the request fits next to these rows. */
  ghost predicate UnitFits(rows: Intakes, req: CreateRequest, env: Env) {
    Normalized(req).Ok? ==> BoxesFit(rows, DraftOf(rows, Normalized(req).value), env, 1)
  }

  /** A creation succeeds exactly when the request is well formed, can be placed, its boxes fit
      next to the rows the purge leaves, and the database does not fail; otherwise nothing but the
      purge has happened. */
  lemma CreationSucceedsExactly(st: Store, req: CreateRequest, env: Env)
    ensures Created(st, req, env).1.Ok? <==>
      && WellFormed(req) && CanBePlaced(st.pools, req) && env.fault != CommitFails
      && UnitFits(Purged(st, env.now).intakes, req, env)
    ensures Created(st, req, env).1.Err? ==> Created(st, req, env).0 == Purged(st, env.now)
  {
    var st0 := Purged(st, env.now);
    assert st0.pools == st.pools;
    hide Purged, Normalized, DraftOf, Place, InsertBoxes, Created, WellFormed, CanBePlaced, BoxesFit;
    CreatedInParts(st, req, env);
    WellFormedExactly(req);
    if Normalized(req).Ok? {
      var d := DraftOf(st0.intakes, Normalized(req).value);
      PlacedExactly(st0, req, d);
      if Place(st0, d).Ok? {
        InsertedExactly(st0.intakes, d, Place(st0, d).value, env, 1);
      }
    }
  }
}
