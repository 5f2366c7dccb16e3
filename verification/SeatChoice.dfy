/** Where a creation that does not use the pool puts its boxes, in the fields of the rows. */
module SeatChoice {
  import opened Wrappers
  import opened Text
  import opened IntakeText
  import opened IntakeStore
  import opened PoolSafety
  import opened UnitNumbers
  import opened PlacementOrder

  // ---------------------------------------------------------------- the fullest place

  predicate StandsAt(row: Intake, key: string, seat: Location) {
    !row.isRemoved && row.productKey == Some(key)
    && row.section == seat.section && row.slot == seat.slot && row.location == seat.text
  }

  /** How many different units of the product the active rows show at a place. */
  function UnitCount(rows: Intakes, key: string, seat: Location): nat {
    |set id | id in rows && StandsAt(rows[id], key, seat) :: rows[id].unitIndex|
  }

  /** More units of the product than here stand nowhere, and as many only at a slot not lower. */
  ghost predicate Fullest(rows: Intakes, key: string, seat: Location) {
    && (exists id :: id in rows && StandsAt(rows[id], key, seat))
    && forall other, id | id in rows && StandsAt(rows[id], key, other) :: !Fuller(rows, key, other, seat)
  }

  ghost predicate Fuller(rows: Intakes, key: string, a: Location, b: Location) {
    UnitCount(rows, key, a) > UnitCount(rows, key, b) || (UnitCount(rows, key, a) == UnitCount(rows, key, b) && a.slot < b.slot)
  }

  lemma UnitsAreCounted(rows: Intakes, key: string, seat: Location)
    ensures UnitsAt(rows, key, seat) == UnitCount(rows, key, seat)
  {
    assert (set id | id in rows && StocksProduct(rows[id], key) && SeatOf(rows[id]) == seat :: rows[id].unitIndex)
        == (set id | id in rows && StandsAt(rows[id], key, seat) :: rows[id].unitIndex);
  }

  /** A product is found at its fullest place, and nowhere exactly when no active row has it. */
  lemma ExistingSeatIsFullest(rows: Intakes, key: string)
    ensures ExistingSeat(rows, key).None? <==> forall id :: id in rows ==> rows[id].isRemoved || rows[id].productKey != Some(key)
    ensures ExistingSeat(rows, key).Some? ==> Fullest(rows, key, ExistingSeat(rows, key).value)
  {
    if ExistingSeat(rows, key).Some? {
      var seat := ExistingSeat(rows, key).value;
      SeatComesFirst(rows, key);
      hide ExistingSeat, UnitsAt, UnitCount;
      forall other, id | id in rows && StandsAt(rows[id], key, other)
        ensures !Fuller(rows, key, other, seat)
      {
        assert other == SeatOf(rows[id]);
        UnitsAreCounted(rows, key, other);
        UnitsAreCounted(rows, key, seat);
      }
    }
  }

  lemma SeatComesFirst(rows: Intakes, key: string)
    requires ExistingSeat(rows, key).Some?
    ensures var seat := ExistingSeat(rows, key).value;
            && (exists id :: id in rows && StandsAt(rows[id], key, seat))
            && forall id | id in rows && StocksProduct(rows[id], key) ::
                 UnitsAt(rows, key, SeatOf(rows[id])) < UnitsAt(rows, key, seat)
                 || (UnitsAt(rows, key, SeatOf(rows[id])) == UnitsAt(rows, key, seat) && seat.slot <= rows[id].slot)
  {
    hide UnitsAt;
    var keys := set id | id in rows && StocksProduct(rows[id], key)
                :: SortKey(0 - UnitsAt(rows, key, SeatOf(rows[id])), rows[id].slot, id);
    forall id | id in rows && StocksProduct(rows[id], key)
      ensures SortKey(0 - UnitsAt(rows, key, SeatOf(rows[id])), rows[id].slot, id) in keys
    {
    }
    assert keys != {};
    var first := FirstKey(keys);
    assert first in keys && ExistingSeat(rows, key) == Some(SeatOf(rows[first.id]));
    assert StandsAt(rows[first.id], key, SeatOf(rows[first.id]));
  }

  // ---------------------------------------------------------------- what a request asks for

  /** The name of a placement strategy, as a request gives it. */
  predicate Asks(req: CreateRequest, name: string) {
    req.strategy.Some? && ToLower(Trim(Rust, req.strategy.value)) == name
  }

  /** The lowest number that no section maps, in the section asked for. */
  ghost predicate LowestUnmapped(pools: Pools, row: Intake) {
    && 1 <= row.slot <= 10000 && row.location == row.section + Decimal(row.slot)
    && (forall s :: s in pools ==> Decimal(row.slot) !in pools[s])
    && forall n :: 1 <= n < row.slot ==> exists s :: s in pools && Decimal(n) in pools[s]
  }

  predicate StocksSame(rows: Intakes, row: Intake) {
    row.productKey.Some? && exists id :: id in rows && !rows[id].isRemoved && rows[id].productKey == row.productKey
  }

  /** Where a new row stands: in the pool section or at the place the request names, else next to
      its product where that may be, else where the scan suggests. */
  ghost predicate PlacedAsAsked(st: Store, req: CreateRequest, row: Intake) {
    var seat := Location(row.section, row.slot, row.location);
    if Asks(req, "pool_auto") then
      req.section.Some? && row.section == ToUpper(Trim(Rust, req.section.value)) && LowestUnmapped(st.pools, row)
    else if Asks(req, "manual") then
      req.location.Some? && ParsedLocation(ToUpper(Trim(Rust, req.location.value))) == Ok(seat)
    else if !Asks(req, "always_new") && StocksSame(st.intakes, row) then Fullest(st.intakes, row.productKey.value, seat)
    else seat == SuggestLocation(st.intakes)
  }

  lemma NormalizedStrategy(req: CreateRequest)
    requires Normalized(req).Ok?
    ensures var f := Normalized(req).value;
            && (f.strategy.PoolAuto? <==> Asks(req, "pool_auto"))
            && (f.strategy.Manual? <==> Asks(req, "manual"))
            && (f.strategy.AlwaysNew? <==> Asks(req, "always_new"))
            && (f.section.Some? ==> req.section.Some? && f.section.value == ToUpper(Trim(Rust, req.section.value)))
            && (f.manual.Some? ==> req.location.Some? && f.manual.value == ToUpper(Trim(Rust, req.location.value)))
  {
    hide Trim, ToUpper, ToLower, NormalizeQrCode, NormalizeKidNumber, NormalizeProductKey;
  }

  lemma PoolSeat(pools: Pools, section: string, index: string, row: Intake)
    requires Reserve(pools, section, index).Some? && row.section == section
    requires row.slot == Reserve(pools, section, index).value.0 && row.location == ComposeLocation(row.slot, section)
    ensures LowestUnmapped(pools, row)
  {
    ReserveTakesLowestFree(pools, section, index);
    hide Reserve, Decimal;
    assert forall s :: s in pools && Decimal(row.slot) in pools[s] ==> SlotKey(row.slot) in UsedKeys(pools);
    forall n | 1 <= n < row.slot
      ensures exists s :: s in pools && Decimal(n) in pools[s]
    {
      assert SlotKey(n) in UsedKeys(pools);
    }
  }

  lemma PlaceIsAsAsked(st: Store, req: CreateRequest, d: Draft, p: Placement, env: Env, k: int)
    requires Normalized(req) == Ok(d.form) && Place(st, d) == Ok(p) && 1 <= k <= 20
    ensures PlacedAsAsked(st, req, Box(d, p, env, k))
  {
    hide Normalized, Asks, Trim, ToUpper, ToLower, ExistingSeat, SuggestLocation, Reserve, Fullest, ParsedLocation, LowestUnmapped;
    NormalizedStrategy(req);
    if d.form.strategy.PoolAuto? {
      PoolSeat(st.pools, d.form.section.value, d.internalIndex, Box(d, p, env, k));
    } else if d.form.strategy.SameIfExists? && d.form.productKey.Some? {
      ExistingSeatIsFullest(st.intakes, d.form.productKey.value);
    }
  }

  /** Every box of a creation stands where its request asked for, given the rows that the purge
      before it has left. */
  lemma CreationPlacesAsAsked(st: Store, req: CreateRequest, env: Env)
    requires Created(st, req, env).1.Ok?
    ensures forall k :: 1 <= k <= (if req.boxTotal.None? then 1 else req.boxTotal.value) && k <= 20 ==>
      env.ids[k] in Created(st, req, env).0.intakes
      && PlacedAsAsked(Purged(st, env.now), req, Created(st, req, env).0.intakes[env.ids[k]])
  {
    var d, p := CreationInsertsBoxes(st, req, env);
    hide *;
    BoxTotalOf(req);
    EachBoxIsThere(Purged(st, env.now).intakes, d, p, env, 1);
    forall k | 1 <= k <= d.form.boxTotal && k <= 20
      ensures PlacedAsAsked(Purged(st, env.now), req, Box(d, p, env, k))
    {
      PlaceIsAsAsked(Purged(st, env.now), req, d, p, env, k);
    }
  }
}
