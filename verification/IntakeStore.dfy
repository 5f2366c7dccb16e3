/** The two tables of the warehouse, `intakes` and `warehouse_slot_pools`, and what each
    statement and each service transaction does to them, as functions on values. */
module IntakeStore {
  import opened Wrappers
  import opened Text
  import opened IntakeText

  const POOL_SIZE := 10000
  const RETENTION_SECONDS := 30 * 86400
  const SECTION_PRIORITY: seq<string> := ["D", "E", "F", "G", "H", "I", "J", "C", "B", "K", "M"]

  /** Which reservation a box was created under; the pool is the only reserving strategy. */
  datatype Origin = Pooled(reservation: nat) | Unpooled

  datatype Intake = Intake(
    id: nat,
    qrCode: string,
    kidNumber: string,
    productKey: Option<string>,
    isBWare: bool,
    section: string,
    slot: int,
    location: string,
    boxIndex: int,
    boxTotal: int,
    unitIndex: int,
    internalIndex: Option<string>,
    createdAt: int,
    isRemoved: bool,
    removedAt: Option<int>,
    origin: Origin)

  datatype PoolEntry = PoolEntry(section: string, internalIndex: string)

  type Intakes = map<nat, Intake>
  type Pools = map<string, map<string, PoolEntry>>

  /** The database: both tables, and how many pool reservations have been committed. */
  datatype Store = Store(intakes: Intakes, pools: Pools, reservations: nat)

  // ---------------------------------------------------------------- queries

  predicate ActiveAt(row: Intake, section: string, slot: int) {
    !row.isRemoved && row.section == section && row.slot == slot
  }

  function ActiveRowsAt(rows: Intakes, section: string, slot: int): set<nat> {
    set id | id in rows && ActiveAt(rows[id], section, slot)
  }

  /** What rows are sorted by; the last component is a row id. */
  datatype SortKey = SortKey(first: int, second: int, id: nat)

  predicate KeyLe(a: SortKey, b: SortKey) {
    a.first < b.first || (a.first == b.first && (a.second < b.second || (a.second == b.second && a.id <= b.id)))
  }

  predicate FirstOf(k: SortKey, keys: set<SortKey>) {
    k in keys && forall x :: x in keys ==> KeyLe(k, x)
  }

  lemma {:induction false} FirstKeyExists(keys: set<SortKey>)
    requires keys != {}
    ensures exists k :: FirstOf(k, keys)
  {
    var x :| x in keys;
    var rest := keys - {x};
    if rest == {} {
      assert forall y :: y in keys ==> y == x || y in rest;
      assert FirstOf(x, keys);
    } else {
      FirstKeyExists(rest);
      var k :| FirstOf(k, rest);
      assert forall y :: y in keys ==> y == x || y in rest;
      assert FirstOf(if KeyLe(x, k) then x else k, keys);
    }
  }

  function FirstKey(keys: set<SortKey>): (k: SortKey)
    requires keys != {}
    ensures FirstOf(k, keys)
  {
    FirstKeyExists(keys);
    var k :| k in keys && forall x :: x in keys ==> KeyLe(k, x);
    k
  }

  /** The increment of a 32-bit integer. */
  function NextI32(n: int): int {
    if n == I32_MAX then I32_MIN else n + 1
  }

  predicate SameUnitSeries(row: Intake, productKey: Option<string>, qr: string, kid: string) {
    !row.isRemoved &&
    if productKey.Some? then row.productKey == productKey else row.qrCode == qr && row.kidNumber == kid
  }

  /** One more than the highest unit index among the active rows of the series, or 1. */
  function NextUnitIndex(rows: Intakes, productKey: Option<string>, qr: string, kid: string): int {
    var keys := set id | id in rows && SameUnitSeries(rows[id], productKey, qr, kid) :: SortKey(-rows[id].unitIndex, 0, id);
    if keys == {} then 1 else NextI32(-FirstKey(keys).first)
  }

  /** The highest occupied slot number of a section, or 0. */
  function SectionMax(rows: Intakes, section: string): (m: int)
    ensures forall id :: id in rows && !rows[id].isRemoved && rows[id].section == section ==> rows[id].slot <= m
    ensures m != 0 ==> exists id :: id in rows && ActiveAt(rows[id], section, m)
  {
    var keys := set id | id in rows && !rows[id].isRemoved && rows[id].section == section :: SortKey(-rows[id].slot, 0, id);
    assert forall id :: (id in rows && !rows[id].isRemoved && rows[id].section == section
                         ==> SortKey(-rows[id].slot, 0, id) in keys);
    if keys == {} then 0 else -FirstKey(keys).first
  }

  /** The active row at a location that was created first (then lowest box, then lowest id). */
  function OldestAt(rows: Intakes, section: string, slot: int): (seed: Option<nat>)
    ensures seed.None? <==> ActiveRowsAt(rows, section, slot) == {}
    ensures seed.Some? ==> seed.value in ActiveRowsAt(rows, section, slot)
    ensures seed.Some? ==> forall id :: id in ActiveRowsAt(rows, section, slot) ==> KeyLe(AgeKey(rows[seed.value], seed.value), AgeKey(rows[id], id))
  {
    var keys := set id | id in ActiveRowsAt(rows, section, slot) :: AgeKey(rows[id], id);
    assert forall id :: id in ActiveRowsAt(rows, section, slot) ==> AgeKey(rows[id], id) in keys;
    if keys == {} then None else Some(FirstKey(keys).id)
  }

  function AgeKey(row: Intake, id: nat): SortKey { SortKey(row.createdAt, row.boxIndex, id) }

  /** How many different units of a product stand at one location. */
  function UnitsAt(rows: Intakes, productKey: string, seat: Location): nat {
    |set id | id in rows && StocksProduct(rows[id], productKey) && SeatOf(rows[id]) == seat :: rows[id].unitIndex|
  }

  predicate StocksProduct(row: Intake, productKey: string) { !row.isRemoved && row.productKey == Some(productKey) }

  function SeatOf(row: Intake): Location { Location(row.section, row.slot, row.location) }

  /** Where a product already stands: most units first, then lowest slot (then lowest row id). */
  function ExistingSeat(rows: Intakes, productKey: string): (seat: Option<Location>)
    ensures seat.None? <==> forall id :: id in rows ==> !StocksProduct(rows[id], productKey)
    ensures seat.Some? ==> exists id :: id in rows && StocksProduct(rows[id], productKey) && SeatOf(rows[id]) == seat.value
  {
    var keys := set id | id in rows && StocksProduct(rows[id], productKey)
                :: SortKey(0 - UnitsAt(rows, productKey, SeatOf(rows[id])), rows[id].slot, id);
    assert forall id :: (id in rows && StocksProduct(rows[id], productKey)
                         ==> SortKey(0 - UnitsAt(rows, productKey, SeatOf(rows[id])), rows[id].slot, id) in keys);
    if keys == {} then None else Some(SeatOf(rows[FirstKey(keys).id]))
  }

  // ---------------------------------------------------------------- statements

  function MarkRemoved(rows: Intakes, ids: set<nat>, now: int): Intakes {
    map id | id in rows :: if id in ids then rows[id].(isRemoved := true, removedAt := Some(now)) else rows[id]
  }

  predicate Expired(row: Intake, now: int) {
    row.isRemoved && row.removedAt.Some? && row.removedAt.value <= now - RETENTION_SECONDS
  }

  function PurgeExpired(rows: Intakes, now: int): Intakes {
    map id | id in rows && !Expired(rows[id], now) :: rows[id]
  }

  function SlotKey(slot: int): string { SignedText(slot) }

  function UsedKeys(pools: Pools): set<string> {
    set section, key | section in pools && key in pools[section] :: key
  }

  function EnsureSection(pools: Pools, section: string): Pools {
    if section in pools then pools else pools[section := map[]]
  }

  /** The lowest number from `from` up to the pool size that is not a used key. */
  function LowestFree(used: set<string>, from: int): (slot: Option<int>)
    requires 1 <= from <= POOL_SIZE + 1
    ensures slot.Some? ==> from <= slot.value <= POOL_SIZE && SlotKey(slot.value) !in used
    ensures forall k :: from <= k < (if slot.Some? then slot.value else POOL_SIZE + 1) ==> SlotKey(k) in used
    decreases POOL_SIZE - from
  {
    if from > POOL_SIZE then None
    else if SlotKey(from) !in used then Some(from)
    else LowestFree(used, from + 1)
  }

  /** The slot a reservation takes and the pool table after it, or None when the pool is full. */
  function Reserve(pools: Pools, section: string, index: string): Option<(int, Pools)> {
    var rows := EnsureSection(pools, section);
    match LowestFree(UsedKeys(rows), 1)
    case None => None
    case Some(slot) =>
      Some((slot, rows[section := rows[section][SlotKey(slot) := PoolEntry(section, index)]]))
  }

  function ReleaseKey(pools: Pools, section: string, slot: int): Pools {
    if section in pools then pools[section := pools[section] - {SlotKey(slot)}] else pools
  }

  function ReleaseIfUnused(st: Store, section: string, slot: int): Store {
    if |ActiveRowsAt(st.intakes, section, slot)| > 0 then st
    else st.(pools := ReleaseKey(st.pools, section, slot))
  }

  // ---------------------------------------------------------------- placement

  /** The scan over the section priorities: best section and slot among the first n. */
  function BestOfFirst(rows: Intakes, n: nat): (best: (string, int))
    requires n <= |SECTION_PRIORITY|
  {
    if n == 0 then (SECTION_PRIORITY[0], I32_MAX)
    else
      var before := BestOfFirst(rows, n - 1);
      var next := NextSlot(rows, n - 1);
      if next < before.1 then (SECTION_PRIORITY[n - 1], next) else before
  }

  /** One above the highest slot of the i-th section of the priority list, saturating. */
  function NextSlot(rows: Intakes, i: nat): (slot: int)
    requires i < |SECTION_PRIORITY|
    ensures slot <= I32_MAX
  {
    var m := SectionMax(rows, SECTION_PRIORITY[i]);
    if m >= I32_MAX then I32_MAX else m + 1
  }

  function SuggestLocation(rows: Intakes): Location {
    var best := BestOfFirst(rows, |SECTION_PRIORITY|);
    Location(best.0, best.1, ComposeLocation(best.1, best.0))
  }

  function DecidePlacement(rows: Intakes, productKey: Option<string>, manual: Option<string>, strategy: Strategy)
    : Result<Location, IntakeError>
  {
    if strategy.Manual? then
      if manual.None? then Err(InvalidLocation) else ParsedLocation(manual.value)
    else if productKey.Some? && strategy.SameIfExists? && ExistingSeat(rows, productKey.value).Some? then
      Ok(ExistingSeat(rows, productKey.value).value)
    else Ok(SuggestLocation(rows))
  }

  // ---------------------------------------------------------------- creation

  datatype CreateRequest = CreateRequest(
    qrCode: string,
    kidNumber: string,
    productKey: Option<string>,
    isBWare: Option<bool>,
    boxTotal: Option<int>,
    strategy: Option<string>,
    section: Option<string>,
    location: Option<string>)

  /** Where the database refuses to go on; the transaction then rolls back. */
  datatype Fault = NoFault | InsertFails(boxIndex: int) | CommitFails

  type IdSupply = ids: seq<nat> | |ids| == 21 witness seq(21, i => i)

  /** What one call takes from outside: the clock, fresh row ids, and a possible fault. */
  datatype Env = Env(now: int, ids: IdSupply, fault: Fault)

  /** A request after its text rules. */
  datatype Form = Form(
    qrCode: string,
    kidNumber: string,
    productKey: Option<string>,
    isBWare: bool,
    boxTotal: int,
    strategy: Strategy,
    section: Option<string>,
    manual: Option<string>)

  function Normalized(req: CreateRequest): (r: Result<Form, IntakeError>)
    ensures r.Ok? ==> 1 <= r.value.boxTotal <= 20
  {
    match NormalizeQrCode(req.qrCode)
    case Err(e) => Err(e)
    case Ok(qr) =>
      match NormalizeKidNumber(req.kidNumber)
      case Err(e) => Err(e)
      case Ok(kid) =>
        match NormalizeBoxTotal(if req.boxTotal.None? then 1 else req.boxTotal.value)
        case Err(e) => Err(e)
        case Ok(boxTotal) =>
          var section := if req.section.None? then Ok(None) else OptionOk(NormalizeSection(req.section.value));
          if section.Err? then Err(section.error)
          else
            var manual := if req.location.None? then Ok(None) else OptionOk(NormalizeLocationText(req.location.value));
            if manual.Err? then Err(manual.error)
            else
              Ok(Form(qr, kid, NormalizeProductKey(req.productKey), req.isBWare == Some(true), boxTotal,
                      NormalizeStrategy(req.strategy), section.value, manual.value))
  }

  datatype Draft = Draft(form: Form, unitIndex: int, internalIndex: string)

  function DraftOf(rows: Intakes, f: Form): (d: Draft)
    ensures d.form == f && Trimmed(Rust, d.internalIndex) && d.internalIndex != ""
  {
    var unit := NextUnitIndex(rows, f.productKey, f.qrCode, f.kidNumber);
    Draft(f, unit, InternalIndex(unit, f.kidNumber, f.qrCode))
  }

  function Prepare(rows: Intakes, req: CreateRequest): (r: Result<Draft, IntakeError>)
    ensures r.Ok? ==> 1 <= r.value.form.boxTotal <= 20
    ensures r.Ok? ==> r.value == DraftOf(rows, r.value.form)
  {
    match Normalized(req)
    case Err(e) => Err(e)
    case Ok(form) => Ok(DraftOf(rows, form))
  }

  function OptionOk(r: Result<string, IntakeError>): Result<Option<string>, IntakeError> {
    match r
    case Ok(v) => Ok(Some(v))
    case Err(e) => Err(e)
  }

  /** Where the boxes go, with the pool table and the reservation count that go with it. */
  datatype Placement = Placement(seat: Location, pools: Pools, reservations: nat, origin: Origin)

  function Place(st: Store, d: Draft): Result<Placement, IntakeError> {
    if d.form.strategy.PoolAuto? then
      if d.form.section.None? then Err(InvalidSection)
      else
        match Reserve(st.pools, d.form.section.value, d.internalIndex)
        case None => Err(PoolExhausted)
        case Some((slot, pools)) =>
          Ok(Placement(Location(d.form.section.value, slot, ComposeLocation(slot, d.form.section.value)),
                       pools, st.reservations + 1, Pooled(st.reservations)))
    else
      match DecidePlacement(st.intakes, d.form.productKey, d.form.manual, d.form.strategy)
      case Err(e) => Err(e)
      case Ok(seat) => Ok(Placement(seat, st.pools, st.reservations, Unpooled))
  }

  function Box(d: Draft, p: Placement, env: Env, k: int): Intake
    requires 1 <= k <= 20
  {
    Intake(env.ids[k], d.form.qrCode, d.form.kidNumber, d.form.productKey, d.form.isBWare, p.seat.section, p.seat.slot, p.seat.text,
           k, d.form.boxTotal, d.unitIndex, Some(d.internalIndex), env.now, false, None, p.origin)
  }

  predicate SameActiveBox(a: Intake, b: Intake) {
    !a.isRemoved && !b.isRemoved && a.qrCode == b.qrCode && a.kidNumber == b.kidNumber &&
    a.unitIndex == b.unitIndex && a.boxIndex == b.boxIndex
  }

  /** The primary key or the unique index over active boxes rejects the row. */
  predicate Clashes(rows: Intakes, box: Intake) {
    box.id in rows || exists id :: id in rows && SameActiveBox(rows[id], box)
  }

  function InsertBoxes(rows: Intakes, d: Draft, p: Placement, env: Env, k: int): Result<Intakes, IntakeError>
    requires 1 <= k && d.form.boxTotal <= 20
    decreases d.form.boxTotal - k
  {
    if k > d.form.boxTotal then Ok(rows)
    else if env.fault == InsertFails(k) then Err(StorageFailure)
    else if Clashes(rows, Box(d, p, env, k)) then Err(DuplicateIntake)
    else InsertBoxes(rows[env.ids[k] := Box(d, p, env, k)], d, p, env, k + 1)
  }

  function Purged(st: Store, now: int): Store { st.(intakes := PurgeExpired(st.intakes, now)) }

  /** Placement and box inserts of one draft: the committed store, or why it rolled back. */
  function Committed(st: Store, d: Draft, env: Env): Result<Store, IntakeError>
    requires 1 <= d.form.boxTotal <= 20
  {
    match Place(st, d)
    case Err(e) => Err(e)
    case Ok(p) =>
      match InsertBoxes(st.intakes, d, p, env, 1)
      case Err(e) => Err(e)
      case Ok(rows) =>
        if env.fault.CommitFails? then Err(StorageFailure) else Ok(Store(rows, p.pools, p.reservations))
  }

  /** One creation: the store afterwards and the first box's id, or the error with only the purge done. */
  function Created(st: Store, req: CreateRequest, env: Env): (Store, Result<nat, IntakeError>) {
    var st0 := Purged(st, env.now);
    match Prepare(st0.intakes, req)
    case Err(e) => (st0, Err(e))
    case Ok(d) =>
      match Committed(st0, d, env)
      case Err(e) => (st0, Err(e))
      case Ok(st1) => (st1, Ok(env.ids[1]))
  }

  // ---------------------------------------------------------------- deletion

  datatype DeleteMode = Soft | Hard

  function NormalizeDeleteMode(raw: Option<string>): Result<DeleteMode, IntakeError> {
    var name := if raw.None? then "" else ToLower(Trim(Rust, raw.value));
    if name == "" || name == "soft" then Ok(Soft)
    else if name == "hard" then Ok(Hard)
    else Err(InvalidDeleteMode)
  }

  /** Deletion by id: the deleted row, or the error. */
  function DeletedById(st: Store, id: nat, mode: Option<string>, hardAllowed: bool, now: int)
    : (Store, Result<Intake, IntakeError>)
  {
    match NormalizeDeleteMode(mode)
    case Err(e) => (st, Err(e))
    case Ok(m) =>
      if m.Hard? && !hardAllowed then (st, Err(AdminRequired))
      else if id !in st.intakes || (m.Soft? && st.intakes[id].isRemoved) then (st, Err(NotFound))
      else
        var row := st.intakes[id];
        var rows := if m.Soft? then MarkRemoved(st.intakes, {id}, now) else st.intakes - {id};
        (ReleaseIfUnused(st.(intakes := rows), row.section, row.slot), Ok(row))
  }

  /** Which boxes belong to one unit. */
  datatype Group =
    | ByIndex(internalIndex: string)
    | ByUnit(seed: Intake)

  function GroupOf(seed: Intake): Group {
    if seed.internalIndex.Some? && Trim(Rust, seed.internalIndex.value) != "" then ByIndex(Trim(Rust, seed.internalIndex.value))
    else ByUnit(seed)
  }

  predicate InGroup(row: Intake, g: Group) {
    !row.isRemoved &&
    match g
    case ByIndex(index) => row.internalIndex == Some(index)
    case ByUnit(seed) =>
      row.section == seed.section && row.slot == seed.slot && row.unitIndex == seed.unitIndex &&
      row.qrCode == seed.qrCode && row.kidNumber == seed.kidNumber &&
      row.productKey == seed.productKey && row.isBWare == seed.isBWare
  }

  function GroupRows(rows: Intakes, g: Group): set<nat> {
    set id | id in rows && InGroup(rows[id], g)
  }

  /** Deletion of the oldest unit at a location: the ids removed, or the error. */
  function DeletedOldest(st: Store, rawSection: string, slot: int, now: int): (Store, Result<set<nat>, IntakeError>) {
    match NormalizeSection(rawSection)
    case Err(e) => (st, Err(e))
    case Ok(section) =>
      if !(1 <= slot <= POOL_SIZE) then (st, Err(InvalidSlotNumber))
      else
        match OldestAt(st.intakes, section, slot)
        case None => (st, Err(NotFound))
        case Some(seed) =>
          var ids := GroupRows(st.intakes, GroupOf(st.intakes[seed]));
          if ids == {} then (st, Err(NotFound))
          else (ReleaseIfUnused(st.(intakes := MarkRemoved(st.intakes, ids, now)), section, slot), Ok(ids))
  }

  // ---------------------------------------------------------------- runs

  datatype Command =
    | Create(req: CreateRequest, env: Env)
    | DeleteById(id: nat, mode: Option<string>, hardAllowed: bool, at: int)
    | DeleteOldest(section: string, slot: int, at: int)
    | Purge(at: int)

  function Step(st: Store, c: Command): Store {
    match c
    case Create(req, env) => Created(st, req, env).0
    case DeleteById(id, mode, hardAllowed, at) => DeletedById(st, id, mode, hardAllowed, at).0
    case DeleteOldest(section, slot, at) => DeletedOldest(st, section, slot, at).0
    case Purge(at) => Purged(st, at)
  }

  function Run(st: Store, cs: seq<Command>): Store
    decreases |cs|
  {
    if cs == [] then st else Run(Step(st, cs[0]), cs[1..])
  }

  const EMPTY := Store(map[], map[], 0)
}
