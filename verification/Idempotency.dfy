/** The idempotency record: claim, replay, conflict, expiry, re-claim and finalization. */
module Idempotency {
  import opened Wrappers

  const MIN_TTL := 30

  datatype RecordState = Processing | Completed | Failed

  datatype Record = Record(
    requestHash: string,
    state: RecordState,
    statusCode: Option<int>,
    payload: string,
    errorCode: string,
    expiresAt: int)

  datatype Outcome =
    | Claimed
    | Replay(statusCode: Option<int>, payload: string)
    | Conflict
    | InProgress
    | Missing

  function Expiry(now: int, ttl: int): int { now + if ttl > MIN_TTL then ttl else MIN_TTL }

  function NewRecord(hash: string, expiresAt: int): Record {
    Record(hash, Processing, None, "{}", "", expiresAt)
  }

  /** The second transaction of a claim, on the row another request has inserted. */
  function Resolved(r: Option<Record>, hash: string, now: int, expiresAt: int): (Option<Record>, Outcome) {
    if r.None? then (None, Missing)
    else if r.value.expiresAt <= now then (Some(NewRecord(hash, expiresAt)), Claimed)
    else if r.value.requestHash != hash then (r, Conflict)
    else if r.value.state.Completed? then (r, Replay(r.value.statusCode, r.value.payload))
    else if r.value.state.Processing? then (r, InProgress)
    else (Some(r.value.(state := Processing, expiresAt := expiresAt)), Claimed)
  }

  function ErrorCode(code: string): string {
    var text := if code == "" then "unknown_error" else code;
    if |text| > 128 then text[..128] else text
  }

  function WithSuccess(r: Record, statusCode: int, payload: string): Record {
    r.(state := Completed, statusCode := Some(statusCode), payload := payload, errorCode := "")
  }

  function WithError(r: Record, statusCode: int, payload: string, code: string): Record {
    r.(state := Failed, statusCode := Some(statusCode), payload := payload, errorCode := ErrorCode(code))
  }

  // ---------------------------------------------------------------- the table

  datatype Key = Key(scope: string, idemKey: string)

  class RecordTable {
    var records: map<Key, Record>

    constructor ()
      ensures records == map[]
    {
      records := map[];
    }

    function Find(key: Key): Option<Record>
      reads this
    {
      if key in records then Some(records[key]) else None
    }

    /** First transaction: insert, unless the unique constraint on (scope, key) refuses. */
    method TryInsert(key: Key, hash: string, now: int, ttl: int) returns (claimed: bool)
      modifies this
      ensures claimed == (key !in old(records))
      ensures records == if claimed then old(records)[key := NewRecord(hash, Expiry(now, ttl))] else old(records)
    {
      claimed := key !in records;
      if claimed {
        records := records[key := NewRecord(hash, Expiry(now, ttl))];
      }
    }

    method Resolve(key: Key, hash: string, now: int, ttl: int) returns (outcome: Outcome)
      modifies this
      ensures (Find(key), outcome) == Resolved(old(Find(key)), hash, now, Expiry(now, ttl))
      ensures forall other :: other != key ==> Find(other) == old(Find(other))
    {
      if key !in records {
        return Missing;
      }
      var record := records[key];
      if record.expiresAt <= now {
        records := records[key := NewRecord(hash, Expiry(now, ttl))];
        return Claimed;
      }
      if record.requestHash != hash {
        return Conflict;
      }
      if record.state.Completed? {
        return Replay(record.statusCode, record.payload);
      }
      if record.state.Processing? {
        return InProgress;
      }
      records := records[key := record.(state := Processing, expiresAt := Expiry(now, ttl))];
      return Claimed;
    }

    /** Both transactions with nothing in between. */
    method ClaimOrReplay(key: Key, hash: string, now: int, ttl: int) returns (outcome: Outcome)
      modifies this
      ensures old(Find(key)).None? ==> outcome == Claimed && Find(key) == Some(NewRecord(hash, Expiry(now, ttl)))
      ensures old(Find(key)).Some? ==> (Find(key), outcome) == Resolved(old(Find(key)), hash, now, Expiry(now, ttl))
      ensures forall other :: other != key ==> Find(other) == old(Find(other))
    {
      var claimed := TryInsert(key, hash, now, ttl);
      if claimed {
        return Claimed;
      }
      outcome := Resolve(key, hash, now, ttl);
    }

    /** Writes through the row handle; whose claim the row now carries is not looked at. */
    method FinalizeSuccess(key: Key, statusCode: int, payload: string)
      requires key in records
      modifies this
      ensures records == old(records)[key := WithSuccess(old(records)[key], statusCode, payload)]
    {
      var record := records[key];
      records := records[key := record.(state := Completed, statusCode := Some(statusCode), payload := payload, errorCode := "")];
    }

    method FinalizeError(key: Key, statusCode: int, payload: string, code: string)
      requires key in records
      modifies this
      ensures records == old(records)[key := WithError(old(records)[key], statusCode, payload, code)]
    {
      var record := records[key];
      records := records[key := record.(state := Failed, statusCode := Some(statusCode), payload := payload, errorCode := ErrorCode(code))];
    }
  }
}
