/** The table-backed job queue: prepared statements over rows in seq order. */
module SqliteJobQueue {
  import opened Numerals
  import opened JobQueuePort

  // rows: the table in seq order; sequence: the counter of the open process, not of the table.
  datatype Table = Table(rows: seq<Job>, sequence: nat)

  const EMPTY_TABLE := Table([], 0)

  // UPDATE ... WHERE id = ?
  function UpdateWhereId(rows: seq<Job>, id: nat, c: Change): seq<Job> {
    seq(|rows|, i requires 0 <= i < |rows| => if rows[i].id == id then Apply(c, rows[i]) else rows[i])
  }

  predicate Keyed(row: Job, queue: string, key: string) {
    row.queue == queue && row.idempotencyKey == Some(key)
  }

  // SELECT ... WHERE queue = ? AND idempotency_key = ? ORDER BY seq DESC LIMIT 1: the row's position, or -1.
  function Latest(rows: seq<Job>, queue: string, key: string): (i: int)
    ensures -1 <= i < |rows|
    ensures i >= 0 ==> Keyed(rows[i], queue, key)
    ensures forall k :: i < k < |rows| ==> !Keyed(rows[k], queue, key)
  {
    if rows == [] then -1
    else if Keyed(rows[|rows| - 1], queue, key) then |rows| - 1
    else Latest(rows[..|rows| - 1], queue, key)
  }

  function TableEnqueue(t: Table, queue: string, payload: string, key: Option<string>,
                        maxAttempts: Option<int>, now: int): (Table, Reply)
  {
    var most := GetOr(maxAttempts, DEFAULT_MAX_ATTEMPTS);
    if queue == "" then (t, Error("JOB_QUEUE_INVALID"))
    else if most < 1 || most > MAX_ATTEMPTS_LIMIT then (t, Error("JOB_ATTEMPTS_INVALID"))
    else
      var i := if key.Some? then Latest(t.rows, queue, key.value) else -1;
      if i >= 0 && Reusable(t.rows[i]) then (t, Record(t.rows[i]))
      else
        var job := NewJob(t.sequence + 1, queue, payload, key, most, now);
        if IndexOf(t.rows, job.id) < |t.rows| then (t.(sequence := t.sequence + 1), Error("SQLITE_CONSTRAINT_UNIQUE"))
        else (Table(t.rows + [job], t.sequence + 1), Record(job))
  }

  function TableClaim(t: Table, queue: string, leaseMs: int, at: Option<int>, now: int): (Table, Reply) {
    if leaseMs <= 0 then (t, Error("JOB_LEASE_INVALID"))
    else
      var i := FirstQueued(t.rows, queue);
      if i == |t.rows| then (t, NoJob)
      else
        var c := ToClaimed(GetOr(at, now) + leaseMs);
        (t.(rows := UpdateWhereId(t.rows, t.rows[i].id, c)), Record(Apply(c, t.rows[i])))
  }

  function TableSettle(t: Table, id: nat, already: JobState, c: Change): (Table, Reply) {
    var i := IndexOf(t.rows, id);
    if i == |t.rows| then (t, Error("JOB_NOT_FOUND"))
    else if t.rows[i].state == already then (t, Done)
    else if t.rows[i].state != Active then (t, Error("JOB_NOT_ACTIVE"))
    else (t.(rows := UpdateWhereId(t.rows, id, c)), Done)
  }

  function TableCancel(t: Table, id: nat): (Table, Reply) {
    var i := IndexOf(t.rows, id);
    if i == |t.rows| then (t, Error("JOB_NOT_FOUND"))
    else if t.rows[i].state != Queued then (t, Flag(false))
    else (t.(rows := UpdateWhereId(t.rows, id, ToCancelled)), Flag(true))
  }

  function TableStep(t: Table, op: Op): (Table, Reply) {
    match op
    case Enqueue(queue, payload, key, maxAttempts, now) => TableEnqueue(t, queue, payload, key, maxAttempts, now)
    case Claim(queue, leaseMs, at, now) => TableClaim(t, queue, leaseMs, at, now)
    case Complete(id) => TableSettle(t, id, Completed, ToCompleted)
    case Fail(id, error) => TableSettle(t, id, Failed, ToFailed(error))
    case Cancel(id) => TableCancel(t, id)
    case Recover(before) => (t.(rows := RecoverAll(t.rows, before)), Count(CountExpired(t.rows, before)))
    case List(filter) => (t, Listing(Sorted(ById, OfQueue(t.rows, filter))))
  }

  class SqliteJobQueue {
    var rows: seq<Job>
    var sequence: nat

    ghost function Model(): Table
      reads this
    {
      Table(rows, sequence)
    }

    // CREATE TABLE IF NOT EXISTS keeps the rows of an existing database; the counter restarts.
    constructor (stored: seq<Job>)
      ensures Model() == Table(stored, 0)
    {
      rows, sequence := stored, 0;
    }

    method Update(id: nat, c: Change)
      modifies this`rows
      ensures rows == UpdateWhereId(old(rows), id, c)
    {
      ghost var before := rows;
      for i := 0 to |rows|
        invariant |rows| == |before|
        invariant forall k :: 0 <= k < i ==> rows[k] == UpdateWhereId(before, id, c)[k]
        invariant forall k :: i <= k < |rows| ==> rows[k] == before[k]
      {
        if rows[i].id == id {
          rows := rows[i := Apply(c, rows[i])];
        }
      }
    }

    method EnqueueRow(queue: string, payload: string, key: Option<string>, maxAttempts: Option<int>, now: int)
      returns (r: Reply)
      modifies this
      ensures Model() == TableEnqueue(old(Model()), queue, payload, key, maxAttempts, now).0
      ensures r == TableEnqueue(old(Model()), queue, payload, key, maxAttempts, now).1
    {
      if queue == "" {
        return Error("JOB_QUEUE_INVALID");
      }
      var most := GetOr(maxAttempts, DEFAULT_MAX_ATTEMPTS);
      if most < 1 || most > MAX_ATTEMPTS_LIMIT {
        return Error("JOB_ATTEMPTS_INVALID");
      }
      if key.Some? {
        var i := Latest(rows, queue, key.value);
        if i >= 0 && Reusable(rows[i]) {
          return Record(rows[i]);
        }
      }
      sequence := sequence + 1;
      var job := NewJob(sequence, queue, payload, key, most, now);
      if IndexOf(rows, job.id) < |rows| {
        return Error("SQLITE_CONSTRAINT_UNIQUE");
      }
      rows := rows + [job];
      r := Record(job);
    }

    method ClaimRow(queue: string, leaseMs: int, at: Option<int>, now: int) returns (r: Reply)
      modifies this`rows
      ensures Model() == TableClaim(old(Model()), queue, leaseMs, at, now).0
      ensures r == TableClaim(old(Model()), queue, leaseMs, at, now).1
    {
      if leaseMs <= 0 {
        return Error("JOB_LEASE_INVALID");
      }
      var c := ToClaimed(GetOr(at, now) + leaseMs);
      var i := FirstQueued(rows, queue);
      if i == |rows| {
        return NoJob;
      }
      r := Record(Apply(c, rows[i]));
      Update(rows[i].id, c);
    }

    method SettleRow(id: nat, already: JobState, c: Change) returns (r: Reply)
      modifies this`rows
      ensures Model() == TableSettle(old(Model()), id, already, c).0
      ensures r == TableSettle(old(Model()), id, already, c).1
    {
      var i := IndexOf(rows, id);
      if i == |rows| {
        return Error("JOB_NOT_FOUND");
      }
      if rows[i].state == already {
        return Done;
      }
      if rows[i].state != Active {
        return Error("JOB_NOT_ACTIVE");
      }
      Update(id, c);
      r := Done;
    }

    method CancelRow(id: nat) returns (r: Reply)
      modifies this`rows
      ensures Model() == TableCancel(old(Model()), id).0
      ensures r == TableCancel(old(Model()), id).1
    {
      var i := IndexOf(rows, id);
      if i == |rows| {
        return Error("JOB_NOT_FOUND");
      }
      if rows[i].state != Queued {
        return Flag(false);
      }
      Update(id, ToCancelled);
      r := Flag(true);
    }

    method RecoverRows(before: int) returns (r: Reply)
      modifies this`rows
      ensures Model() == TableStep(old(Model()), Recover(before)).0
      ensures r == TableStep(old(Model()), Recover(before)).1
    {
      r := Count(CountExpired(rows, before));
      rows := RecoverAll(rows, before);
    }

    method ListRows(filter: Option<string>) returns (r: Reply)
      ensures r == TableStep(Model(), List(filter)).1
    {
      r := Listing(Sorted(ById, OfQueue(rows, filter)));
    }
  }
}
