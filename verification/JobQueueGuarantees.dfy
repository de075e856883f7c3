/** Invariants, bounded retries and listing order of the table-backed queue over whole runs. */
module JobQueueGuarantees {
  import opened Numerals
  import opened JobQueuePort
  import opened SqliteJobQueue
  import opened JobQueueRefinement

  predicate Terminal(job: Job) {
    job.state == Completed || job.state == Failed || job.state == Cancelled
  }

  // A queued job has an attempt left; an active one has used one and holds a lease; a failed one has none left.
  predicate Lawful(job: Job) {
    && 1 <= job.maxAttempts <= MAX_ATTEMPTS_LIMIT
    && (job.leasedUntil.Some? <==> job.state == Active)
    && match job.state
       case Queued => job.attempts < job.maxAttempts
       case Active => 1 <= job.attempts <= job.maxAttempts
       case Completed => 1 <= job.attempts <= job.maxAttempts
       case Failed => job.attempts == job.maxAttempts
       case Cancelled => job.attempts < job.maxAttempts
  }

  predicate SameKey(a: Job, b: Job) {
    a.queue == b.queue && a.idempotencyKey.Some? && a.idempotencyKey == b.idempotencyKey
  }

  // Per queue and key, all but the latest job are failed or cancelled.
  predicate OnlyLatestLives(rows: seq<Job>) {
    forall i, k :: 0 <= i < k < |rows| && SameKey(rows[i], rows[k]) ==> !Reusable(rows[i])
  }

  ghost predicate Healthy(t: Table) {
    && Distinct(t.rows)
    && Issued(t.rows, t.sequence)
    && (forall i :: 0 <= i < |t.rows| ==> Lawful(t.rows[i]))
    && OnlyLatestLives(t.rows)
  }

  // Rows are only appended; identities never change and a terminal row is never touched again.
  predicate Extends(rows: seq<Job>, rows': seq<Job>) {
    && |rows| <= |rows'|
    && forall i :: 0 <= i < |rows| ==>
         SameIdentity(rows[i], rows'[i]) && rows[i].attempts <= rows'[i].attempts
         && (Terminal(rows[i]) ==> rows'[i] == rows[i])
  }

  lemma HealthyAfterUpdate(t: Table, rows': seq<Job>)
    requires Healthy(t)
    requires |rows'| == |t.rows|
    requires Extends(t.rows, rows')
    requires forall i :: 0 <= i < |rows'| ==> Lawful(rows'[i])
    ensures Healthy(t.(rows := rows'))
  {
    forall i, k | 0 <= i < k < |rows'| && SameKey(rows'[i], rows'[k]) ensures !Reusable(rows'[i]) {
      assert SameKey(t.rows[i], t.rows[k]);
    }
  }

  lemma HealthyAfterInsert(t: Table, job: Job)
    requires Healthy(t) && Lawful(job) && job.id == t.sequence + 1
    requires forall i :: 0 <= i < |t.rows| && SameKey(t.rows[i], job) ==> !Reusable(t.rows[i])
    ensures Healthy(Table(t.rows + [job], t.sequence + 1))
  {
  }

  // The latest row of a key is not live, so no row of that key is.
  lemma NoneLives(rows: seq<Job>, queue: string, key: string, job: Job)
    requires OnlyLatestLives(rows)
    requires job.queue == queue && job.idempotencyKey == Some(key)
    requires var i := Latest(rows, queue, key); i >= 0 ==> !Reusable(rows[i])
    ensures forall i :: 0 <= i < |rows| && SameKey(rows[i], job) ==> !Reusable(rows[i])
  {
    var latest := Latest(rows, queue, key);
    forall i | 0 <= i < |rows| && SameKey(rows[i], job) ensures !Reusable(rows[i]) {
      assert Keyed(rows[i], queue, key);
      if i < latest {
        assert SameKey(rows[i], rows[latest]);
      }
    }
  }

  lemma TableCreates(t: Table, queue: string, payload: string, key: Option<string>, maxAttempts: Option<int>, now: int)
    requires Issued(t.rows, t.sequence)
    requires queue != "" && 1 <= GetOr(maxAttempts, DEFAULT_MAX_ATTEMPTS) <= MAX_ATTEMPTS_LIMIT
    requires key.Some? ==> var i := Latest(t.rows, queue, key.value); i >= 0 ==> !Reusable(t.rows[i])
    ensures
      var job := NewJob(t.sequence + 1, queue, payload, key, GetOr(maxAttempts, DEFAULT_MAX_ATTEMPTS), now);
      TableEnqueue(t, queue, payload, key, maxAttempts, now) == (Table(t.rows + [job], t.sequence + 1), Record(job))
  {
    hide Latest, Reusable;
    assert IndexOf(t.rows, t.sequence + 1) == |t.rows|;
  }

  lemma EnqueueHealthy(t: Table, queue: string, payload: string, key: Option<string>, maxAttempts: Option<int>,
                       now: int)
    requires Healthy(t)
    ensures
      var t' := TableEnqueue(t, queue, payload, key, maxAttempts, now).0;
      Healthy(t') && Extends(t.rows, t'.rows)
  {
    var most := GetOr(maxAttempts, DEFAULT_MAX_ATTEMPTS);
    var i := if key.Some? then Latest(t.rows, queue, key.value) else -1;
    if queue != "" && 1 <= most <= MAX_ATTEMPTS_LIMIT && !(i >= 0 && Reusable(t.rows[i])) {
      var job := NewJob(t.sequence + 1, queue, payload, key, most, now);
      TableCreates(t, queue, payload, key, maxAttempts, now);
      CreatedIsHealthy(t, job);
      hide *;
    } else {
      hide Healthy, Latest, Reusable;
    }
  }

  lemma CreatedIsHealthy(t: Table, job: Job)
    requires Healthy(t) && Lawful(job) && job.id == t.sequence + 1
    requires job.idempotencyKey.Some? ==>
               var i := Latest(t.rows, job.queue, job.idempotencyKey.value); i >= 0 ==> !Reusable(t.rows[i])
    ensures Healthy(Table(t.rows + [job], t.sequence + 1)) && Extends(t.rows, t.rows + [job])
  {
    if job.idempotencyKey.Some? {
      NoneLives(t.rows, job.queue, job.idempotencyKey.value, job);
    }
    HealthyAfterInsert(t, job);
    hide Healthy, Latest, SameKey, Reusable;
  }

  lemma ChangeHealthy(t: Table, i: nat, c: Change)
    requires Healthy(t) && i < |t.rows|
    requires if c.ToClaimed? || c.ToCancelled? then t.rows[i].state == Queued else t.rows[i].state == Active
    ensures
      var rows' := UpdateWhereId(t.rows, t.rows[i].id, c);
      rows' == t.rows[i := Apply(c, t.rows[i])] && Healthy(t.(rows := rows')) && Extends(t.rows, rows')
  {
    var rows' := UpdateWhereId(t.rows, t.rows[i].id, c);
    HealthyAfterUpdate(t, rows');
  }

  lemma ClaimHealthy(t: Table, queue: string, leaseMs: int, at: Option<int>, now: int)
    requires Healthy(t)
    ensures
      var t' := TableClaim(t, queue, leaseMs, at, now).0;
      Healthy(t') && Extends(t.rows, t'.rows)
  {
    var i := FirstQueued(t.rows, queue);
    if leaseMs > 0 && i < |t.rows| {
      ChangeHealthy(t, i, ToClaimed(GetOr(at, now) + leaseMs));
    }
  }

  lemma CancelHealthy(t: Table, id: nat)
    requires Healthy(t)
    ensures Healthy(TableCancel(t, id).0) && Extends(t.rows, TableCancel(t, id).0.rows)
  {
    var i := IndexOf(t.rows, id);
    if i < |t.rows| && t.rows[i].state == Queued {
      ChangeHealthy(t, i, ToCancelled);
    }
  }

  // Every call keeps the invariant, whatever its arguments and its outcome.
  lemma StepHealthy(t: Table, op: Op)
    requires Healthy(t)
    ensures Healthy(TableStep(t, op).0) && Extends(t.rows, TableStep(t, op).0.rows)
  {
    match op
    case Enqueue(queue, payload, key, maxAttempts, now) =>
      EnqueueHealthy(t, queue, payload, key, maxAttempts, now);
    case Claim(queue, leaseMs, at, now) =>
      ClaimHealthy(t, queue, leaseMs, at, now);
    case Complete(id) =>
      SettleHealthy(t, id, Completed, ToCompleted);
    case Fail(id, error) =>
      SettleHealthy(t, id, Failed, ToFailed(error));
    case Cancel(id) =>
      CancelHealthy(t, id);
    case Recover(before) =>
      HealthyAfterUpdate(t, RecoverAll(t.rows, before));
    case List(_) =>
  }

  lemma SettleHealthy(t: Table, id: nat, already: JobState, c: Change)
    requires Healthy(t) && (c.ToCompleted? || c.ToFailed?)
    ensures
      var t' := TableSettle(t, id, already, c).0;
      Healthy(t') && Extends(t.rows, t'.rows)
  {
    var i := IndexOf(t.rows, id);
    if i < |t.rows| && t.rows[i].state == Active {
      ChangeHealthy(t, i, c);
    }
  }

  // Every reachable table is healthy, and over any run terminal jobs stay exactly as they were.
  lemma {:induction false} RunHealthy(t: Table, ops: seq<Op>)
    requires Healthy(t)
    ensures Healthy(TableAfter(t, ops)) && Extends(t.rows, TableAfter(t, ops).rows)
    decreases |ops|
  {
    if ops != [] {
      StepHealthy(t, ops[0]);
      RunHealthy(TableStep(t, ops[0]).0, ops[1..]);
    }
  }

  // --- Bounded retries -------------------------------------------------------------------------

  function AttemptsLeft(job: Job): nat {
    if Terminal(job) || job.attempts >= job.maxAttempts then 0 else job.maxAttempts - job.attempts
  }

  function Potential(rows: seq<Job>): nat {
    if rows == [] then 0 else Potential(rows[..|rows| - 1]) + AttemptsLeft(rows[|rows| - 1])
  }

  predicate Claims(t: Table, op: Op) {
    op.Claim? && TableStep(t, op).1.Record?
  }

  function ClaimCount(t: Table, ops: seq<Op>): nat
    decreases |ops|
  {
    if ops == [] then 0
    else (if Claims(t, ops[0]) then 1 else 0) + ClaimCount(TableStep(t, ops[0]).0, ops[1..])
  }

  lemma {:induction false} PotentialDrops(rows: seq<Job>, rows': seq<Job>, drop: int)
    requires |rows| == |rows'|
    requires forall i :: 0 <= i < |rows| ==> AttemptsLeft(rows'[i]) <= AttemptsLeft(rows[i])
    requires drop == 0 || (drop == 1 && exists i :: 0 <= i < |rows| && AttemptsLeft(rows'[i]) < AttemptsLeft(rows[i]))
    ensures Potential(rows') + drop <= Potential(rows)
  {
    if rows != [] {
      var n := |rows| - 1;
      if drop == 1 && AttemptsLeft(rows'[n]) == AttemptsLeft(rows[n]) {
        var i :| 0 <= i < |rows| && AttemptsLeft(rows'[i]) < AttemptsLeft(rows[i]);
        assert rows[..n][i] == rows[i] && rows'[..n][i] == rows'[i];
        PotentialDrops(rows[..n], rows'[..n], 1);
      } else {
        PotentialDrops(rows[..n], rows'[..n], 0);
      }
    }
  }

  lemma ClaimSpends(t: Table, op: Op)
    requires Healthy(t) && !op.Enqueue?
    ensures Potential(TableStep(t, op).0.rows) + (if Claims(t, op) then 1 else 0) <= Potential(t.rows)
  {
    hide Potential, Distinct, Issued, OnlyLatestLives;
    var rows' := TableStep(t, op).0.rows;
    StepHealthy(t, op);
    if Claims(t, op) {
      var i := FirstQueued(t.rows, op.queue);
      ChangeHealthy(t, i, ToClaimed(GetOr(op.at, op.now) + op.leaseMs));
      assert AttemptsLeft(rows'[i]) < AttemptsLeft(t.rows[i]);
      PotentialDrops(t.rows, rows', 1);
    } else {
      PotentialDrops(t.rows, rows', 0);
    }
  }

  // Without further enqueues, the successful claims of any run spend the attempts that are left.
  lemma {:induction false} RetriesBounded(t: Table, ops: seq<Op>)
    requires Healthy(t)
    requires forall op :: op in ops ==> !op.Enqueue?
    ensures ClaimCount(t, ops) + Potential(TableAfter(t, ops).rows) <= Potential(t.rows)
    decreases |ops|
  {
    if ops != [] {
      assert ops[0] in ops;
      StepHealthy(t, ops[0]);
      ClaimSpends(t, ops[0]);
      RetriesBounded(TableStep(t, ops[0]).0, ops[1..]);
    }
  }

  // --- Numbering, listing order and reopening ---------------------------------------------------

  predicate Numbered(t: Table) {
    |t.rows| == t.sequence && forall i :: 0 <= i < |t.rows| ==> t.rows[i].id == i + 1
  }

  lemma {:induction false} RunNumbered(t: Table, ops: seq<Op>)
    requires Healthy(t) && Numbered(t)
    ensures Numbered(TableAfter(t, ops))
    decreases |ops|
  {
    if ops != [] {
      var t' := TableStep(t, ops[0]).0;
      StepHealthy(t, ops[0]);
      StepNumbered(t, ops[0]);
      RunNumbered(t', ops[1..]);
    }
  }

  lemma StepNumbered(t: Table, op: Op)
    requires Healthy(t) && Numbered(t)
    ensures Numbered(TableStep(t, op).0)
  {
    StepHealthy(t, op);
  }

  // Until ids outgrow their eight digits, a listing shows a run's jobs in the order they were created.
  lemma ListedInCreationOrder(ops: seq<Op>)
    requires |TableAfter(EMPTY_TABLE, ops).rows| < Pow10(8)
    ensures
      var t := TableAfter(EMPTY_TABLE, ops);
      TableStep(t, List(None)).1 == Listing(t.rows)
  {
    RunNumbered(EMPTY_TABLE, ops);
    NumberedListing(TableAfter(EMPTY_TABLE, ops));
  }

  lemma NumberedListing(t: Table)
    requires Numbered(t) && |t.rows| < Pow10(8)
    ensures TableStep(t, List(None)).1 == Listing(t.rows)
  {
    forall i | 0 < i < |t.rows| ensures InOrder(ById, t.rows[i - 1], t.rows[i]) {
      ConsecutiveIds(i);
    }
    SortedIsIdentity(ById, t.rows);
    UnfilteredKeepsAll(t.rows);
  }

  lemma ConsecutiveIds(i: nat)
    requires i + 1 < Pow10(8)
    ensures !LexLess(JobId(i + 1), JobId(i))
  {
    PaddedOrdered(i, i + 1, 8);
    LexAppend("job-", "job-", PadStart(Decimal(i), 8), PadStart(Decimal(i + 1), 8));
    LexAsymmetric(JobId(i), JobId(i + 1));
  }

  lemma {:induction false} LexAsymmetric(a: string, b: string)
    requires LexLess(a, b)
    ensures !LexLess(b, a)
  {
    if |a| > 0 && a[0] == b[0] {
      LexAsymmetric(a[1..], b[1..]);
    }
  }

  lemma {:induction false} UnfilteredKeepsAll(rows: seq<Job>)
    ensures OfQueue(rows, None) == rows
  {
    if rows != [] {
      UnfilteredKeepsAll(rows[..|rows| - 1]);
    }
  }

  // A process that opens the database of an earlier run counts ids from the start again, so creating
  // a job fails until the counter has passed the stored rows.
  lemma ReopenedDatabaseRejects(ops: seq<Op>, drawn: nat, queue: string, now: int)
    requires queue != ""
    ensures
      var stored := TableAfter(EMPTY_TABLE, ops).rows;
      var (t', reply) := TableStep(Table(stored, drawn), Enqueue(queue, "", None, None, now));
      && (reply == Error("SQLITE_CONSTRAINT_UNIQUE") <==> drawn < |stored|)
      && (drawn < |stored| ==> t' == Table(stored, drawn + 1))
  {
    RunNumbered(EMPTY_TABLE, ops);
    var stored := TableAfter(EMPTY_TABLE, ops).rows;
    if drawn < |stored| {
      assert stored[drawn].id == drawn + 1;
    }
  }

  function Retried(t: Table, queue: string, now: int, n: nat): Table {
    if n == 0 then t else TableStep(Retried(t, queue, now, n - 1), Enqueue(queue, "", None, None, now)).0
  }

  // Exactly the first |rows| attempts fail, and the next one creates a job.
  lemma {:induction false} ReopenedFailures(ops: seq<Op>, queue: string, now: int, n: nat)
    requires queue != "" && n <= |TableAfter(EMPTY_TABLE, ops).rows|
    ensures
      var stored := TableAfter(EMPTY_TABLE, ops).rows;
      var before := Retried(Table(stored, 0), queue, now, n);
      && before == Table(stored, n)
      && (TableStep(before, Enqueue(queue, "", None, None, now)).1 == Error("SQLITE_CONSTRAINT_UNIQUE") <==>
          n < |stored|)
  {
    ReopenedDatabaseRejects(ops, n, queue, now);
    if n > 0 {
      ReopenedFailures(ops, queue, now, n - 1);
      ReopenedDatabaseRejects(ops, n - 1, queue, now);
    }
    hide TableStep, TableAfter;
  }
}
