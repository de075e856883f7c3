/** What each call does to the jobs, record by record, and that both queues do it. */
module QueueCalls {
  import opened Numerals
  import opened JobQueuePort
  import opened SqliteJobQueue
  import opened JobQueueRefinement
  import opened JobQueueGuarantees
  import opened InMemoryGuarantees

  // --- Recovery ------------------------------------------------------------------------------------

  // A lease is over from the moment it ends; its job is failed if it has used its last attempt, else queued again.
  predicate RecoveredAt(before: Job, after: Job, at: int) {
    if before.state == Active && before.leasedUntil.Some? && before.leasedUntil.value <= at then
      after == before.(state := if before.attempts < before.maxAttempts then Queued else Failed,
                       leasedUntil := None, lastError := Some("JOB_LEASE_EXPIRED"))
    else after == before
  }

  function TakenOut(before: seq<Job>, after: seq<Job>): set<int>
    requires |before| == |after|
  {
    set i | 0 <= i < |before| && before[i].state == Active && after[i].state != Active
  }

  lemma TakenOutGrows(before: seq<Job>, after: seq<Job>)
    requires |before| == |after| > 0
    ensures var n := |before| - 1;
            && n !in TakenOut(before[..n], after[..n])
            && TakenOut(before, after)
               == TakenOut(before[..n], after[..n])
                  + (if before[n].state == Active && after[n].state != Active then {n} else {})
  {
  }

  lemma {:induction false} CountIsTakenOut(jobs: seq<Job>, after: seq<Job>, at: int)
    requires |jobs| == |after| && forall i :: 0 <= i < |jobs| ==> RecoveredAt(jobs[i], after[i], at)
    ensures CountExpired(jobs, at) == |TakenOut(jobs, after)|
  {
    if jobs != [] {
      var n := |jobs| - 1;
      CountIsTakenOut(jobs[..n], after[..n], at);
      TakenOutGrows(jobs, after);
      assert RecoveredAt(jobs[n], after[n], at);
      hide TakenOut;
    }
  }

  lemma TableRecovers(t: Table, at: int)
    requires Healthy(t)
    ensures var (t', reply) := TableStep(t, Recover(at));
            && |t'.rows| == |t.rows| && t'.sequence == t.sequence
            && (forall i :: 0 <= i < |t.rows| ==> RecoveredAt(t.rows[i], t'.rows[i], at))
            && reply == Count(|TakenOut(t.rows, t'.rows)|)
  {
    var rows' := TableStep(t, Recover(at)).0.rows;
    forall i | 0 <= i < |t.rows| ensures RecoveredAt(t.rows[i], rows'[i], at) {
      assert Lawful(t.rows[i]);
    }
    CountIsTakenOut(t.rows, rows', at);
  }

  lemma MemoryRecovers(m: Memory, at: int)
    requires MemoryHealthy(m)
    ensures var (m', reply) := MemoryStep(m, Recover(at));
            && |m'.jobs| == |m.jobs| && m' == m.(jobs := m'.jobs)
            && (forall i :: 0 <= i < |m.jobs| ==> RecoveredAt(m.jobs[i], m'.jobs[i], at))
            && reply == Count(|TakenOut(m.jobs, m'.jobs)|)
  {
    TableRecovers(Rows(m), at);
    SweepIsRecovery(m.jobs, at, |m.jobs|);
    assert m.jobs[..|m.jobs|] == m.jobs;
    assert Swept(m.jobs, at, |m.jobs|) == RecoverAll(m.jobs, at);
  }

  // --- Creation -----------------------------------------------------------------------------------

  predicate Live(job: Job) {
    job.state == Queued || job.state == Active || job.state == Completed
  }

  predicate Creatable(queue: string, maxAttempts: Option<int>) {
    queue != "" && 1 <= (if maxAttempts.Some? then maxAttempts.value else 3) <= 20
  }

  function Created(id: nat, op: Op): Job
    requires op.Enqueue?
  {
    Job(id, op.queue, op.payload, Queued, 0, if op.maxAttempts.Some? then op.maxAttempts.value else 3,
        None, None, op.key, op.now)
  }

  function Rejection(op: Op): Reply
    requires op.Enqueue?
  {
    if op.queue == "" then Error("JOB_QUEUE_INVALID") else Error("JOB_ATTEMPTS_INVALID")
  }

  predicate LiveFor(job: Job, queue: string, key: string) {
    job.queue == queue && job.idempotencyKey == Some(key) && Live(job)
  }

  predicate LiveUnder(job: Job, joined: string) {
    HasComposite(job, joined) && Live(job)
  }

  // A job is created unless the call is invalid or a queued, active or completed job of the queue has the key.
  lemma TableCreatesExactly(t: Table, op: Op)
    requires Healthy(t) && op.Enqueue?
    ensures var (t', reply) := TableStep(t, op);
            if !Creatable(op.queue, op.maxAttempts) then t' == t && reply == Rejection(op)
            else if op.key.Some? && exists row :: row in t.rows && LiveFor(row, op.queue, op.key.value) then
              t' == t && reply.Record? && reply.job in t.rows && LiveFor(reply.job, op.queue, op.key.value)
            else t' == Table(t.rows + [Created(t.sequence + 1, op)], t.sequence + 1)
                 && reply == Record(Created(t.sequence + 1, op))
  {
    if Creatable(op.queue, op.maxAttempts) {
      if op.key.Some? {
        LatestLives(t, op);
      }
      hide Healthy, Latest, Reusable, LiveFor, NewJob;
      if op.key.None? || !(exists row :: row in t.rows && LiveFor(row, op.queue, op.key.value)) {
        TableCreates(t, op.queue, op.payload, op.key, op.maxAttempts, op.now);
        NewIsCreated(t.sequence + 1, op);
      }
    }
  }

  lemma NewIsCreated(id: nat, op: Op)
    requires op.Enqueue?
    ensures NewJob(id, op.queue, op.payload, op.key, GetOr(op.maxAttempts, DEFAULT_MAX_ATTEMPTS), op.now)
        == Created(id, op)
  {
  }

  lemma LatestLives(t: Table, op: Op)
    requires Healthy(t) && op.Enqueue? && op.key.Some?
    ensures Issued(t.rows, t.sequence)
    ensures var latest := Latest(t.rows, op.queue, op.key.value);
            if latest >= 0 && Reusable(t.rows[latest]) then LiveFor(t.rows[latest], op.queue, op.key.value)
            else forall row :: row in t.rows ==> !LiveFor(row, op.queue, op.key.value)
  {
    var latest := Latest(t.rows, op.queue, op.key.value);
    if latest < 0 || !Reusable(t.rows[latest]) {
      NoneLives(t.rows, op.queue, op.key.value, Created(t.sequence + 1, op));
      forall row | row in t.rows ensures !LiveFor(row, op.queue, op.key.value) {
        var i :| 0 <= i < |t.rows| && t.rows[i] == row;
        assert LiveFor(row, op.queue, op.key.value) ==> SameKey(t.rows[i], Created(t.sequence + 1, op));
      }
    }
  }

  // The same in memory, where queue and key are joined.
  lemma MemoryCreatesExactly(m: Memory, op: Op)
    requires MemoryHealthy(m) && op.Enqueue?
    ensures var (m', reply) := MemoryStep(m, op);
            if !Creatable(op.queue, op.maxAttempts) then m' == m && reply == Rejection(op)
            else if op.key.Some? && exists job :: job in m.jobs && LiveUnder(job, op.queue + "::" + op.key.value) then
              && m' == m && reply.Record? && reply.job in m.jobs
              && LiveUnder(reply.job, op.queue + "::" + op.key.value)
            else m'.jobs == m.jobs + [Created(m.sequence + 1, op)] && m'.sequence == m.sequence + 1
                 && reply == Record(Created(m.sequence + 1, op))
  {
    if Creatable(op.queue, op.maxAttempts) {
      NewJobAppended(m, Created(m.sequence + 1, op));
      if op.key.Some? {
        JoinedDuplicate(m, op.queue, op.key.value);
      }
      hide MemoryHealthy, MapSet, HasComposite, MemoryDuplicate, LiveUnder, CompositeKey;
      assert MemoryDuplicate(m, op.queue, None).None? by {
        NoKeyNoDuplicate(m, op.queue);
      }
    }
  }

  lemma NoKeyNoDuplicate(m: Memory, queue: string)
    ensures MemoryDuplicate(m, queue, None).None?
  {
  }

  lemma JoinedDuplicate(m: Memory, queue: string, key: string)
    requires MemoryHealthy(m)
    ensures var duplicate := MemoryDuplicate(m, queue, Some(key));
            && (duplicate.Some? <==> exists job :: job in m.jobs && LiveUnder(job, queue + "::" + key))
            && (duplicate.Some? ==> duplicate.value in m.jobs && LiveUnder(duplicate.value, queue + "::" + key))
  {
    DuplicateExactly(m, queue, key);
    hide MemoryDuplicate, HasComposite, MemoryHealthy;
    forall job | job in m.jobs && LiveUnder(job, queue + "::" + key)
      ensures MemoryDuplicate(m, queue, Some(key)).Some?
    {
      var i :| 0 <= i < |m.jobs| && m.jobs[i] == job;
      assert HasComposite(m.jobs[i], CompositeKey(queue, key));
    }
  }

  // --- Settling and cancelling ---------------------------------------------------------------------

  // What a call on one job does to it and answers.
  function Settled(job: Job, op: Op): (Job, Reply)
    requires op.Complete? || op.Fail? || op.Cancel?
  {
    match op
    case Complete(_) =>
      if job.state == Active then (job.(state := Completed, leasedUntil := None, lastError := None), Done)
      else (job, if job.state == Completed then Done else Error("JOB_NOT_ACTIVE"))
    case Fail(_, error) =>
      if job.state == Active then
        (job.(state := if job.attempts < job.maxAttempts then Queued else Failed, leasedUntil := None,
              lastError := Some(error)), Done)
      else (job, if job.state == Failed then Done else Error("JOB_NOT_ACTIVE"))
    case Cancel(_) =>
      if job.state == Queued then (job.(state := Cancelled), Flag(true)) else (job, Flag(false))
  }

  // The job of that id, and only that one, is settled.
  predicate SettlesOne(rows: seq<Job>, rows': seq<Job>, reply: Reply, op: Op)
    requires op.Complete? || op.Fail? || op.Cancel?
  {
    && ((forall i :: 0 <= i < |rows| ==> rows[i].id != op.id) ==> rows' == rows && reply == Error("JOB_NOT_FOUND"))
    && forall i :: 0 <= i < |rows| && rows[i].id == op.id ==>
         rows' == rows[i := Settled(rows[i], op).0] && reply == Settled(rows[i], op).1
  }

  lemma TableSettles(t: Table, op: Op)
    requires Healthy(t) && (op.Complete? || op.Fail? || op.Cancel?)
    ensures var (t', reply) := TableStep(t, op);
            t' == t.(rows := t'.rows) && SettlesOne(t.rows, t'.rows, reply, op)
  {
    var i := IndexOf(t.rows, op.id);
    forall k | 0 <= k < |t.rows| && t.rows[k].id == op.id ensures k == i {
    }
    if i < |t.rows| {
      assert Lawful(t.rows[i]);
      var rows' := TableStep(t, op).0.rows;
      assert rows' == t.rows[i := Settled(t.rows[i], op).0];
    }
  }

  lemma MemorySettles(m: Memory, op: Op)
    requires MemoryHealthy(m) && (op.Complete? || op.Fail? || op.Cancel?)
    ensures var (m', reply) := MemoryStep(m, op);
            m' == m.(jobs := m'.jobs) && SettlesOne(m.jobs, m'.jobs, reply, op)
  {
    var i := IndexOf(m.jobs, op.id);
    forall k | 0 <= k < |m.jobs| && m.jobs[k].id == op.id ensures k == i {
    }
    if i < |m.jobs| {
      assert Lawful(m.jobs[i]);
      assert MemoryStep(m, op).0.jobs == m.jobs[i := Settled(m.jobs[i], op).0];
    }
  }

  // --- Claims ---------------------------------------------------------------------------------------

  predicate Waiting(job: Job, queue: string) {
    job.queue == queue && job.state == Queued
  }

  // The i-th job is claimed until that time, and no other changes.
  predicate ClaimsOne(rows: seq<Job>, rows': seq<Job>, reply: Reply, i: nat, queue: string, until: int) {
    && i < |rows| && Waiting(rows[i], queue)
    && var claimed := rows[i].(state := Active, attempts := rows[i].attempts + 1, leasedUntil := Some(until));
       rows' == rows[i := claimed] && reply == Record(claimed)
  }

  function Until(op: Op): int
    requires op.Claim?
  {
    (if op.at.Some? then op.at.value else op.now) + op.leaseMs
  }

  // The first waiting row is claimed.
  lemma TableClaims(t: Table, op: Op) returns (i: nat)
    requires Healthy(t) && op.Claim?
    ensures var (t', reply) := TableStep(t, op);
            if op.leaseMs <= 0 then t' == t && reply == Error("JOB_LEASE_INVALID")
            else if reply.Record? then
              && t' == t.(rows := t'.rows) && ClaimsOne(t.rows, t'.rows, reply, i, op.queue, Until(op))
              && forall k :: 0 <= k < i ==> !Waiting(t.rows[k], op.queue)
            else t' == t && reply == NoJob && forall k :: 0 <= k < |t.rows| ==> !Waiting(t.rows[k], op.queue)
  {
    i := FirstQueued(t.rows, op.queue);
    if op.leaseMs > 0 && i < |t.rows| {
      ChangeHealthy(t, i, ToClaimed(Until(op)));
    }
  }

  // A job goes before those created later, and before those added later at the same time.
  predicate Before(a: Job, b: Job, rank: nat -> int) {
    a.createdAt < b.createdAt || (a.createdAt == b.createdAt && rank(a.id) < rank(b.id))
  }

  predicate InAgeOrder(s: seq<Job>, rank: nat -> int) {
    forall i, k :: 0 <= i < k < |s| ==> Before(s[i], s[k], rank)
  }

  lemma {:induction false} InsertStable(s: seq<Job>, x: Job, rank: nat -> int)
    requires InAgeOrder(s, rank) && forall y :: y in s ==> rank(y.id) < rank(x.id)
    ensures var s' := InsertSorted(ByCreation, s, x);
            InAgeOrder(s', rank) && |s'| == |s| + 1 && forall y :: y in s' ==> y in s || y == x
  {
    if s != [] {
      var front, last := s[..|s| - 1], s[|s| - 1];
      assert s == front + [last] && last in s;
      if InOrder(ByCreation, last, x) {
        forall i | 0 <= i < |s| ensures Before(s[i], x, rank) {
          assert s[i] in s;
        }
      } else {
        InsertStable(front, x, rank);
        var placed := InsertSorted(ByCreation, front, x);
        forall i | 0 <= i < |placed| ensures Before(placed[i], last, rank) {
          assert placed[i] in placed;
        }
      }
    }
  }

  lemma {:induction false} SortedStable(jobs: seq<Job>, rank: nat -> int)
    requires forall i, k :: 0 <= i < k < |jobs| ==> rank(jobs[i].id) < rank(jobs[k].id)
    ensures InAgeOrder(Sorted(ByCreation, jobs), rank)
    ensures forall y :: y in Sorted(ByCreation, jobs) ==> y in jobs
  {
    if jobs != [] {
      var front, last := jobs[..|jobs| - 1], jobs[|jobs| - 1];
      assert jobs == front + [last];
      SortedStable(front, rank);
      forall y | y in Sorted(ByCreation, front) ensures rank(y.id) < rank(last.id) {
        var i :| 0 <= i < |front| && front[i] == y;
      }
      InsertStable(Sorted(ByCreation, front), last, rank);
    }
  }

  // No waiting job was created earlier, and none of the same time was added earlier.
  predicate Oldest(jobs: seq<Job>, i: nat, queue: string)
    requires i < |jobs|
  {
    forall k :: 0 <= k < |jobs| && Waiting(jobs[k], queue) ==>
      jobs[i].createdAt < jobs[k].createdAt || (jobs[i].createdAt == jobs[k].createdAt && i <= k)
  }

  // The oldest waiting job is claimed, whatever the clock did between the creations.
  lemma MemoryClaims(m: Memory, op: Op) returns (i: nat)
    requires MemoryHealthy(m) && op.Claim?
    ensures var (m', reply) := MemoryStep(m, op);
            if op.leaseMs <= 0 then m' == m && reply == Error("JOB_LEASE_INVALID")
            else if reply.Record? then
              && m' == m.(jobs := m'.jobs) && ClaimsOne(m.jobs, m'.jobs, reply, i, op.queue, Until(op))
              && Oldest(m.jobs, i, op.queue)
            else m' == m && reply == NoJob && forall k :: 0 <= k < |m.jobs| ==> !Waiting(m.jobs[k], op.queue)
  {
    i := 0;
    if op.leaseMs > 0 {
      if MemoryStep(m, op).1.Record? {
        i := OldestIsClaimed(m, op.queue, Until(op));
      } else {
        NoneWaits(m.jobs, op.queue);
      }
      hide MemoryHealthy, Sorted, StampJobs, Waiting, ClaimsOne, Oldest, FirstQueued;
    }
  }

  lemma OldestIsClaimed(m: Memory, queue: string, until: int) returns (i: nat)
    requires MemoryHealthy(m)
    requires FirstQueued(Sorted(ByCreation, m.jobs), queue) < |Sorted(ByCreation, m.jobs)|
    ensures var job := Sorted(ByCreation, m.jobs)[FirstQueued(Sorted(ByCreation, m.jobs), queue)];
            var claimed := Apply(ToClaimed(until), job);
            ClaimsOne(m.jobs, StampJobs(m.jobs, job.id, ToClaimed(until)), Record(claimed), i, queue, until)
    ensures Oldest(m.jobs, i, queue)
  {
    i := FirstByAge(m.jobs, queue);
    StampHealthy(m, i, ToClaimed(until));
    hide MemoryHealthy, Sorted, StampJobs;
  }

  lemma NoneWaits(jobs: seq<Job>, queue: string)
    requires FirstQueued(Sorted(ByCreation, jobs), queue) == |Sorted(ByCreation, jobs)|
    ensures forall k :: 0 <= k < |jobs| ==> !Waiting(jobs[k], queue)
  {
    hide Sorted;
    forall k | 0 <= k < |jobs| ensures !Waiting(jobs[k], queue) {
      var at := SortedTo(ByCreation, jobs, k);
    }
  }

  lemma FirstByAge(jobs: seq<Job>, queue: string) returns (i: nat)
    requires Distinct(jobs)
    requires FirstQueued(Sorted(ByCreation, jobs), queue) < |Sorted(ByCreation, jobs)|
    ensures i < |jobs| && jobs[i] == Sorted(ByCreation, jobs)[FirstQueued(Sorted(ByCreation, jobs), queue)]
    ensures Oldest(jobs, i, queue)
  {
    var byAge, rank := Sorted(ByCreation, jobs), (id: nat) => IndexOf(jobs, id);
    var first := FirstQueued(byAge, queue);
    i := SortedFrom(ByCreation, jobs, byAge[first]);
    assert forall k :: 0 <= k < |jobs| ==> IndexOf(jobs, jobs[k].id) == k;
    SortedStable(jobs, rank);
    hide Sorted, FirstQueued, IndexOf, Distinct;
    forall k | 0 <= k < |jobs| && Waiting(jobs[k], queue)
      ensures jobs[i].createdAt < jobs[k].createdAt || (jobs[i].createdAt == jobs[k].createdAt && i <= k)
    {
      var at := SortedTo(ByCreation, jobs, k);
      if first < at {
        assert Before(byAge[first], byAge[at], rank);
      } else {
        assert first == at;
        assert rank(jobs[i].id) == i && rank(jobs[k].id) == k;
      }
    }
  }

  lemma SortedTo(key: SortKey, jobs: seq<Job>, k: nat) returns (at: nat)
    requires k < |jobs|
    ensures at < |Sorted(key, jobs)| && Sorted(key, jobs)[at] == jobs[k]
  {
    SortedKeeps(key, jobs);
    assert jobs[k] in multiset(Sorted(key, jobs));
    at :| 0 <= at < |Sorted(key, jobs)| && Sorted(key, jobs)[at] == jobs[k];
  }

  // --- Leases ---------------------------------------------------------------------------------------

  // A claimed job is taken back by a recovery exactly from the end of its lease on.
  lemma TableLeaseRuns(t: Table, op: Op, at: int)
    requires Healthy(t) && op.Claim? && TableStep(t, op).1.Record?
    ensures var (claimed, reply) := TableStep(t, op);
            var recovered := TableStep(claimed, Recover(at)).0;
            exists i :: 0 <= i < |t.rows| == |recovered.rows| && claimed.rows[i] == reply.job
                        && (recovered.rows[i].state != Active <==> Until(op) <= at)
  {
    var i := TableClaims(t, op);
    var claimed := TableStep(t, op).0;
    StepHealthy(t, op);
    TableRecovers(claimed, at);
    hide TableStep, Healthy;
    assert RecoveredAt(claimed.rows[i], TableStep(claimed, Recover(at)).0.rows[i], at);
  }

  lemma MemoryLeaseRuns(m: Memory, op: Op, at: int)
    requires MemoryHealthy(m) && op.Claim? && MemoryStep(m, op).1.Record?
    ensures var (claimed, reply) := MemoryStep(m, op);
            var recovered := MemoryStep(claimed, Recover(at)).0;
            exists i :: 0 <= i < |m.jobs| == |recovered.jobs| && claimed.jobs[i] == reply.job
                        && (recovered.jobs[i].state != Active <==> Until(op) <= at)
  {
    var i := MemoryClaims(m, op);
    var claimed := MemoryStep(m, op).0;
    MemoryStepHealthy(m, op);
    MemoryRecovers(claimed, at);
    hide MemoryStep, MemoryHealthy;
    assert RecoveredAt(claimed.jobs[i], MemoryStep(claimed, Recover(at)).0.jobs[i], at);
  }

  // --- Listings --------------------------------------------------------------------------------------

  predicate Listed(job: Job, filter: Option<string>) {
    filter.None? || job.queue == filter.value
  }

  lemma {:induction false} OfQueueCounts(jobs: seq<Job>, filter: Option<string>, job: Job)
    ensures multiset(OfQueue(jobs, filter))[job] == if Listed(job, filter) then multiset(jobs)[job] else 0
  {
    if jobs != [] {
      OfQueueCounts(jobs[..|jobs| - 1], filter, job);
      assert jobs == jobs[..|jobs| - 1] + [jobs[|jobs| - 1]];
    }
  }

  // A listing holds every job of the queue, each as often as it is stored, and no other.
  lemma TableLists(t: Table, filter: Option<string>, job: Job)
    ensures var (t', reply) := TableStep(t, List(filter));
            t' == t && reply.Listing?
            && multiset(reply.jobs)[job] == if Listed(job, filter) then multiset(t.rows)[job] else 0
  {
    SortedKeeps(ById, OfQueue(t.rows, filter));
    hide Sorted, OfQueue;
    OfQueueCounts(t.rows, filter, job);
  }

  lemma MemoryLists(m: Memory, filter: Option<string>, job: Job)
    ensures var (m', reply) := MemoryStep(m, List(filter));
            m' == m && reply.Listing?
            && multiset(reply.jobs)[job] == if Listed(job, filter) then multiset(m.jobs)[job] else 0
  {
    SortedKeeps(ById, OfQueue(m.jobs, filter));
    hide Sorted, OfQueue;
    OfQueueCounts(m.jobs, filter, job);
  }
}
