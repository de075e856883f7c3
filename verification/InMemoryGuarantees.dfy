/** What the in-process queue guarantees by itself, for every queue name and whatever its clock does. */
module InMemoryGuarantees {
  import opened Numerals
  import opened JobQueuePort
  import opened SqliteJobQueue
  import opened JobQueueRefinement
  import opened JobQueueGuarantees

  // --- The invariant -----------------------------------------------------------------------------

  predicate SameJoinedKey(a: Job, b: Job) {
    a.idempotencyKey.Some? && HasComposite(b, CompositeKey(a.queue, a.idempotencyKey.value))
  }

  // Per joined key, all but the latest job are failed or cancelled.
  predicate OnlyLatestOfKey(jobs: seq<Job>) {
    forall i, k :: 0 <= i < k < |jobs| && SameJoinedKey(jobs[i], jobs[k]) ==> !Reusable(jobs[i])
  }

  // The records as the rows of a table.
  function Rows(m: Memory): Table {
    Table(m.jobs, m.sequence)
  }

  ghost predicate MemoryHealthy(m: Memory) {
    Healthy(Rows(m)) && KeysTracked(m.jobs, m.byKey) && OnlyLatestOfKey(m.jobs)
  }

  lemma EmptyHealthy()
    ensures MemoryHealthy(EMPTY_MEMORY)
  {
  }

  // An update of records in place keeps what is known about keys.
  lemma UpdatedHealthy(m: Memory, jobs': seq<Job>)
    requires MemoryHealthy(m) && |jobs'| == |m.jobs|
    requires Healthy(Table(jobs', m.sequence)) && Extends(m.jobs, jobs')
    ensures MemoryHealthy(m.(jobs := jobs'))
  {
    hide Healthy;
    forall c ensures CompositeLatest(jobs', c) == CompositeLatest(m.jobs, c) {
      CompositeLatestKept(m.jobs, jobs', c);
    }
    forall i, k | 0 <= i < k < |jobs'| && SameJoinedKey(jobs'[i], jobs'[k]) ensures !Reusable(jobs'[i]) {
      assert SameJoinedKey(m.jobs[i], m.jobs[k]);
    }
  }

  // --- Repeated keys ------------------------------------------------------------------------------

  lemma {:induction false} CompositeLatestIs(jobs: seq<Job>, c: string)
    ensures var at := CompositeLatest(jobs, c);
            && (at >= 0 ==> HasComposite(jobs[at], c))
            && forall k :: at < k < |jobs| ==> !HasComposite(jobs[k], c)
  {
    if jobs != [] {
      CompositeLatestIs(jobs[..|jobs| - 1], c);
    }
  }

  // A call with a key creates no job if and only if a live job holds the same joined key; it returns that job.
  lemma DuplicateExactly(m: Memory, queue: string, key: string)
    requires MemoryHealthy(m)
    ensures var c := CompositeKey(queue, key);
            && (MemoryDuplicate(m, queue, Some(key)).None? <==>
                forall i :: 0 <= i < |m.jobs| && HasComposite(m.jobs[i], c) ==> !Reusable(m.jobs[i]))
            && (MemoryDuplicate(m, queue, Some(key)).Some? ==>
                var job := MemoryDuplicate(m, queue, Some(key)).value;
                job in m.jobs && HasComposite(job, c) && Reusable(job))
  {
    var c := CompositeKey(queue, key);
    var at := CompositeLatest(m.jobs, c);
    CompositeLatestIs(m.jobs, c);
    forall i | 0 <= i < at && HasComposite(m.jobs[i], c) ensures !Reusable(m.jobs[i]) {
      assert SameJoinedKey(m.jobs[i], m.jobs[at]);
    }
    if c in m.byKey {
      assert m.byKey[c] == m.jobs[at].id;
      assert IndexOf(m.jobs, m.jobs[at].id) == at;
    }
  }

  lemma CreatedHealthy(m: Memory, job: Job)
    requires MemoryHealthy(m) && Lawful(job) && job.id == m.sequence + 1
    requires job.idempotencyKey.Some? ==> MemoryDuplicate(m, job.queue, job.idempotencyKey).None?
    ensures
      var byKey' := if job.idempotencyKey.Some?
                    then m.byKey[CompositeKey(job.queue, job.idempotencyKey.value) := job.id] else m.byKey;
      MemoryHealthy(Memory(m.jobs + [job], byKey', m.sequence + 1)) && Extends(m.jobs, m.jobs + [job])
  {
    if job.idempotencyKey.Some? {
      DuplicateExactly(m, job.queue, job.idempotencyKey.value);
      hide MemoryDuplicate;
      forall i | 0 <= i < |m.jobs| && SameKey(m.jobs[i], job) ensures !Reusable(m.jobs[i]) {
        assert HasComposite(m.jobs[i], CompositeKey(job.queue, job.idempotencyKey.value));
      }
    }
    HealthyAfterInsert(Rows(m), job);
    KeysAfterInsert(m, job);
    hide Healthy, KeysTracked, CompositeKey;
  }

  lemma KeysAfterInsert(m: Memory, job: Job)
    requires KeysTracked(m.jobs, m.byKey)
    ensures
      var byKey' := if job.idempotencyKey.Some?
                    then m.byKey[CompositeKey(job.queue, job.idempotencyKey.value) := job.id] else m.byKey;
      KeysTracked(m.jobs + [job], byKey')
  {
    assert (m.jobs + [job])[..|m.jobs|] == m.jobs;
    hide CompositeKey;
  }

  // --- Every call ----------------------------------------------------------------------------------

  lemma EnqueueKeeps(m: Memory, op: Op)
    requires MemoryHealthy(m) && op.Enqueue?
    ensures MemoryHealthy(MemoryStep(m, op).0) && Extends(m.jobs, MemoryStep(m, op).0.jobs)
  {
    var most := GetOr(op.maxAttempts, DEFAULT_MAX_ATTEMPTS);
    ExtendsItself(m.jobs);
    if op.queue != "" && 1 <= most <= MAX_ATTEMPTS_LIMIT && MemoryDuplicate(m, op.queue, op.key).None? {
      var job := NewJob(m.sequence + 1, op.queue, op.payload, op.key, most, op.now);
      NewJobAppended(m, job);
      hide MemoryHealthy, MemoryDuplicate, Extends, MapSet;
      CreatedHealthy(m, job);
    } else {
      hide MemoryHealthy, Extends, MapSet;
    }
  }

  lemma ExtendsItself(jobs: seq<Job>)
    ensures Extends(jobs, jobs)
  {
  }

  lemma NewJobAppended(m: Memory, job: Job)
    requires MemoryHealthy(m) && job.id == m.sequence + 1
    ensures MapSet(m.jobs, job) == m.jobs + [job]
  {
    assert Issued(m.jobs, m.sequence);
  }

  lemma StampHealthy(m: Memory, i: nat, c: Change)
    requires MemoryHealthy(m) && i < |m.jobs|
    requires if c.ToClaimed? || c.ToCancelled? then m.jobs[i].state == Queued else m.jobs[i].state == Active
    ensures
      var jobs' := StampJobs(m.jobs, m.jobs[i].id, c);
      jobs' == m.jobs[i := Apply(c, m.jobs[i])] && MemoryHealthy(m.(jobs := jobs')) && Extends(m.jobs, jobs')
  {
    StampIsUpdate(m.jobs, m.jobs[i].id, c);
    ChangeHealthy(Rows(m), i, c);
    UpdatedHealthy(m, StampJobs(m.jobs, m.jobs[i].id, c));
  }

  lemma SortedFrom(key: SortKey, jobs: seq<Job>, job: Job) returns (i: nat)
    requires job in Sorted(key, jobs)
    ensures i < |jobs| && jobs[i] == job
  {
    SortedKeeps(key, jobs);
    assert job in multiset(Sorted(key, jobs));
    i :| 0 <= i < |jobs| && jobs[i] == job;
  }

  // The job a claim takes is one of the queued ones, however the sort has ordered them.
  lemma ClaimedJob(m: Memory, op: Op) returns (i: nat)
    requires op.Claim? && MemoryStep(m, op).1.Record?
    ensures i < |m.jobs| && m.jobs[i].queue == op.queue && m.jobs[i].state == Queued && op.leaseMs > 0
    ensures var c := ToClaimed(GetOr(op.at, op.now) + op.leaseMs);
            MemoryStep(m, op) == (m.(jobs := StampJobs(m.jobs, m.jobs[i].id, c)), Record(Apply(c, m.jobs[i])))
  {
    hide Sorted, StampJobs, Apply;
    var byAge := Sorted(ByCreation, m.jobs);
    i := SortedFrom(ByCreation, m.jobs, byAge[FirstQueued(byAge, op.queue)]);
  }

  lemma ClaimKeeps(m: Memory, op: Op)
    requires MemoryHealthy(m) && op.Claim?
    ensures MemoryHealthy(MemoryStep(m, op).0) && Extends(m.jobs, MemoryStep(m, op).0.jobs)
  {
    if MemoryStep(m, op).1.Record? {
      var i := ClaimedJob(m, op);
      StampHealthy(m, i, ToClaimed(GetOr(op.at, op.now) + op.leaseMs));
    }
  }

  lemma RecoverKeeps(m: Memory, op: Op)
    requires MemoryHealthy(m) && op.Recover?
    ensures MemoryHealthy(MemoryStep(m, op).0) && Extends(m.jobs, MemoryStep(m, op).0.jobs)
  {
    SweepIsRecovery(m.jobs, op.before, |m.jobs|);
    assert m.jobs[..|m.jobs|] == m.jobs;
    assert Swept(m.jobs, op.before, |m.jobs|) == RecoverAll(m.jobs, op.before);
    StepHealthy(Rows(m), op);
    hide Healthy, KeysTracked, OnlyLatestOfKey, Extends;
    UpdatedHealthy(m, RecoverAll(m.jobs, op.before));
  }

  lemma SettleKeeps(m: Memory, id: nat, already: JobState, c: Change)
    requires MemoryHealthy(m) && (c.ToCompleted? || c.ToFailed?)
    ensures MemoryHealthy(MemorySettle(m, id, already, c).0) && Extends(m.jobs, MemorySettle(m, id, already, c).0.jobs)
  {
    var i := IndexOf(m.jobs, id);
    if i < |m.jobs| && m.jobs[i].state == Active {
      StampHealthy(m, i, c);
    }
  }

  lemma CancelKeeps(m: Memory, id: nat)
    requires MemoryHealthy(m)
    ensures MemoryHealthy(MemoryCancel(m, id).0) && Extends(m.jobs, MemoryCancel(m, id).0.jobs)
  {
    var i := IndexOf(m.jobs, id);
    if i < |m.jobs| && m.jobs[i].state == Queued {
      StampHealthy(m, i, ToCancelled);
    }
  }

  lemma MemoryStepHealthy(m: Memory, op: Op)
    requires MemoryHealthy(m)
    ensures MemoryHealthy(MemoryStep(m, op).0) && Extends(m.jobs, MemoryStep(m, op).0.jobs)
  {
    match op
    case Enqueue(_, _, _, _, _) => EnqueueKeeps(m, op);
    case Claim(_, _, _, _) => ClaimKeeps(m, op);
    case Complete(id) => SettleKeeps(m, id, Completed, ToCompleted);
    case Fail(id, error) => SettleKeeps(m, id, Failed, ToFailed(error));
    case Cancel(id) => CancelKeeps(m, id);
    case Recover(_) => RecoverKeeps(m, op);
    case List(_) =>
  }

  // --- Every run ------------------------------------------------------------------------------------

  function MemoryAfter(m: Memory, ops: seq<Op>): Memory
    decreases |ops|
  {
    if ops == [] then m else MemoryAfter(MemoryStep(m, ops[0]).0, ops[1..])
  }

  lemma ExtendsOn(a: seq<Job>, b: seq<Job>, c: seq<Job>)
    requires Extends(a, b) && Extends(b, c)
    ensures Extends(a, c)
  {
  }

  // Every reachable queue is healthy, and over any run jobs that have ended stay exactly as they were.
  lemma {:induction false} MemoryRunHealthy(m: Memory, ops: seq<Op>)
    requires MemoryHealthy(m)
    ensures MemoryHealthy(MemoryAfter(m, ops)) && Extends(m.jobs, MemoryAfter(m, ops).jobs)
    decreases |ops|
  {
    if ops != [] {
      hide MemoryHealthy, MemoryStep, Extends;
      var m' := MemoryStep(m, ops[0]).0;
      MemoryStepHealthy(m, ops[0]);
      MemoryRunHealthy(m', ops[1..]);
      ExtendsOn(m.jobs, m'.jobs, MemoryAfter(m', ops[1..]).jobs);
    } else {
      assert MemoryAfter(m, ops) == m;
    }
  }

  predicate Taken(m: Memory, op: Op) {
    op.Claim? && MemoryStep(m, op).1.Record?
  }

  function TakenCount(m: Memory, ops: seq<Op>): nat
    decreases |ops|
  {
    if ops == [] then 0
    else (if Taken(m, ops[0]) then 1 else 0) + TakenCount(MemoryStep(m, ops[0]).0, ops[1..])
  }

  lemma LeftNeverGrows(jobs: seq<Job>, jobs': seq<Job>)
    requires |jobs| == |jobs'| && Extends(jobs, jobs')
    ensures forall i :: 0 <= i < |jobs| ==> AttemptsLeft(jobs'[i]) <= AttemptsLeft(jobs[i])
  {
  }

  lemma KeepsLength(m: Memory, op: Op)
    requires MemoryHealthy(m) && !op.Enqueue?
    ensures |MemoryStep(m, op).0.jobs| == |m.jobs|
  {
    hide KeysTracked, OnlyLatestOfKey, OnlyLatestLives, Issued, Lawful;
    if op.Recover? {
      SweepIsRecovery(m.jobs, op.before, |m.jobs|);
      assert m.jobs[..|m.jobs|] == m.jobs;
    } else if Taken(m, op) {
      var i := ClaimedJob(m, op);
    }
  }

  lemma TakingSpends(m: Memory, op: Op)
    requires MemoryHealthy(m) && !op.Enqueue?
    ensures Potential(MemoryStep(m, op).0.jobs) + (if Taken(m, op) then 1 else 0) <= Potential(m.jobs)
  {
    hide Potential;
    var jobs' := MemoryStep(m, op).0.jobs;
    MemoryStepHealthy(m, op);
    KeepsLength(m, op);
    LeftNeverGrows(m.jobs, jobs');
    if Taken(m, op) {
      var i := ClaimedJob(m, op);
      StampHealthy(m, i, ToClaimed(GetOr(op.at, op.now) + op.leaseMs));
      assert Lawful(m.jobs[i]);
      assert AttemptsLeft(jobs'[i]) < AttemptsLeft(m.jobs[i]);
      PotentialDrops(m.jobs, jobs', 1);
    } else {
      PotentialDrops(m.jobs, jobs', 0);
    }
  }

  // Without further enqueues, the successful claims of any run spend the attempts that are left.
  lemma {:induction false} MemoryRetriesBounded(m: Memory, ops: seq<Op>)
    requires MemoryHealthy(m)
    requires forall op :: op in ops ==> !op.Enqueue?
    ensures TakenCount(m, ops) + Potential(MemoryAfter(m, ops).jobs) <= Potential(m.jobs)
    decreases |ops|
  {
    if ops != [] {
      assert ops[0] in ops;
      hide MemoryHealthy, MemoryStep, Potential, Taken;
      MemoryStepHealthy(m, ops[0]);
      TakingSpends(m, ops[0]);
      MemoryRetriesBounded(MemoryStep(m, ops[0]).0, ops[1..]);
    }
  }
}
