/** The two queue implementations against each other, and what both guarantee over whole runs. */
module JobQueueRefinement {
  import opened Numerals
  import opened JobQueuePort
  import opened SqliteJobQueue

  // --- Runs ------------------------------------------------------------------------------------

  function MemoryReplies(m: Memory, ops: seq<Op>): (r: seq<Reply>)
    ensures |r| == |ops|
    decreases |ops|
  {
    if ops == [] then [] else [MemoryStep(m, ops[0]).1] + MemoryReplies(MemoryStep(m, ops[0]).0, ops[1..])
  }

  function TableReplies(t: Table, ops: seq<Op>): (r: seq<Reply>)
    ensures |r| == |ops|
    decreases |ops|
  {
    if ops == [] then [] else [TableStep(t, ops[0]).1] + TableReplies(TableStep(t, ops[0]).0, ops[1..])
  }

  // From a fresh start, both implementations give the same reply to every call of the run.
  predicate AnsweredAlike(ops: seq<Op>) {
    MemoryReplies(EMPTY_MEMORY, ops) == TableReplies(EMPTY_TABLE, ops)
  }

  function TableAfter(t: Table, ops: seq<Op>): Table
    decreases |ops|
  {
    if ops == [] then t else TableAfter(TableStep(t, ops[0]).0, ops[1..])
  }

  // The clock readings of the enqueue calls never go backwards.
  predicate ClockMonotone(ops: seq<Op>, clock: int) {
    ops == [] ||
    (if ops[0].Enqueue? then clock <= ops[0].now && ClockMonotone(ops[1..], ops[0].now)
     else ClockMonotone(ops[1..], clock))
  }

  predicate Uses(ops: seq<Op>, names: set<string>) {
    forall op :: op in ops && op.Enqueue? ==> op.queue in names
  }

  datatype Run = Run(ops: seq<Op>, start: int)

  predicate Admissible(run: Run, names: set<string>) {
    Uses(run.ops, names) && ClockMonotone(run.ops, run.start)
  }

  // --- Which queue names can be told apart -------------------------------------------------------

  predicate Collides(p: string, q: string) {
    p != q && p != "" && q != "" && (p + "::" <= q + "::" || q + "::" <= p + "::")
  }

  predicate Separable(names: set<string>) {
    forall p, q :: p in names && q in names ==> !Collides(p, q)
  }

  lemma SplitUnique(p: string, k: string, q: string, l: string)
    requires CompositeKey(p, k) == CompositeKey(q, l)
    requires p != "" && q != "" && !Collides(p, q)
    ensures p == q && k == l
  {
    var c := CompositeKey(p, k);
    assert p + "::" == c[..|p| + 2];
    assert q + "::" == c[..|q| + 2];
    assert p + "::" <= q + "::" || q + "::" <= p + "::";
    assert k == c[|p| + 2..] && l == c[|q| + 2..];
  }

  // Two colliding names have keys whose composite keys coincide.
  lemma CollisionWitness(p: string, q: string) returns (k: string, l: string)
    requires Collides(p, q)
    ensures CompositeKey(p, k) == CompositeKey(q, l)
  {
    if |p| <= |q| {
      k := (q + "::")[|p| + 2..];
      l := "";
      assert q + "::" == p + "::" + k;
    } else {
      k := "";
      l := (p + "::")[|q| + 2..];
      assert p + "::" == q + "::" + l;
    }
  }

  predicate PlainName(q: string) {
    forall i :: 0 <= i < |q| && q[i] == ':' ==> i + 1 < |q| && q[i + 1] != ':'
  }

  // Names without "::" that do not end in ':' can always be told apart.
  lemma PlainNamesSeparable(names: set<string>)
    requires forall q :: q in names ==> PlainName(q)
    ensures Separable(names)
  {
    forall p, q | p in names && q in names && p != q ensures !(p + "::" <= q + "::") {
      PlainNameNotExtended(p, q);
    }
  }

  lemma PlainNameNotExtended(p: string, q: string)
    requires PlainName(q) && p != q
    ensures !(p + "::" <= q + "::")
  {
    var short, long := p + "::", q + "::";
    if |p| == |q| {
      assert short[..|p|] == p && long[..|p|] == q;
    } else if |p| < |q| {
      assert short[|p|] == ':' && short[|p| + 1] == ':';
      assert long[|p|] == q[|p|];
      assert |p| + 1 < |q| ==> long[|p| + 1] == q[|p| + 1];
    }
  }

  // --- The coupling invariant ----------------------------------------------------------------------

  predicate Distinct(rows: seq<Job>) {
    forall i, k :: 0 <= i < k < |rows| ==> rows[i].id != rows[k].id
  }

  // Ids above the counter have not been issued.
  predicate Issued(rows: seq<Job>, sequence: nat) {
    forall i :: 0 <= i < |rows| ==> 1 <= rows[i].id <= sequence
  }

  predicate Aged(rows: seq<Job>, clock: int) {
    && (forall i :: 0 < i < |rows| ==> rows[i - 1].createdAt <= rows[i].createdAt)
    && (rows != [] ==> rows[|rows| - 1].createdAt <= clock)
  }

  predicate Named(rows: seq<Job>, names: set<string>) {
    forall i :: 0 <= i < |rows| ==> rows[i].queue in names && rows[i].queue != ""
  }

  predicate HasComposite(row: Job, c: string) {
    row.idempotencyKey.Some? && CompositeKey(row.queue, row.idempotencyKey.value) == c
  }

  function CompositeLatest(rows: seq<Job>, c: string): (i: int)
    ensures -1 <= i < |rows|
  {
    if rows == [] then -1
    else if HasComposite(rows[|rows| - 1], c) then |rows| - 1
    else CompositeLatest(rows[..|rows| - 1], c)
  }

  ghost predicate KeysTracked(rows: seq<Job>, byKey: map<string, nat>) {
    forall c :: (c in byKey <==> CompositeLatest(rows, c) >= 0)
             && (c in byKey ==> byKey[c] == rows[CompositeLatest(rows, c)].id)
  }

  ghost predicate Coupled(m: Memory, t: Table, names: set<string>, clock: int) {
    && m.jobs == t.rows
    && m.sequence == t.sequence
    && Distinct(t.rows)
    && Issued(t.rows, t.sequence)
    && Aged(t.rows, clock)
    && Named(t.rows, names)
    && KeysTracked(t.rows, m.byKey)
  }

  // Everything but the job's progress.
  predicate SameIdentity(a: Job, b: Job) {
    && a.id == b.id && a.queue == b.queue && a.idempotencyKey == b.idempotencyKey
    && a.createdAt == b.createdAt && a.maxAttempts == b.maxAttempts && a.payload == b.payload
  }

  predicate SameIdentities(rows: seq<Job>, rows': seq<Job>) {
    |rows| == |rows'| && forall i :: 0 <= i < |rows| ==> SameIdentity(rows[i], rows'[i])
  }

  lemma {:induction false} CompositeLatestKept(rows: seq<Job>, rows': seq<Job>, c: string)
    requires SameIdentities(rows, rows')
    ensures CompositeLatest(rows, c) == CompositeLatest(rows', c)
  {
    if rows != [] {
      CompositeLatestKept(rows[..|rows| - 1], rows'[..|rows'| - 1], c);
    }
  }

  lemma {:induction false} LatestIsComposite(rows: seq<Job>, names: set<string>, queue: string, key: string)
    requires Separable(names) && Named(rows, names) && queue in names && queue != ""
    ensures Latest(rows, queue, key) == CompositeLatest(rows, CompositeKey(queue, key))
  {
    if rows != [] {
      var last := rows[|rows| - 1];
      if HasComposite(last, CompositeKey(queue, key)) {
        SplitUnique(last.queue, last.idempotencyKey.value, queue, key);
      }
      LatestIsComposite(rows[..|rows| - 1], names, queue, key);
    }
  }

  lemma DuplicatesAgree(m: Memory, t: Table, names: set<string>, clock: int, queue: string, key: string)
    requires Separable(names) && queue in names && queue != "" && Coupled(m, t, names, clock)
    ensures
      var i := Latest(t.rows, queue, key);
      MemoryDuplicate(m, queue, Some(key)) == if i >= 0 && Reusable(t.rows[i]) then Some(t.rows[i]) else None
  {
    LatestIsComposite(t.rows, names, queue, key);
    var i := Latest(t.rows, queue, key);
    if i >= 0 {
      assert IndexOf(t.rows, t.rows[i].id) == i;
    }
  }

  lemma StampIsUpdate(rows: seq<Job>, id: nat, c: Change)
    requires Distinct(rows)
    ensures StampJobs(rows, id, c) == UpdateWhereId(rows, id, c)
    ensures SameIdentities(rows, UpdateWhereId(rows, id, c))
  {
  }

  // A sweep that has recovered the first n rows.
  function Swept(rows: seq<Job>, at: int, n: nat): (r: seq<Job>)
    requires n <= |rows|
    ensures |r| == |rows|
    ensures forall i :: 0 <= i < |rows| ==> r[i] == if i < n then RecoverJob(rows[i], at) else rows[i]
  {
    RecoverAll(rows[..n], at) + rows[n..]
  }

  lemma SweptNext(rows: seq<Job>, at: int, n: nat)
    requires Distinct(rows) && n < |rows|
    ensures Swept(rows, at, n + 1) == Swept(rows, at, n)[n := RecoverJob(rows[n], at)]
    ensures IndexOf(Swept(rows, at, n), rows[n].id) == n
  {
    assert forall i :: 0 <= i < |rows| ==> Swept(rows, at, n)[i].id == rows[i].id;
  }

  lemma {:induction false} SweepIsRecovery(rows: seq<Job>, at: int, n: nat)
    requires Distinct(rows) && n <= |rows|
    ensures Sweep(rows, rows[..n], at) == Swept(rows, at, n)
  {
    if n > 0 {
      SweepIsRecovery(rows, at, n - 1);
      assert rows[..n][..n - 1] == rows[..n - 1];
      SweptNext(rows, at, n - 1);
    } else {
      assert Swept(rows, at, 0) == rows;
    }
  }

  lemma CoupledAfterUpdate(m: Memory, t: Table, names: set<string>, clock: int, rows': seq<Job>)
    requires Coupled(m, t, names, clock)
    requires SameIdentities(t.rows, rows')
    ensures Coupled(m.(jobs := rows'), t.(rows := rows'), names, clock)
  {
    forall c ensures CompositeLatest(rows', c) == CompositeLatest(t.rows, c) {
      CompositeLatestKept(t.rows, rows', c);
    }
  }

  lemma CoupledAfterInsert(m: Memory, t: Table, names: set<string>, clock: int, job: Job)
    requires Coupled(m, t, names, clock)
    requires job.id == t.sequence + 1 && job.queue in names && job.queue != "" && clock <= job.createdAt
    ensures
      var byKey' := if job.idempotencyKey.Some?
                    then m.byKey[CompositeKey(job.queue, job.idempotencyKey.value) := job.id] else m.byKey;
      Coupled(Memory(t.rows + [job], byKey', m.sequence + 1), Table(t.rows + [job], t.sequence + 1), names,
              job.createdAt)
  {
    var rows' := t.rows + [job];
    assert rows'[..|rows'| - 1] == t.rows;
  }

  lemma ChangeAgrees(m: Memory, t: Table, names: set<string>, clock: int, id: nat, c: Change)
    requires Coupled(m, t, names, clock)
    ensures Coupled(m.(jobs := StampJobs(m.jobs, id, c)), t.(rows := UpdateWhereId(t.rows, id, c)), names, clock)
  {
    StampIsUpdate(t.rows, id, c);
    CoupledAfterUpdate(m, t, names, clock, UpdateWhereId(t.rows, id, c));
  }

  lemma EnqueueAgrees(m: Memory, t: Table, names: set<string>, clock: int, op: Op)
    requires Separable(names) && Coupled(m, t, names, clock)
    requires op.Enqueue? && op.queue in names && clock <= op.now
    ensures MemoryStep(m, op).1 == TableStep(t, op).1
    ensures Coupled(MemoryStep(m, op).0, TableStep(t, op).0, names, op.now)
  {
    var most := GetOr(op.maxAttempts, DEFAULT_MAX_ATTEMPTS);
    if op.queue != "" && 1 <= most <= MAX_ATTEMPTS_LIMIT {
      if op.key.Some? {
        DuplicatesAgree(m, t, names, clock, op.queue, op.key.value);
      }
      var job := NewJob(t.sequence + 1, op.queue, op.payload, op.key, most, op.now);
      CoupledAfterInsert(m, t, names, clock, job);
    }
  }

  // With a clock that never went back, the oldest queued job is the first inserted one.
  lemma OldestIsFirst(m: Memory, clock: int, op: Op)
    requires op.Claim? && Aged(m.jobs, clock)
    ensures
      var i := FirstQueued(m.jobs, op.queue);
      var c := ToClaimed(GetOr(op.at, op.now) + op.leaseMs);
      op.leaseMs > 0 ==>
        MemoryStep(m, op) == if i == |m.jobs| then (m, NoJob)
                             else (m.(jobs := StampJobs(m.jobs, m.jobs[i].id, c)), Record(Apply(c, m.jobs[i])))
  {
    SortedIsIdentity(ByCreation, m.jobs);
  }

  lemma ClaimAgrees(m: Memory, t: Table, names: set<string>, clock: int, op: Op)
    requires op.Claim? && Coupled(m, t, names, clock)
    ensures MemoryStep(m, op).1 == TableStep(t, op).1
    ensures Coupled(MemoryStep(m, op).0, TableStep(t, op).0, names, clock)
  {
    OldestIsFirst(m, clock, op);
    var i := FirstQueued(t.rows, op.queue);
    if op.leaseMs > 0 && i < |t.rows| {
      ChangeAgrees(m, t, names, clock, t.rows[i].id, ToClaimed(GetOr(op.at, op.now) + op.leaseMs));
    }
  }

  lemma RecoverAgrees(m: Memory, t: Table, names: set<string>, clock: int, op: Op)
    requires op.Recover? && Coupled(m, t, names, clock)
    ensures MemoryStep(m, op).1 == TableStep(t, op).1
    ensures Coupled(MemoryStep(m, op).0, TableStep(t, op).0, names, clock)
  {
    SweepIsRecovery(t.rows, op.before, |t.rows|);
    assert t.rows[..|t.rows|] == t.rows;
    assert Swept(t.rows, op.before, |t.rows|) == RecoverAll(t.rows, op.before);
    CoupledAfterUpdate(m, t, names, clock, RecoverAll(t.rows, op.before));
  }

  lemma SettleAgrees(m: Memory, t: Table, names: set<string>, clock: int, id: nat, already: JobState, c: Change)
    requires Coupled(m, t, names, clock)
    ensures MemorySettle(m, id, already, c).1 == TableSettle(t, id, already, c).1
    ensures Coupled(MemorySettle(m, id, already, c).0, TableSettle(t, id, already, c).0, names, clock)
  {
    ChangeAgrees(m, t, names, clock, id, c);
  }

  lemma CancelAgrees(m: Memory, t: Table, names: set<string>, clock: int, id: nat)
    requires Coupled(m, t, names, clock)
    ensures MemoryCancel(m, id).1 == TableCancel(t, id).1
    ensures Coupled(MemoryCancel(m, id).0, TableCancel(t, id).0, names, clock)
  {
    ChangeAgrees(m, t, names, clock, id, ToCancelled);
  }

  // One call: the same reply, and the implementations stay coupled.
  lemma StepAgrees(m: Memory, t: Table, names: set<string>, clock: int, op: Op)
    requires Separable(names) && Coupled(m, t, names, clock)
    requires op.Enqueue? ==> op.queue in names && clock <= op.now
    ensures MemoryStep(m, op).1 == TableStep(t, op).1
    ensures Coupled(MemoryStep(m, op).0, TableStep(t, op).0, names, if op.Enqueue? then op.now else clock)
  {
    match op
    case Enqueue(_, _, _, _, _) => EnqueueAgrees(m, t, names, clock, op);
    case Claim(_, _, _, _) => ClaimAgrees(m, t, names, clock, op);
    case Complete(id) => SettleAgrees(m, t, names, clock, id, Completed, ToCompleted);
    case Fail(id, error) => SettleAgrees(m, t, names, clock, id, Failed, ToFailed(error));
    case Cancel(id) => CancelAgrees(m, t, names, clock, id);
    case Recover(_) => RecoverAgrees(m, t, names, clock, op);
    case List(_) =>
  }

  lemma {:induction false} RunAgrees(m: Memory, t: Table, names: set<string>, clock: int, ops: seq<Op>)
    requires Separable(names) && Coupled(m, t, names, clock)
    requires Uses(ops, names) && ClockMonotone(ops, clock)
    ensures MemoryReplies(m, ops) == TableReplies(t, ops)
    decreases |ops|
  {
    if ops != [] {
      assert ops[0] in ops;
      StepAgrees(m, t, names, clock, ops[0]);
      RunAgrees(MemoryStep(m, ops[0]).0, TableStep(t, ops[0]).0, names,
                if ops[0].Enqueue? then ops[0].now else clock, ops[1..]);
    }
  }

  lemma InitiallyCoupled(names: set<string>, clock: int)
    ensures Coupled(EMPTY_MEMORY, EMPTY_TABLE, names, clock)
  {
  }

  lemma CollisionSeparates(p: string, q: string) returns (ops: seq<Op>)
    requires Collides(p, q)
    ensures Uses(ops, {p, q}) && ClockMonotone(ops, 0)
    ensures !AnsweredAlike(ops)
  {
    var k, l := CollisionWitness(p, q);
    var first := Enqueue(p, "", Some(k), None, 0);
    var second := Enqueue(q, "", Some(l), None, 0);
    ops := [first, second];
    var job1 := NewJob(1, p, "", Some(k), DEFAULT_MAX_ATTEMPTS, 0);
    var m := Memory([job1], map[CompositeKey(p, k) := job1.id], 1);
    var t := Table([job1], 1);
    assert [] + [job1] == [job1];
    assert MemoryStep(EMPTY_MEMORY, first) == (m, Record(job1));
    assert TableStep(EMPTY_TABLE, first) == (t, Record(job1));
    assert ops[1..] == [second];
    assert MemoryStep(m, second).1 == Record(job1);
    assert TableStep(t, second).1 != Record(job1);
    assert MemoryReplies(EMPTY_MEMORY, ops)[1] == MemoryReplies(m, [second])[0];
    assert TableReplies(EMPTY_TABLE, ops)[1] == TableReplies(t, [second])[0];
  }

  // From a fresh database the two implementations answer every run over these queue names alike,
  // given a clock that never goes back, exactly when no two of the names collide.
  lemma Refinement(names: set<string>)
    ensures (forall run: Run :: Admissible(run, names) ==> AnsweredAlike(run.ops)) <==> Separable(names)
  {
    if Separable(names) {
      forall run: Run | Admissible(run, names) ensures AnsweredAlike(run.ops) {
        InitiallyCoupled(names, run.start);
        RunAgrees(EMPTY_MEMORY, EMPTY_TABLE, names, run.start, run.ops);
      }
    } else {
      var p, q :| p in names && q in names && Collides(p, q);
      var ops := CollisionSeparates(p, q);
      assert Admissible(Run(ops, 0), names);
    }
  }

  // The clock condition cannot be dropped either: a clock that goes back changes who is claimed.
  lemma BackwardClockSeparates(queue: string, first: int, second: int)
    requires queue != "" && second < first
    ensures
      var ops := [Enqueue(queue, "", None, None, first), Enqueue(queue, "", None, None, second),
                  Claim(queue, 1, None, first)];
      !AnsweredAlike(ops)
  {
    var ops := [Enqueue(queue, "", None, None, first), Enqueue(queue, "", None, None, second),
                Claim(queue, 1, None, first)];
    var job1 := NewJob(1, queue, "", None, DEFAULT_MAX_ATTEMPTS, first);
    var job2 := NewJob(2, queue, "", None, DEFAULT_MAX_ATTEMPTS, second);
    assert [] + [job1] == [job1] && [job1] + [job2] == [job1, job2];
    var m1, t1 := Memory([job1], map[], 1), Table([job1], 1);
    var m2, t2 := Memory([job1, job2], map[], 2), Table([job1, job2], 2);
    assert MemoryStep(EMPTY_MEMORY, ops[0]).0 == m1 && TableStep(EMPTY_TABLE, ops[0]).0 == t1;
    assert MemoryStep(m1, ops[1]).0 == m2 && TableStep(t1, ops[1]).0 == t2;
    ClaimsTheOther(job1, job2, m2, t2, ops[2]);
    assert ops[1..][1..] == [ops[2]];
    assert MemoryReplies(EMPTY_MEMORY, ops)[2] == MemoryReplies(m1, ops[1..])[1] == MemoryReplies(m2, [ops[2]])[0];
    assert TableReplies(EMPTY_TABLE, ops)[2] == TableReplies(t1, ops[1..])[1] == TableReplies(t2, [ops[2]])[0];
  }

  lemma ClaimsTheOther(job1: Job, job2: Job, m: Memory, t: Table, op: Op)
    requires job2.createdAt < job1.createdAt && job1.id != job2.id
    requires op.Claim? && op.leaseMs > 0
    requires job1.queue == job2.queue == op.queue && job1.state == job2.state == Queued
    requires m.jobs == t.rows == [job1, job2]
    ensures MemoryStep(m, op).1 != TableStep(t, op).1
  {
    assert Sorted(ByCreation, [job1]) == [] + [job1] == [job1];
    assert [job1, job2][..1] == [job1] && [job1][..0] == [];
    assert InsertSorted(ByCreation, [job1], job2) == [job2] + [job1];
    assert Sorted(ByCreation, [job1, job2]) == [job2, job1];
  }
}
