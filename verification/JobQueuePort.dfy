/** The in-process job queue: records, the reference semantics and its Map-based implementation. */
module JobQueuePort {
  import opened Numerals

  const DEFAULT_MAX_ATTEMPTS := 3
  const MAX_ATTEMPTS_LIMIT := 20

  datatype JobState = Queued | Active | Completed | Failed | Cancelled

  // Ids are issued as JobId(1), JobId(2), ...; a record carries the number, which JobIdInjective
  // shows to be as good as the text. An id that was never issued is any other number.
  datatype Job = Job(
    id: nat,
    queue: string,
    payload: string,
    state: JobState,
    attempts: nat,
    maxAttempts: int,
    leasedUntil: Option<int>,
    lastError: Option<string>,
    idempotencyKey: Option<string>,
    createdAt: int
  )

  // What one call returns: a record, nothing, a flag, a number, a listing, or a thrown code.
  datatype Reply =
    | Record(job: Job)
    | NoJob
    | Done
    | Flag(value: bool)
    | Count(count: nat)
    | Listing(jobs: seq<Job>)
    | Error(code: string)

  datatype Op =
    | Enqueue(queue: string, payload: string, key: Option<string>, maxAttempts: Option<int>, now: int)
    | Claim(queue: string, leaseMs: int, at: Option<int>, now: int)
    | Complete(id: nat)
    | Fail(id: nat, error: string)
    | Cancel(id: nat)
    | Recover(before: int)
    | List(filter: Option<string>)

  function GetOr<T>(o: Option<T>, default: T): T {
    if o.Some? then o.value else default
  }

  function JobId(n: nat): string {
    "job-" + PadStart(Decimal(n), 8)
  }

  lemma JobIdInjective(a: nat, b: nat)
    requires JobId(a) == JobId(b)
    ensures a == b
  {
    assert JobId(a)[4..] == PadStart(Decimal(a), 8);
    assert JobId(b)[4..] == PadStart(Decimal(b), 8);
    PaddedInjective(a, b, 8);
  }

  // --- What a call does to one record -------------------------------------------------------

  datatype Change = ToClaimed(until: int) | ToCompleted | ToFailed(error: string) | ToCancelled

  function AfterAttempt(job: Job): JobState {
    if job.attempts >= job.maxAttempts then Failed else Queued
  }

  function Apply(c: Change, job: Job): (r: Job)
    ensures r.id == job.id
  {
    match c
    case ToClaimed(until) =>
      job.(state := Active, attempts := job.attempts + 1, leasedUntil := Some(until))
    case ToCompleted =>
      job.(state := Completed, leasedUntil := None, lastError := None)
    case ToFailed(error) =>
      job.(state := AfterAttempt(job), leasedUntil := None, lastError := Some(error))
    case ToCancelled =>
      job.(state := Cancelled)
  }

  predicate Expired(job: Job, at: int) {
    job.state == Active && job.leasedUntil.Some? && job.leasedUntil.value <= at
  }

  function RecoverJob(job: Job, at: int): Job {
    if Expired(job, at) then Apply(ToFailed("JOB_LEASE_EXPIRED"), job) else job
  }

  function RecoverAll(jobs: seq<Job>, at: int): seq<Job> {
    seq(|jobs|, i requires 0 <= i < |jobs| => RecoverJob(jobs[i], at))
  }

  function CountExpired(jobs: seq<Job>, at: int): nat {
    if jobs == [] then 0
    else CountExpired(jobs[..|jobs| - 1], at) + if Expired(jobs[|jobs| - 1], at) then 1 else 0
  }

  predicate Reusable(job: Job) {
    job.state != Failed && job.state != Cancelled
  }

  function NewJob(n: nat, queue: string, payload: string, key: Option<string>, maxAttempts: int, now: int): Job {
    Job(n, queue, payload, Queued, 0, maxAttempts, None, None, key, now)
  }

  // The position of the record with this id, or |jobs|.
  function IndexOf(jobs: seq<Job>, id: nat): (i: nat)
    ensures i <= |jobs|
    ensures i < |jobs| ==> jobs[i].id == id
    ensures forall k :: 0 <= k < i ==> jobs[k].id != id
  {
    if jobs == [] then 0
    else if jobs[0].id == id then 0
    else 1 + IndexOf(jobs[1..], id)
  }

  // The position of the first queued record of a queue, or |jobs|.
  function FirstQueued(jobs: seq<Job>, queue: string): (i: nat)
    ensures i <= |jobs|
    ensures i < |jobs| ==> jobs[i].queue == queue && jobs[i].state == Queued
    ensures forall k :: 0 <= k < i ==> !(jobs[k].queue == queue && jobs[k].state == Queued)
  {
    if jobs == [] then 0
    else if jobs[0].queue == queue && jobs[0].state == Queued then 0
    else 1 + FirstQueued(jobs[1..], queue)
  }

  function OfQueue(jobs: seq<Job>, filter: Option<string>): seq<Job> {
    if jobs == [] then []
    else OfQueue(jobs[..|jobs| - 1], filter)
         + if filter.None? || jobs[|jobs| - 1].queue == filter.value then [jobs[|jobs| - 1]] else []
  }

  // --- Stable sorting ------------------------------------------------------------------------

  datatype SortKey = ByCreation | ById

  predicate InOrder(key: SortKey, a: Job, b: Job) {
    match key
    case ByCreation => a.createdAt <= b.createdAt
    case ById => !LexLess(JobId(b.id), JobId(a.id))
  }

  function InsertSorted(key: SortKey, s: seq<Job>, x: Job): seq<Job> {
    if s == [] || InOrder(key, s[|s| - 1], x) then s + [x]
    else InsertSorted(key, s[..|s| - 1], x) + [s[|s| - 1]]
  }

  function Sorted(key: SortKey, s: seq<Job>): seq<Job> {
    if s == [] then [] else InsertSorted(key, Sorted(key, s[..|s| - 1]), s[|s| - 1])
  }

  lemma {:induction false} InsertKeeps(key: SortKey, s: seq<Job>, x: Job)
    ensures multiset(InsertSorted(key, s, x)) == multiset(s) + multiset{x}
  {
    if !(s == [] || InOrder(key, s[|s| - 1], x)) {
      assert s == s[..|s| - 1] + [s[|s| - 1]];
      InsertKeeps(key, s[..|s| - 1], x);
    }
  }

  lemma {:induction false} SortedKeeps(key: SortKey, s: seq<Job>)
    ensures multiset(Sorted(key, s)) == multiset(s)
  {
    if s != [] {
      assert s == s[..|s| - 1] + [s[|s| - 1]];
      SortedKeeps(key, s[..|s| - 1]);
      InsertKeeps(key, Sorted(key, s[..|s| - 1]), s[|s| - 1]);
    }
  }

  lemma {:induction false} SortedIsIdentity(key: SortKey, s: seq<Job>)
    requires forall i :: 0 < i < |s| ==> InOrder(key, s[i - 1], s[i])
    ensures Sorted(key, s) == s
  {
    if s != [] {
      SortedIsIdentity(key, s[..|s| - 1]);
    }
  }

  // --- Reference semantics on values ---------------------------------------------------------

  // A Map keeps its entries in the order in which their keys were first set.
  function MapSet(jobs: seq<Job>, job: Job): seq<Job> {
    var i := IndexOf(jobs, job.id);
    if i < |jobs| then jobs[i := job] else jobs + [job]
  }

  // jobs: the values of the jobs Map; byKey: composite key to latest id.
  datatype Memory = Memory(jobs: seq<Job>, byKey: map<string, nat>, sequence: nat)

  const EMPTY_MEMORY := Memory([], map[], 0)

  function CompositeKey(queue: string, key: string): string {
    queue + "::" + key
  }

  // The record a repeated enqueue returns instead of creating one.
  function MemoryDuplicate(m: Memory, queue: string, key: Option<string>): Option<Job> {
    if key.None? || CompositeKey(queue, key.value) !in m.byKey then None
    else
      var i := IndexOf(m.jobs, m.byKey[CompositeKey(queue, key.value)]);
      if i < |m.jobs| && Reusable(m.jobs[i]) then Some(m.jobs[i]) else None
  }

  function MemoryEnqueue(m: Memory, queue: string, payload: string, key: Option<string>,
                         maxAttempts: Option<int>, now: int): (Memory, Reply)
  {
    var most := GetOr(maxAttempts, DEFAULT_MAX_ATTEMPTS);
    if queue == "" then (m, Error("JOB_QUEUE_INVALID"))
    else if most < 1 || most > MAX_ATTEMPTS_LIMIT then (m, Error("JOB_ATTEMPTS_INVALID"))
    else
      var existing := MemoryDuplicate(m, queue, key);
      if existing.Some? then (m, Record(existing.value))
      else
        var job := NewJob(m.sequence + 1, queue, payload, key, most, now);
        (Memory(MapSet(m.jobs, job),
                if key.Some? then m.byKey[CompositeKey(queue, key.value) := job.id] else m.byKey,
                m.sequence + 1),
         Record(job))
  }

  function StampJobs(jobs: seq<Job>, id: nat, c: Change): seq<Job> {
    var i := IndexOf(jobs, id);
    if i < |jobs| then MapSet(jobs, Apply(c, jobs[i])) else jobs
  }

  function MemoryClaim(m: Memory, queue: string, leaseMs: int, at: Option<int>, now: int): (Memory, Reply) {
    if leaseMs <= 0 then (m, Error("JOB_LEASE_INVALID"))
    else
      var byAge := Sorted(ByCreation, m.jobs);
      var i := FirstQueued(byAge, queue);
      if i == |byAge| then (m, NoJob)
      else
        var c := ToClaimed(GetOr(at, now) + leaseMs);
        (m.(jobs := StampJobs(m.jobs, byAge[i].id, c)), Record(Apply(c, byAge[i])))
  }

  function MemorySettle(m: Memory, id: nat, already: JobState, c: Change): (Memory, Reply) {
    var i := IndexOf(m.jobs, id);
    if i == |m.jobs| then (m, Error("JOB_NOT_FOUND"))
    else if m.jobs[i].state == already then (m, Done)
    else if m.jobs[i].state != Active then (m, Error("JOB_NOT_ACTIVE"))
    else (m.(jobs := StampJobs(m.jobs, id, c)), Done)
  }

  function MemoryCancel(m: Memory, id: nat): (Memory, Reply) {
    var i := IndexOf(m.jobs, id);
    if i == |m.jobs| then (m, Error("JOB_NOT_FOUND"))
    else if m.jobs[i].state != Queued then (m, Flag(false))
    else (m.(jobs := StampJobs(m.jobs, id, ToCancelled)), Flag(true))
  }

  // Recovers the expired entries of a snapshot of the values, one by one.
  function Sweep(jobs: seq<Job>, values: seq<Job>, at: int): seq<Job> {
    if values == [] then jobs
    else
      var last := values[|values| - 1];
      var swept := Sweep(jobs, values[..|values| - 1], at);
      if Expired(last, at) then StampJobs(swept, last.id, ToFailed("JOB_LEASE_EXPIRED")) else swept
  }

  function MemoryStep(m: Memory, op: Op): (Memory, Reply) {
    match op
    case Enqueue(queue, payload, key, maxAttempts, now) => MemoryEnqueue(m, queue, payload, key, maxAttempts, now)
    case Claim(queue, leaseMs, at, now) => MemoryClaim(m, queue, leaseMs, at, now)
    case Complete(id) => MemorySettle(m, id, Completed, ToCompleted)
    case Fail(id, error) => MemorySettle(m, id, Failed, ToFailed(error))
    case Cancel(id) => MemoryCancel(m, id)
    case Recover(at) => (m.(jobs := Sweep(m.jobs, m.jobs, at)), Count(CountExpired(m.jobs, at)))
    case List(filter) => (m, Listing(Sorted(ById, OfQueue(m.jobs, filter))))
  }

  // --- The implementation ----------------------------------------------------------------------

  method Scan(byAge: seq<Job>, queue: string) returns (i: nat)
    ensures i == FirstQueued(byAge, queue)
  {
    i := 0;
    while i < |byAge| && (byAge[i].queue != queue || byAge[i].state != Queued)
      invariant i <= FirstQueued(byAge, queue)
    {
      i := i + 1;
    }
  }

  class InMemoryJobQueue {
    var jobs: seq<Job>
    var byIdempotencyKey: map<string, nat>
    var sequence: nat

    ghost function Model(): Memory
      reads this
    {
      Memory(jobs, byIdempotencyKey, sequence)
    }

    constructor ()
      ensures Model() == EMPTY_MEMORY
    {
      jobs, byIdempotencyKey, sequence := [], map[], 0;
    }

    method EnqueueJob(queue: string, payload: string, key: Option<string>, maxAttempts: Option<int>, now: int)
      returns (r: Reply)
      modifies this
      ensures Model() == MemoryEnqueue(old(Model()), queue, payload, key, maxAttempts, now).0
      ensures r == MemoryEnqueue(old(Model()), queue, payload, key, maxAttempts, now).1
    {
      if queue == "" {
        return Error("JOB_QUEUE_INVALID");
      }
      var most := GetOr(maxAttempts, DEFAULT_MAX_ATTEMPTS);
      if most < 1 || most > MAX_ATTEMPTS_LIMIT {
        return Error("JOB_ATTEMPTS_INVALID");
      }
      if key.Some? && CompositeKey(queue, key.value) in byIdempotencyKey {
        var i := IndexOf(jobs, byIdempotencyKey[CompositeKey(queue, key.value)]);
        if i < |jobs| && Reusable(jobs[i]) {
          return Record(jobs[i]);
        }
      }
      sequence := sequence + 1;
      var job := NewJob(sequence, queue, payload, key, most, now);
      jobs := MapSet(jobs, job);
      if key.Some? {
        byIdempotencyKey := byIdempotencyKey[CompositeKey(queue, key.value) := job.id];
      }
      r := Record(job);
    }

    method ClaimJob(queue: string, leaseMs: int, at: Option<int>, now: int) returns (r: Reply)
      modifies this`jobs
      ensures Model() == MemoryClaim(old(Model()), queue, leaseMs, at, now).0
      ensures r == MemoryClaim(old(Model()), queue, leaseMs, at, now).1
    {
      if leaseMs <= 0 {
        return Error("JOB_LEASE_INVALID");
      }
      var current := GetOr(at, now);
      var byAge := Sorted(ByCreation, jobs);
      var i := Scan(byAge, queue);
      if i == |byAge| {
        return NoJob;
      }
      var c := ToClaimed(current + leaseMs);
      jobs := StampJobs(jobs, byAge[i].id, c);
      r := Record(Apply(c, byAge[i]));
    }

    method SettleJob(id: nat, already: JobState, c: Change) returns (r: Reply)
      modifies this`jobs
      ensures Model() == MemorySettle(old(Model()), id, already, c).0
      ensures r == MemorySettle(old(Model()), id, already, c).1
    {
      var i := IndexOf(jobs, id);
      if i == |jobs| {
        return Error("JOB_NOT_FOUND");
      }
      if jobs[i].state == already {
        return Done;
      }
      if jobs[i].state != Active {
        return Error("JOB_NOT_ACTIVE");
      }
      jobs := StampJobs(jobs, id, c);
      r := Done;
    }

    method CancelJob(id: nat) returns (r: Reply)
      modifies this`jobs
      ensures Model() == MemoryCancel(old(Model()), id).0
      ensures r == MemoryCancel(old(Model()), id).1
    {
      var i := IndexOf(jobs, id);
      if i == |jobs| {
        return Error("JOB_NOT_FOUND");
      }
      if jobs[i].state != Queued {
        return Flag(false);
      }
      jobs := StampJobs(jobs, id, ToCancelled);
      r := Flag(true);
    }

    method RecoverExpiredLeases(at: int) returns (r: Reply)
      modifies this`jobs
      ensures Model() == MemoryStep(old(Model()), Recover(at)).0
      ensures r == MemoryStep(old(Model()), Recover(at)).1
    {
      var values := jobs;
      var recovered := 0;
      for i := 0 to |values|
        invariant jobs == Sweep(values, values[..i], at)
        invariant recovered == CountExpired(values[..i], at)
      {
        assert values[..i + 1][..i] == values[..i];
        if Expired(values[i], at) {
          jobs := StampJobs(jobs, values[i].id, ToFailed("JOB_LEASE_EXPIRED"));
          recovered := recovered + 1;
        }
      }
      assert values[..|values|] == values;
      r := Count(recovered);
    }

    method ListJobs(filter: Option<string>) returns (r: Reply)
      ensures r == MemoryStep(Model(), List(filter)).1
    {
      var kept := [];
      for i := 0 to |jobs|
        invariant kept == OfQueue(jobs[..i], filter)
      {
        assert jobs[..i + 1][..i] == jobs[..i];
        if filter.None? || jobs[i].queue == filter.value {
          kept := kept + [jobs[i]];
        }
      }
      assert jobs[..|jobs|] == jobs;
      r := Listing(Sorted(ById, kept));
    }
  }
}
