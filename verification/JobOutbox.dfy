/** One outbox row under any number of interleaved dispatchers, crashes and resume resets. */
module JobOutbox {
  import opened Numerals
  import L = ProcessingLease

  type Token = nat

  datatype RowStatus = Pending | Dispatching | Sent | Discarded

  datatype Row = Row(status: RowStatus, token: Option<Token>, lease: Option<int>)

  // Where the dispatcher that drew a token stands. A crashed dispatcher just never acts again.
  datatype Phase = Claimed | SawQueued | SawNotQueued | Published | PublishFailed | Finished

  // Whose outbox row it is. The job that finalizes an upload is settled by statements of its own and can be
  // neither cancelled nor resumed.
  datatype Kind = ResourceJob | UploadJob

  // `workers` are those that may still mark the job cancelled: they execute it, or have met it cancelled.
  datatype State = State(kind: Kind, row: Row, job: L.Row, workers: set<L.Token>, dispatchers: map<Token, Phase>)

  datatype Action =
    | Claim(token: Token, expiry: int, now: int)
    | ReadJob(token: Token)
    | Publish(token: Token, ok: bool)
    | WriteSent(token: Token, queueJobId: string)
    | WriteDiscarded(token: Token)
    | WriteFailed(token: Token)
    | JobStep(step: L.Action)           // a statement of a worker, a recoverer or a user that is none of these:
    | MeetsCancelled(worker: L.Token)   // a worker is given a job that is cancelled or being cancelled
    | MarksCancelled(worker: L.Token)   // and marks it so, as does one that is interrupted
    | Leaves(worker: L.Token)           // a worker gives up without a word
    | Reset                             // a user resumes the job: its queue job is gone, the row is written anew
    | Requeue                           // the same, but its queue job is found again and the row is left alone
    | FinalizationFails(terminal: bool)
    | FinalizationCompletes

  function Initial(kind: Kind): State {
    State(kind, Row(Pending, None, None), L.INITIAL, {}, map[])
  }

  predicate Dispatchable(row: Row, now: int) {
    row.status == Pending || (row.status == Dispatching && row.lease.Some? && row.lease.value < now)
  }

  predicate In(s: State, t: Token, p: Phase) {
    t in s.dispatchers && s.dispatchers[t] == p
  }

  predicate BeingCancelled(job: L.Row) {
    job.status == L.Cancelled || job.status == L.CancelRequested
  }

  // The statement runs; whether it finds the row as it wants it is another matter.
  predicate MayRun(s: State, step: L.Action) {
    && !step.Resume? && !step.MarkCancelled?
    && (L.IsClaim(step) ==> step.holder !in s.workers)
    && (L.LeaseChecked(step) ==> step.holder in s.workers)
  }

  // A worker that claims the job is at work until it has written how it ended.
  function WorkersAfter(s: State, step: L.Action): set<L.Token> {
    match step
    case ClaimQueued(holder, _) => if L.Enabled(s.job, step) then s.workers + {holder} else s.workers
    case ClaimStale(holder, _, _) => if L.Enabled(s.job, step) then s.workers + {holder} else s.workers
    case MarkCompleted(holder, _) => s.workers - {holder}
    case MarkFailed(holder, _, _) => s.workers - {holder}
    case _ => s.workers
  }

  // May the actor take this step now? Tokens are drawn once.
  predicate Enabled(s: State, a: Action) {
    match a
    case Claim(t, _, now) => t !in s.dispatchers && Dispatchable(s.row, now)
    case ReadJob(t) => In(s, t, Claimed)
    case Publish(t, _) => In(s, t, SawQueued)
    case WriteSent(t, _) => In(s, t, Published)
    case WriteDiscarded(t) => In(s, t, SawNotQueued)
    case WriteFailed(t) => In(s, t, PublishFailed) || In(s, t, Published)
    case JobStep(step) => s.kind == ResourceJob && MayRun(s, step)
    case MeetsCancelled(_) => s.kind == ResourceJob && BeingCancelled(s.job)
    case MarksCancelled(worker) => s.kind == ResourceJob && worker in s.workers
    case Leaves(worker) => worker in s.workers
    case Reset => s.kind == ResourceJob && L.Enabled(s.job, L.Resume)
    case Requeue => s.kind == ResourceJob && L.Enabled(s.job, L.Resume) && s.job.queueJobId.Some?
    case FinalizationFails(_) => s.kind == UploadJob && s.job.status != L.Completed && s.job.status != L.Failed
    case FinalizationCompletes => s.kind == UploadJob
  }

  predicate Holds(s: State, t: Token) {
    s.row.status == Dispatching && s.row.token == Some(t)
  }

  // UPDATE ... WHERE status = 'dispatching' AND dispatch_token = ?
  function WriteIfHeld(s: State, t: Token, status: RowStatus): State {
    s.(dispatchers := s.dispatchers[t := Finished],
       row := if Holds(s, t) then Row(status, None, None) else s.row)
  }

  function Effect(s: State, a: Action): State {
    match a
    case Claim(t, expiry, _) =>
      s.(row := Row(Dispatching, Some(t), Some(expiry)), dispatchers := s.dispatchers[t := Claimed])
    case ReadJob(t) =>
      s.(dispatchers := s.dispatchers[t := if s.job.status == L.Queued then SawQueued else SawNotQueued])
    case Publish(t, ok) => s.(dispatchers := s.dispatchers[t := if ok then Published else PublishFailed])
    case WriteSent(t, id) =>
      WriteIfHeld(s, t, Sent).(job := if Holds(s, t) then s.job.(queueJobId := Some(id)) else s.job)
    case WriteDiscarded(t) => WriteIfHeld(s, t, Discarded)
    case WriteFailed(t) => WriteIfHeld(s, t, Pending)
    case JobStep(step) => s.(job := L.Step(s.job, step), workers := WorkersAfter(s, step))
    case MeetsCancelled(worker) => s.(workers := s.workers + {worker})
    case MarksCancelled(worker) => s.(job := L.Effect(s.job, L.MarkCancelled), workers := s.workers - {worker})
    case Leaves(worker) => s.(workers := s.workers - {worker})
    case Reset => s.(job := L.Effect(s.job, L.Resume), row := Row(Pending, None, None))
    case Requeue => s.(job := L.Effect(s.job, L.Resume))
    case FinalizationFails(terminal) => s.(job := s.job.(status := if terminal then L.Failed else L.Queued))
    case FinalizationCompletes => s.(job := s.job.(status := L.Completed))
  }

  function Step(s: State, a: Action): State {
    if Enabled(s, a) then Effect(s, a) else s
  }

  function After(kind: Kind, run: seq<Action>): State {
    if run == [] then Initial(kind) else Step(After(kind, run[..|run| - 1]), run[|run| - 1])
  }

  // The state that the i-th action of the run meets.
  function At(kind: Kind, run: seq<Action>, i: nat): State
    requires i <= |run|
  {
    After(kind, run[..i])
  }

  // The i-th action of the run is this one, and its actor could take it.
  predicate Happens(kind: Kind, run: seq<Action>, i: nat)
    requires i < |run|
  {
    Enabled(At(kind, run, i), run[i])
  }

  lemma NextState(kind: Kind, run: seq<Action>, i: nat)
    requires i < |run|
    ensures At(kind, run, i + 1) == Step(At(kind, run, i), run[i])
  {
    assert run[..i + 1][..i] == run[..i];
  }

  predicate NoReset(kind: Kind, run: seq<Action>, from: nat, to: nat)
    requires to <= |run|
  {
    forall j :: from <= j < to && run[j].Reset? ==> !Happens(kind, run, j)
  }

  // --- Invariants -----------------------------------------------------------------------------------

  predicate ValidJob(s: State) {
    && L.Valid(s.job)
    && (s.kind == UploadJob ==> s.job.status == L.Queued || s.job.status == L.Completed || s.job.status == L.Failed)
  }

  lemma JobStaysValid(s: State, a: Action)
    requires ValidJob(s)
    ensures ValidJob(Step(s, a))
  {
  }

  predicate ValidRow(s: State) {
    && (s.row.status == Dispatching <==> s.row.token.Some?)
    && (s.row.token.Some? <==> s.row.lease.Some?)
    && (s.row.token.Some? ==> s.row.token.value in s.dispatchers && s.dispatchers[s.row.token.value] != Finished)
  }

  lemma RowStaysValid(s: State, a: Action)
    requires ValidRow(s)
    ensures ValidRow(Step(s, a))
  {
    hide L.Step, L.Effect, L.Enabled, WorkersAfter;
  }

  predicate Valid(s: State) {
    ValidRow(s) && ValidJob(s)
  }

  lemma {:induction false} AlwaysValid(kind: Kind, run: seq<Action>, i: nat)
    requires i <= |run|
    ensures Valid(At(kind, run, i))
  {
    if i > 0 {
      hide ValidRow, ValidJob, Step;
      AlwaysValid(kind, run, i - 1);
      NextState(kind, run, i - 1);
      RowStaysValid(At(kind, run, i - 1), run[i - 1]);
      JobStaysValid(At(kind, run, i - 1), run[i - 1]);
    }
  }

  // An undecided row can always be claimed again, at the latest once its lease is over.
  lemma NeverStuck(kind: Kind, run: seq<Action>, t: Token, expiry: int, now: int)
    requires t !in After(kind, run).dispatchers
    requires After(kind, run).row.lease.Some? ==> After(kind, run).row.lease.value < now
    ensures Enabled(After(kind, run), Claim(t, expiry, now))
         <==> After(kind, run).row.status != Sent && After(kind, run).row.status != Discarded
  {
    AlwaysValid(kind, run, |run|);
    assert run[..|run|] == run;
  }

  // --- Whose token is on the row ------------------------------------------------------------------------

  // A token on the row was put there by its claim and has been there ever since, so no reset intervened.
  lemma {:induction false} Tenure(kind: Kind, run: seq<Action>, k: nat, t: Token) returns (c: nat)
    requires k <= |run| && At(kind, run, k).row.token == Some(t)
    ensures c < k && run[c].Claim? && run[c].token == t && Happens(kind, run, c)
    ensures forall j :: c < j <= k ==> At(kind, run, j).row.token == Some(t)
    ensures NoReset(kind, run, c, k)
  {
    hide L.Step, L.Effect, WorkersAfter, MayRun, BeingCancelled;
    assert k > 0;
    NextState(kind, run, k - 1);
    if run[k - 1].Claim? && run[k - 1].token == t && Happens(kind, run, k - 1) {
      c := k - 1;
    } else {
      c := Tenure(kind, run, k - 1, t);
    }
  }

  // A dispatcher that knows the outcome of a step took that step after its claim.
  lemma {:induction false} PublishedOnce(kind: Kind, run: seq<Action>, c: nat, k: nat, t: Token) returns (p: nat)
    requires c < k <= |run| && run[c].Claim? && run[c].token == t && Happens(kind, run, c)
    requires In(At(kind, run, k), t, Published)
    ensures c < p < k && run[p] == Publish(t, true) && Happens(kind, run, p)
  {
    NextState(kind, run, k - 1);
    if run[k - 1] == Publish(t, true) && Happens(kind, run, k - 1) {
      p := k - 1;
      if p == c {
        assert false;
      }
    } else {
      assert c < k - 1 by {
        assert In(At(kind, run, c + 1), t, Claimed) by { NextState(kind, run, c); }
      }
      p := PublishedOnce(kind, run, c, k - 1, t);
    }
  }

  lemma {:induction false} SawNotQueuedOnce(kind: Kind, run: seq<Action>, c: nat, k: nat, t: Token) returns (d: nat)
    requires c < k <= |run| && run[c].Claim? && run[c].token == t && Happens(kind, run, c)
    requires In(At(kind, run, k), t, SawNotQueued)
    ensures c < d < k && run[d] == ReadJob(t) && Happens(kind, run, d) && At(kind, run, d).job.status != L.Queued
  {
    hide L.Step, L.Effect, WorkersAfter, MayRun, BeingCancelled;
    NextState(kind, run, k - 1);
    if run[k - 1] == ReadJob(t) && Happens(kind, run, k - 1) {
      d := k - 1;
    } else {
      assert c < k - 1 by {
        assert In(At(kind, run, c + 1), t, Claimed) by { NextState(kind, run, c); }
      }
      d := SawNotQueuedOnce(kind, run, c, k - 1, t);
    }
  }

  // --- A reset is never lost ---------------------------------------------------------------------------------

  // A sent row was published after its latest reset.
  lemma {:induction false} SentWasPublished(kind: Kind, run: seq<Action>, k: nat) returns (p: nat)
    requires k <= |run| && At(kind, run, k).row.status == Sent
    ensures p < k && run[p].Publish? && run[p].ok && Happens(kind, run, p)
    ensures NoReset(kind, run, p, k)
  {
    hide L.Step, L.Effect, WorkersAfter, MayRun, BeingCancelled;
    assert k > 0;
    NextState(kind, run, k - 1);
    if At(kind, run, k - 1).row.status == Sent {
      p := SentWasPublished(kind, run, k - 1);
    } else {
      var t := run[k - 1].token;
      var c := Tenure(kind, run, k - 1, t);
      p := PublishedOnce(kind, run, c, k - 1, t);
    }
  }

  // A discarded row had its job read as not queued after its latest reset.
  lemma {:induction false} DiscardedWasNotQueued(kind: Kind, run: seq<Action>, k: nat) returns (d: nat)
    requires k <= |run| && At(kind, run, k).row.status == Discarded
    ensures d < k && run[d].ReadJob? && Happens(kind, run, d) && At(kind, run, d).job.status != L.Queued
    ensures NoReset(kind, run, d, k)
  {
    hide L.Step, L.Effect, WorkersAfter, MayRun, BeingCancelled;
    assert k > 0;
    NextState(kind, run, k - 1);
    if At(kind, run, k - 1).row.status == Discarded {
      d := DiscardedWasNotQueued(kind, run, k - 1);
    } else {
      var t := run[k - 1].token;
      var c := Tenure(kind, run, k - 1, t);
      d := SawNotQueuedOnce(kind, run, c, k - 1, t);
    }
  }

  // Tokens are drawn once: the claim that put a token on the row is the only one with that token.
  lemma {:induction false} DrawnOnce(kind: Kind, run: seq<Action>, i: nat, k: nat)
    requires i < k <= |run| && run[i].Claim? && Happens(kind, run, i)
    ensures run[i].token in At(kind, run, k).dispatchers
  {
    hide L.Step, L.Effect, WorkersAfter, MayRun, BeingCancelled;
    NextState(kind, run, k - 1);
    if i < k - 1 {
      DrawnOnce(kind, run, i, k - 1);
    }
  }

  // A dispatcher that claimed before a reset never changes the row after it.
  lemma OlderDispatcherHarmless(kind: Kind, run: seq<Action>, c: nat, r: nat, k: nat)
    requires c < r < k < |run|
    requires run[c].Claim? && Happens(kind, run, c)
    requires run[r].Reset? && Happens(kind, run, r)
    requires run[k].WriteSent? || run[k].WriteDiscarded? || run[k].WriteFailed?
    requires run[k].token == run[c].token
    ensures At(kind, run, k + 1).row == At(kind, run, k).row
  {
    NextState(kind, run, k);
    var t := run[c].token;
    if At(kind, run, k).row.token == Some(t) {
      var i := Tenure(kind, run, k, t);
      if c < i {
        DrawnOnce(kind, run, c, i);
      }
    }
  }

  // --- One dispatcher's loop with nobody else at work -----------------------------------------------------------

  const MIN_LEASE_MS := 1_000
  const MAX_LIMIT := 100

  // A row and whether its job is queued, in order of creation.
  datatype Entry = Entry(row: Row, jobQueued: bool)

  datatype Tally = Tally(dispatched: nat, discarded: nat, failed: nat)

  function FirstDispatchable(entries: seq<Entry>, now: int): (i: nat)
    ensures i <= |entries|
    ensures i < |entries| ==> Dispatchable(entries[i].row, now)
    ensures forall k :: 0 <= k < i ==> !Dispatchable(entries[k].row, now)
  {
    if entries == [] || Dispatchable(entries[0].row, now) then 0 else 1 + FirstDispatchable(entries[1..], now)
  }

  // publishes: whether the queue accepts each next publication.
  function Dispatched(entries: seq<Entry>, now: int, limit: nat, publishes: seq<bool>): (seq<Entry>, Tally)
    decreases limit
  {
    var i := FirstDispatchable(entries, now);
    if limit == 0 || i == |entries| then (entries, Tally(0, 0, 0))
    else if !entries[i].jobQueued then
      var (rest, t) := Dispatched(entries[i := entries[i].(row := Row(Discarded, None, None))], now, limit - 1,
                                  publishes);
      (rest, t.(discarded := t.discarded + 1))
    else if publishes != [] && publishes[0] then
      var (rest, t) := Dispatched(entries[i := entries[i].(row := Row(Sent, None, None))], now, limit - 1,
                                  publishes[1..]);
      (rest, t.(dispatched := t.dispatched + 1))
    else (entries[i := entries[i].(row := Row(Pending, None, None))], Tally(0, 0, 1))
  }

  class Outbox {
    var entries: seq<Entry>

    constructor (stored: seq<Entry>)
      ensures entries == stored
    {
      entries := stored;
    }

    method DispatchPending(now: int, limit: int, leaseMs: int, firstToken: Token, publishes: seq<bool>)
      returns (tally: Option<Tally>)
      modifies this
      ensures tally.None? <==> limit < 1 || limit > MAX_LIMIT
                               || (leaseMs < MIN_LEASE_MS && FirstDispatchable(old(entries), now) < |old(entries)|)
      ensures tally.None? ==> entries == old(entries)
      ensures tally.Some? ==> (entries, tally.value) == Dispatched(old(entries), now, limit, publishes)
    {
      if limit < 1 || limit > MAX_LIMIT {
        return None;
      }
      var dispatched, discarded, failed, next, index := 0, 0, 0, 0, 0;
      while index < limit
        invariant 0 <= index <= limit && next <= |publishes|
        invariant index > 0 ==> leaseMs >= MIN_LEASE_MS
        invariant index == 0 ==> entries == old(entries)
        invariant var (rest, t) := Dispatched(entries, now, limit - index, publishes[next..]);
                  Dispatched(old(entries), now, limit, publishes)
                  == (rest, Tally(dispatched + t.dispatched, discarded + t.discarded, failed + t.failed))
      {
        var i := FirstDispatchable(entries, now);
        if i == |entries| {
          break;
        }
        if leaseMs < MIN_LEASE_MS {
          return None;
        }
        ghost var before := entries;
        assert publishes[next..] == [] || publishes[next..][1..] == publishes[next + 1..];
        entries := entries[i := entries[i].(row := Row(Dispatching, Some(firstToken + index), Some(now + leaseMs)))];
        if !entries[i].jobQueued {
          entries := entries[i := entries[i].(row := Row(Discarded, None, None))];
          assert entries == before[i := before[i].(row := Row(Discarded, None, None))];
          discarded := discarded + 1;
        } else if next < |publishes| && publishes[next] {
          entries := entries[i := entries[i].(row := Row(Sent, None, None))];
          assert entries == before[i := before[i].(row := Row(Sent, None, None))];
          dispatched := dispatched + 1;
          next := next + 1;
        } else {
          entries := entries[i := entries[i].(row := Row(Pending, None, None))];
          assert entries == before[i := before[i].(row := Row(Pending, None, None))];
          failed := failed + 1;
          return Some(Tally(dispatched, discarded, failed));
        }
        index := index + 1;
      }
      tally := Some(Tally(dispatched, discarded, failed));
    }
  }

  function CountStatus(entries: seq<Entry>, status: RowStatus): nat {
    if entries == [] then 0
    else CountStatus(entries[..|entries| - 1], status) + if entries[|entries| - 1].row.status == status then 1 else 0
  }

  lemma {:induction false} CountChange(entries: seq<Entry>, i: nat, e: Entry, status: RowStatus)
    requires i < |entries|
    ensures CountStatus(entries[i := e], status)
         == CountStatus(entries, status) + (if e.row.status == status then 1 else 0)
            - (if entries[i].row.status == status then 1 else 0)
  {
    var n := |entries| - 1;
    if i < n {
      assert entries[i := e][..n] == entries[..n][i := e];
      CountChange(entries[..n], i, e, status);
    } else {
      assert entries[i := e][..n] == entries[..n];
    }
  }

  // The tally is the number of rows that became sent and discarded, no other row is touched, and a sweep that
  // neither failed nor used up its limit leaves nothing to dispatch.
  lemma {:induction false} TallyCounts(entries: seq<Entry>, now: int, limit: nat, publishes: seq<bool>)
    ensures
      var (after, t) := Dispatched(entries, now, limit, publishes);
      && |after| == |entries|
      && CountStatus(after, Sent) == CountStatus(entries, Sent) + t.dispatched
      && CountStatus(after, Discarded) == CountStatus(entries, Discarded) + t.discarded
      && (forall k :: 0 <= k < |entries| && !Dispatchable(entries[k].row, now) ==> after[k] == entries[k])
      && t.failed <= 1 && t.dispatched + t.discarded + t.failed <= limit
      && (t.failed == 0 && t.dispatched + t.discarded < limit ==> FirstDispatchable(after, now) == |after|)
    decreases limit
  {
    var i := FirstDispatchable(entries, now);
    if limit > 0 && i < |entries| {
      var status := if !entries[i].jobQueued then Discarded
                    else if publishes != [] && publishes[0] then Sent else Pending;
      var next := entries[i].(row := Row(status, None, None));
      CountChange(entries, i, next, Sent);
      CountChange(entries, i, next, Discarded);
      if status != Pending {
        TallyCounts(entries[i := next], now, limit - 1, if status == Sent then publishes[1..] else publishes);
      }
    }
  }
}
