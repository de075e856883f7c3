/** One processing job row: execution tokens, leases, recovery and user requests. */
module ProcessingLease {
  import opened Numerals

  const MIN_LEASE_MS := 1_000

  // Tokens are random and drawn once; a number stands for each.
  type Token = nat

  datatype Status = Queued | Processing | CancelRequested | Cancelled | Completed | Failed

  datatype Row = Row(
    status: Status,
    stage: string,
    progress: nat,
    queueJobId: Option<string>,
    token: Option<Token>,
    lease: Option<int>
  )

  // Every statement that any actor runs against the status, token or lease of the row of a resource job.
  // A claim is two statements, so it is two actions.
  datatype Action =
    | ClaimQueued(holder: Token, expiry: int)
    | ClaimStale(holder: Token, expiry: int, now: int)
    | ClaimForRecovery(holder: Token, expiry: int, now: int)
    | Refresh(holder: Token, expiry: int, now: int)
    | UpdateStage(holder: Token, stage: string, progress: nat, expiry: int, now: int)
    | Release(holder: Token, queueJobId: string)
    | MarkCompleted(holder: Token, now: int)
    | MarkFailed(holder: Token, retry: bool, now: int)
    | MarkCancelled
    | ClearCancelled(now: int)
    | RequestCancel
    | Resume

  predicate IsClaim(a: Action) {
    a.ClaimQueued? || a.ClaimStale? || a.ClaimForRecovery?
  }

  predicate Carries(a: Action, t: Token) {
    !a.MarkCancelled? && !a.ClearCancelled? && !a.RequestCancel? && !a.Resume? && a.holder == t
  }

  // The holder's actions that also demand a lease still running.
  predicate LeaseChecked(a: Action) {
    a.Refresh? || a.UpdateStage? || a.MarkCompleted? || a.MarkFailed?
  }

  predicate LeaseOver(row: Row, now: int) {
    row.lease.Some? && row.lease.value < now
  }

  predicate HeldBy(row: Row, t: Token) {
    row.status == Processing && row.token == Some(t)
  }

  predicate HeldUnexpired(row: Row, t: Token, now: int) {
    HeldBy(row, t) && row.lease.Some? && row.lease.value > now
  }

  // The WHERE clause of each statement.
  predicate Enabled(row: Row, a: Action) {
    match a
    case ClaimQueued(_, _) => row.status == Queued
    case ClaimStale(_, _, now) => row.status == Processing && LeaseOver(row, now)
    case ClaimForRecovery(_, _, now) => row.status == Processing && LeaseOver(row, now)
    case Refresh(holder, _, now) => HeldUnexpired(row, holder, now)
    case UpdateStage(holder, _, _, _, now) => HeldUnexpired(row, holder, now)
    case Release(holder, _) => HeldBy(row, holder)
    case MarkCompleted(holder, now) => HeldUnexpired(row, holder, now)
    case MarkFailed(holder, _, now) => HeldUnexpired(row, holder, now)
    case MarkCancelled => true
    case ClearCancelled(now) => row.status == CancelRequested && LeaseOver(row, now)
    case RequestCancel => row.status == Queued || row.status == Processing
    case Resume => row.status == Cancelled
  }

  function Free(row: Row, status: Status, stage: string): Row {
    row.(status := status, stage := stage, token := None, lease := None)
  }

  // The SET clause.
  function Effect(row: Row, a: Action): Row {
    match a
    case ClaimQueued(holder, expiry) =>
      row.(status := Processing, stage := "parsing", progress := 10, token := Some(holder), lease := Some(expiry))
    case ClaimStale(holder, expiry, _) =>
      row.(status := Processing, stage := "parsing", progress := 10, token := Some(holder), lease := Some(expiry))
    case ClaimForRecovery(holder, expiry, _) =>
      row.(stage := "recovery_pending", token := Some(holder), lease := Some(expiry))
    case Refresh(_, expiry, _) => row.(lease := Some(expiry))
    case UpdateStage(_, stage, progress, expiry, _) => row.(stage := stage, progress := progress, lease := Some(expiry))
    case Release(_, queueJobId) => Free(row, Queued, "queued").(progress := 0, queueJobId := Some(queueJobId))
    case MarkCompleted(_, _) => Free(row, Completed, "completed").(progress := 100)
    case MarkFailed(_, retry, _) => if retry then Free(row, Queued, "retry_wait") else Free(row, Failed, "failed")
    case MarkCancelled => Free(row, Cancelled, "cancelled")
    case ClearCancelled(_) => Free(row, Cancelled, "cancelled")
    case RequestCancel =>
      if row.status == Queued then row.(status := Cancelled, stage := "cancelled")
      else row.(status := CancelRequested, stage := "cancel_requested")
    case Resume => row.(status := Queued, stage := "queued", progress := 0)
  }

  function Step(row: Row, a: Action): Row {
    if Enabled(row, a) then Effect(row, a) else row
  }

  // --- The row as the statements change it ------------------------------------------------------

  class ProcessingJob {
    var status: Status
    var stage: string
    var progress: nat
    var queueJobId: Option<string>
    var executionToken: Option<Token>
    var executionLeaseExpiresAt: Option<int>

    ghost function Model(): Row
      reads this
    {
      Row(status, stage, progress, queueJobId, executionToken, executionLeaseExpiresAt)
    }

    constructor ()
      ensures Model() == Row(Queued, "queued", 0, None, None, None)
    {
      status, stage, progress, queueJobId := Queued, "queued", 0, None;
      executionToken, executionLeaseExpiresAt := None, None;
    }

    // Two statements, with nobody else's in between; None is the rejected lease length.
    method ClaimExecution(token: Token, leaseMs: int, now: int) returns (ok: Option<bool>)
      modifies this
      ensures ok.None? <==> leaseMs < MIN_LEASE_MS
      ensures ok.None? ==> Model() == old(Model())
      ensures ok.Some? ==>
        var first := Step(old(Model()), ClaimQueued(token, now + leaseMs));
        if Enabled(old(Model()), ClaimQueued(token, now + leaseMs)) then Model() == first && ok.value
        else Model() == Step(first, ClaimStale(token, now + leaseMs, now))
             && ok.value == Enabled(first, ClaimStale(token, now + leaseMs, now))
    {
      if leaseMs < MIN_LEASE_MS {
        return None;
      }
      if status == Queued {
        Take(token, now + leaseMs);
        return Some(true);
      }
      if status == Processing && executionLeaseExpiresAt.Some? && executionLeaseExpiresAt.value < now {
        Take(token, now + leaseMs);
        return Some(true);
      }
      ok := Some(false);
    }

    method Take(token: Token, expiry: int)
      modifies this
      ensures Model() == Effect(old(Model()), ClaimQueued(token, expiry))
    {
      status, stage, progress := Processing, "parsing", 10;
      executionToken, executionLeaseExpiresAt := Some(token), Some(expiry);
    }

    method ClaimExpiredForRecovery(token: Token, expiry: int, now: int) returns (ok: bool)
      modifies this
      ensures ok == Enabled(old(Model()), ClaimForRecovery(token, expiry, now))
      ensures Model() == Step(old(Model()), ClaimForRecovery(token, expiry, now))
    {
      ok := status == Processing && executionLeaseExpiresAt.Some? && executionLeaseExpiresAt.value < now;
      if ok {
        stage, executionToken, executionLeaseExpiresAt := "recovery_pending", Some(token), Some(expiry);
      }
    }

    method Holds(token: Token, now: int) returns (ok: bool)
      ensures ok == HeldUnexpired(Model(), token, now)
    {
      ok := status == Processing && executionToken == Some(token)
            && executionLeaseExpiresAt.Some? && executionLeaseExpiresAt.value > now;
    }

    method RefreshExecution(token: Token, expiry: int, now: int) returns (ok: bool)
      modifies this
      ensures ok == Enabled(old(Model()), Refresh(token, expiry, now))
      ensures Model() == Step(old(Model()), Refresh(token, expiry, now))
    {
      ok := Holds(token, now);
      if ok {
        executionLeaseExpiresAt := Some(expiry);
      }
    }

    method UpdateExecutionStage(token: Token, newStage: string, newProgress: nat, expiry: int, now: int)
      returns (ok: bool)
      modifies this
      ensures ok == Enabled(old(Model()), UpdateStage(token, newStage, newProgress, expiry, now))
      ensures Model() == Step(old(Model()), UpdateStage(token, newStage, newProgress, expiry, now))
    {
      ok := Holds(token, now);
      if ok {
        stage, progress, executionLeaseExpiresAt := newStage, newProgress, Some(expiry);
      }
    }

    method ReleaseRecovered(token: Token, newQueueJobId: string) returns (ok: bool)
      modifies this
      ensures ok == Enabled(old(Model()), Release(token, newQueueJobId))
      ensures Model() == Step(old(Model()), Release(token, newQueueJobId))
    {
      ok := status == Processing && executionToken == Some(token);
      if ok {
        status, stage, progress, queueJobId := Queued, "queued", 0, Some(newQueueJobId);
        executionToken, executionLeaseExpiresAt := None, None;
      }
    }

    method Complete(token: Token, now: int) returns (ok: bool)
      modifies this
      ensures ok == Enabled(old(Model()), MarkCompleted(token, now))
      ensures Model() == Step(old(Model()), MarkCompleted(token, now))
    {
      ok := Holds(token, now);
      if ok {
        status, stage, progress := Completed, "completed", 100;
        executionToken, executionLeaseExpiresAt := None, None;
      }
    }

    method Fail(token: Token, retry: bool, now: int) returns (ok: bool)
      modifies this
      ensures ok == Enabled(old(Model()), MarkFailed(token, retry, now))
      ensures Model() == Step(old(Model()), MarkFailed(token, retry, now))
    {
      ok := Holds(token, now);
      if ok {
        status, stage := if retry then Queued else Failed, if retry then "retry_wait" else "failed";
        executionToken, executionLeaseExpiresAt := None, None;
      }
    }

    // Filters by job id only: it overwrites whatever the row says.
    method Cancel()
      modifies this
      ensures Model() == Step(old(Model()), MarkCancelled)
    {
      status, stage := Cancelled, "cancelled";
      executionToken, executionLeaseExpiresAt := None, None;
    }

    method ClearCancelledExpired(now: int) returns (ok: bool)
      modifies this
      ensures ok == Enabled(old(Model()), ClearCancelled(now))
      ensures Model() == Step(old(Model()), ClearCancelled(now))
    {
      ok := status == CancelRequested && executionLeaseExpiresAt.Some? && executionLeaseExpiresAt.value < now;
      if ok {
        Cancel();
      }
    }

    method CancelRequest() returns (ok: bool)
      modifies this
      ensures ok == Enabled(old(Model()), RequestCancel)
      ensures Model() == Step(old(Model()), RequestCancel)
    {
      ok := status == Queued || status == Processing;
      if status == Queued {
        status, stage := Cancelled, "cancelled";
      } else if status == Processing {
        status, stage := CancelRequested, "cancel_requested";
      }
    }

    method ResumeRequest() returns (ok: bool)
      modifies this
      ensures ok == Enabled(old(Model()), Resume)
      ensures Model() == Step(old(Model()), Resume)
    {
      ok := status == Cancelled;
      if ok {
        status, stage, progress := Queued, "queued", 0;
      }
    }
  }

  // --- Runs ---------------------------------------------------------------------------------------

  const INITIAL := Row(Queued, "queued", 0, None, None, None)

  function After(row: Row, run: seq<Action>): Row {
    if run == [] then row else Step(After(row, run[..|run| - 1]), run[|run| - 1])
  }

  // The row that the i-th action of the run meets.
  function At(run: seq<Action>, i: nat): Row
    requires i <= |run|
  {
    After(INITIAL, run[..i])
  }

  predicate Succeeds(run: seq<Action>, i: nat)
    requires i < |run|
  {
    Enabled(At(run, i), run[i])
  }

  // A claim never draws a token that an earlier claim already stored.
  predicate FreshTokens(run: seq<Action>) {
    forall i, k :: 0 <= i < k < |run| && IsClaim(run[i]) && Succeeds(run, i) && IsClaim(run[k]) ==>
        run[i].holder != run[k].holder
  }

  lemma NextRow(run: seq<Action>, i: nat)
    requires i < |run|
    ensures At(run, i + 1) == Step(At(run, i), run[i])
  {
    assert run[..i + 1][..i] == run[..i];
  }

  // A row carries a token and a lease exactly while it is being processed or its cancellation is pending.
  predicate Valid(row: Row) {
    (row.token.Some? <==> row.lease.Some?)
    && (row.token.Some? <==> row.status == Processing || row.status == CancelRequested)
  }

  lemma {:induction false} AlwaysValid(run: seq<Action>, i: nat)
    requires i <= |run|
    ensures Valid(At(run, i))
  {
    if i > 0 {
      AlwaysValid(run, i - 1);
      NextRow(run, i - 1);
    }
  }

  predicate ClaimedAt(run: seq<Action>, i: nat, t: Token)
    requires i < |run|
  {
    IsClaim(run[i]) && run[i].holder == t && Succeeds(run, i)
  }

  // A token on the row got there by a successful claim and has been on it ever since.
  lemma {:induction false} Tenure(run: seq<Action>, k: nat, t: Token) returns (i: nat)
    requires k <= |run| && At(run, k).token == Some(t)
    ensures i < k && ClaimedAt(run, i, t)
    ensures forall j :: i < j <= k ==> At(run, j).token == Some(t)
  {
    assert k > 0;
    NextRow(run, k - 1);
    if ClaimedAt(run, k - 1, t) {
      i := k - 1;
    } else {
      i := Tenure(run, k - 1, t);
    }
  }

  // Whoever succeeds with a token claimed it, and no other claim, release or end came in between.
  lemma HolderOnly(run: seq<Action>, k: nat) returns (i: nat)
    requires k < |run| && Succeeds(run, k)
    requires run[k].Release? || LeaseChecked(run[k])
    ensures i < k && ClaimedAt(run, i, run[k].holder)
    ensures forall j :: i < j <= k ==> At(run, j).token == Some(run[k].holder)
    ensures forall j :: i < j < k && IsClaim(run[j]) && run[j].holder != run[k].holder ==> !Succeeds(run, j)
  {
    i := Tenure(run, k, run[k].holder);
    forall j | i < j < k && IsClaim(run[j]) && run[j].holder != run[k].holder ensures !Succeeds(run, j) {
      NextRow(run, j);
    }
  }

  // Once a token has left the row, the row never carries it again...
  lemma {:induction false} GoneForGood(run: seq<Action>, i: nat, j: nat, k: nat, t: Token)
    requires FreshTokens(run)
    requires i < j <= k <= |run|
    requires At(run, i).token == Some(t) && At(run, j).token != Some(t)
    ensures At(run, k).token != Some(t)
  {
    if At(run, k).token == Some(t) {
      var first := Tenure(run, i, t);
      var second := Tenure(run, k, t);
    }
  }

  // ... and nothing that presents it succeeds.
  lemma Fencing(run: seq<Action>, i: nat, j: nat, k: nat, t: Token)
    requires FreshTokens(run)
    requires i < j <= k < |run|
    requires At(run, i).token == Some(t) && At(run, j).token != Some(t)
    requires Carries(run[k], t)
    ensures !Succeeds(run, k)
  {
    if Succeeds(run, k) {
      NextRow(run, k);
      GoneForGood(run, i, j, k, t);
      assert IsClaim(run[k]);
      GoneForGood(run, i, j, k + 1, t);
    }
  }

  // --- Leases -------------------------------------------------------------------------------------

  predicate ActsAfter(a: Action, now: int) {
    match a
    case ClaimStale(_, _, n) => n >= now
    case ClaimForRecovery(_, _, n) => n >= now
    case Refresh(_, _, n) => n >= now
    case UpdateStage(_, _, _, _, n) => n >= now
    case MarkCompleted(_, n) => n >= now
    case MarkFailed(_, _, n) => n >= now
    case ClearCancelled(n) => n >= now
    case _ => true
  }

  // The holder's lease-checked actions and a takeover are never enabled at one time; except at the very
  // instant of expiry, one of them is.
  lemma TakeoverXorHolder(row: Row, t: Token, taker: Token, expiry: int, now: int)
    requires Valid(row) && HeldBy(row, t)
    ensures !(Enabled(row, Refresh(t, expiry, now)) && Enabled(row, ClaimStale(taker, expiry, now)))
    ensures row.lease != Some(now) ==>
      (Enabled(row, Refresh(t, expiry, now)) <==> !Enabled(row, ClaimStale(taker, expiry, now)))
    ensures Enabled(row, ClaimStale(taker, expiry, now)) == Enabled(row, ClaimForRecovery(taker, expiry, now))
  {
  }

  // A lease that has run out is never revived: from then on no lease-checked action of that holder succeeds,
  // however the actors interleave.
  lemma {:induction false} ExpiredNeverRevived(run: seq<Action>, i: nat, k: nat, now: int)
    requires FreshTokens(run) && i <= k < |run|
    requires At(run, i).token.Some? && At(run, i).lease.Some? && At(run, i).lease.value <= now
    requires forall j :: i <= j < |run| ==> ActsAfter(run[j], now)
    requires LeaseChecked(run[k]) && Carries(run[k], At(run, i).token.value)
    ensures !Succeeds(run, k)
  {
    var t := At(run, i).token.value;
    StillExpired(run, i, k, now);
    if At(run, k).token != Some(t) {
      if i < k {
        Fencing(run, i, k, k, t);
      }
    }
  }

  lemma {:induction false} StillExpired(run: seq<Action>, i: nat, k: nat, now: int)
    requires FreshTokens(run) && i <= k <= |run|
    requires At(run, i).token.Some? && At(run, i).lease.Some? && At(run, i).lease.value <= now
    requires forall j :: i <= j < |run| ==> ActsAfter(run[j], now)
    ensures At(run, k).token == At(run, i).token ==> At(run, k).lease == At(run, i).lease
  {
    if i < k {
      var t := At(run, i).token.value;
      StillExpired(run, i, k - 1, now);
      NextRow(run, k - 1);
      if At(run, k).token == Some(t) {
        if At(run, k - 1).token != Some(t) {
          GoneForGood(run, i, k - 1, k, t);
        } else {
          var first := Tenure(run, k - 1, t);
          assert IsClaim(run[first]) && Succeeds(run, first);
          assert !(IsClaim(run[k - 1]) && run[k - 1].holder == t);
        }
      }
    }
  }

  // --- Completion is not final ---------------------------------------------------------------------

  // A completed row changes exactly when somebody marks it cancelled.
  lemma CompletedUntilCancelled(row: Row, a: Action)
    requires Valid(row) && row.status == Completed
    ensures Step(row, a) != row <==> a.MarkCancelled?
  {
  }

  // And that happens: a worker whose lease was taken over and completed by another marks it cancelled, and
  // a user then resumes it.
  function UndoingRun(): seq<Action> {
    [ClaimQueued(1, 5), ClaimStale(2, 20, 10), MarkCompleted(2, 12), MarkCancelled, Resume]
  }

  lemma UndoneLater()
    ensures FreshTokens(UndoingRun()) && At(UndoingRun(), 3).status == Completed
  {
    var run := UndoingRun();
    NextRow(run, 0);
    NextRow(run, 1);
    NextRow(run, 2);
  }

  lemma CompletionCanBeUndone()
    ensures
      var run := UndoingRun();
      FreshTokens(run) && At(run, 3).status == Completed && At(run, 4).status == Cancelled
        && At(run, 5).status == Queued
  {
    UndoneLater();
    hide FreshTokens;
    NextRow(UndoingRun(), 3);
    NextRow(UndoingRun(), 4);
  }
}
