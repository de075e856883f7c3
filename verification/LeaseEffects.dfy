/** What every statement on a processing job brings about: who may act on the row next, and until when. */
module LeaseEffects {
  import opened Numerals
  import opened ProcessingLease

  predicate SetsLease(a: Action) {
    IsClaim(a) || a.Refresh? || a.UpdateStage?
  }

  // Can a worker or a recoverer that is new to the row take it at that time?
  predicate Open(row: Row, newcomer: Token, now: int) {
    || Enabled(row, ClaimQueued(newcomer, now))
    || Enabled(row, ClaimStale(newcomer, now, now))
    || Enabled(row, ClaimForRecovery(newcomer, now, now))
  }

  predicate MaySettle(row: Row, t: Token, now: int) {
    && Enabled(row, MarkCompleted(t, now))
    && Enabled(row, MarkFailed(t, true, now)) && Enabled(row, MarkFailed(t, false, now))
  }

  // A claim, a heartbeat and a progress report keep the row for their holder up to the expiry they name: before it
  // only the holder may settle, report or extend, after it anybody may take over, and nobody else may ever settle.
  lemma LeaseRunsTo(row: Row, a: Action, later: int, newcomer: Token)
    requires SetsLease(a) && Enabled(row, a) && newcomer != a.holder
    ensures var row' := Step(row, a);
            && (Open(row', newcomer, later) <==> a.expiry < later)
            && (MaySettle(row', a.holder, later) <==> later < a.expiry)
            && (Enabled(row', Refresh(a.holder, later, later)) <==> later < a.expiry)
            && (Enabled(row', UpdateStage(a.holder, "", 0, later, later)) <==> later < a.expiry)
            && !MaySettle(row', newcomer, later) && Enabled(row', Release(a.holder, ""))
            && !Enabled(row', Release(newcomer, ""))
  {
  }

  // What a user is shown, and the queue job, after each statement.
  lemma ShownAfter(row: Row, a: Action)
    requires Enabled(row, a)
    ensures var row' := Step(row, a);
            && (row'.stage, row'.progress) ==
               match a {
                 case ClaimQueued(_, _) => ("parsing", 10)
                 case ClaimStale(_, _, _) => ("parsing", 10)
                 case ClaimForRecovery(_, _, _) => ("recovery_pending", row.progress)
                 case Refresh(_, _, _) => (row.stage, row.progress)
                 case UpdateStage(_, stage, progress, _, _) => (stage, progress)
                 case Release(_, _) => ("queued", 0)
                 case MarkCompleted(_, _) => ("completed", 100)
                 case MarkFailed(_, retry, _) => (if retry then "retry_wait" else "failed", row.progress)
                 case MarkCancelled => ("cancelled", row.progress)
                 case ClearCancelled(_) => ("cancelled", row.progress)
                 case RequestCancel => (if row.status == Queued then "cancelled" else "cancel_requested", row.progress)
                 case Resume => ("queued", 0)
               }
            && row'.queueJobId == if a.Release? then Some(a.queueJobId) else row.queueJobId
  {
  }

  // A row that has been given back can be claimed at once; one that is settled never, and only a cancelled one can
  // be resumed.
  lemma SettledOrGivenBack(row: Row, a: Action, newcomer: Token, later: int)
    requires Enabled(row, a) && !SetsLease(a) && !a.RequestCancel?
    ensures var row' := Step(row, a);
            && (Open(row', newcomer, later) <==> a.Release? || a.Resume? || (a.MarkFailed? && a.retry))
            && (Enabled(row', Resume) <==> a.MarkCancelled? || a.ClearCancelled?)
            && (row'.status == Completed <==> a.MarkCompleted?)
            && (row'.status == Failed <==> a.MarkFailed? && !a.retry)
            && !MaySettle(row', newcomer, later)
  {
  }

  // Asking for cancellation ends a queued job at once. One in execution may no longer be settled or taken over; it
  // is cleared once its lease is over.
  lemma CancellationAsked(row: Row, newcomer: Token, t: Token, later: int)
    requires Valid(row) && Enabled(row, RequestCancel)
    ensures var row' := Step(row, RequestCancel);
            && !Open(row', newcomer, later) && !MaySettle(row', t, later)
            && (Enabled(row', Resume) <==> row.status == Queued)
            && (Enabled(row', ClearCancelled(later)) <==> row.status == Processing && row.lease.value < later)
  {
  }

  // A job can be asked to stop exactly while somebody may execute it, now or when the lease on it is over.
  lemma CancellableExactly(row: Row, newcomer: Token)
    requires Valid(row)
    ensures Enabled(row, RequestCancel) <==> exists later: int :: Open(row, newcomer, later)
  {
    if row.lease.Some? {
      var later := row.lease.value + 1;
      assert Open(row, newcomer, later) <==> row.status == Processing;
    } else {
      assert Open(row, newcomer, 0) <==> row.status == Queued;
    }
  }

  // --- Over a run ------------------------------------------------------------------------------------

  // Nobody cancels, the holder does not let go, and nobody takes over later than the lease that is then on the row.
  predicate LeavesAlone(row: Row, a: Action, t: Token) {
    && !a.MarkCancelled? && !a.RequestCancel?
    && !((a.Release? || a.MarkCompleted? || a.MarkFailed?) && a.holder == t)
    && (a.ClaimStale? || a.ClaimForRecovery? ==> row.lease.Some? && a.now <= row.lease.value)
  }

  // The expiry that the holder has named last, in a step that succeeded.
  function LastNamed(run: seq<Action>, i: nat, k: nat, t: Token): int
    requires i <= k <= |run|
  {
    if k == i then (if At(run, i).lease.Some? then At(run, i).lease.value else 0)
    else if SetsLease(run[k - 1]) && run[k - 1].holder == t && Succeeds(run, k - 1) then run[k - 1].expiry
    else LastNamed(run, i, k - 1, t)
  }

  // A holder keeps the row as long as it extends its lease before it is over, whatever else is tried.
  lemma {:induction false} HeartbeatKeeps(run: seq<Action>, i: nat, k: nat, t: Token)
    requires i <= k <= |run| && HeldBy(At(run, i), t)
    requires forall j :: i <= j < k ==> LeavesAlone(At(run, j), run[j], t)
    ensures HeldBy(At(run, k), t) && At(run, k).lease == Some(LastNamed(run, i, k, t))
  {
    if k == i {
      AlwaysValid(run, i);
    } else {
      HeartbeatKeeps(run, i, k - 1, t);
      NextRow(run, k - 1);
      assert LeavesAlone(At(run, k - 1), run[k - 1], t);
      hide At;
    }
  }
}
