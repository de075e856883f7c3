/** How often the publication that a reset asks for is made: at least once, and exactly when it may be repeated. */
module OutboxPublications {
  import opened JobOutbox
  import opened Numerals
  import L = ProcessingLease

  function TwiceRun(): seq<Action> {
    [Claim(1, 10, 0), ReadJob(1), Publish(1, true), Claim(2, 40, 20), ReadJob(2), Publish(2, true)]
  }

  lemma OncePublished(kind: Kind)
    ensures At(kind, TwiceRun(), 2)
        == Initial(kind).(row := Row(Dispatching, Some(1), Some(10)), dispatchers := map[1 := SawQueued])
  {
    NextState(kind, TwiceRun(), 0);
    NextState(kind, TwiceRun(), 1);
  }

  // Publishing is at least once, not exactly once: a dispatcher may lose its lease after publishing.
  lemma MayPublishTwice(kind: Kind)
    ensures Happens(kind, TwiceRun(), 2) && Happens(kind, TwiceRun(), 5) && NoReset(kind, TwiceRun(), 0, 6)
    ensures TwiceRun()[2] == Publish(1, true) && TwiceRun()[5] == Publish(2, true)
  {
    OncePublished(kind);
    NextState(kind, TwiceRun(), 2);
    NextState(kind, TwiceRun(), 3);
    NextState(kind, TwiceRun(), 4);
    hide After, L.Step, L.Enabled, L.Effect;
  }

  // --- How often one reset is published ---------------------------------------------------------------------

  predicate Publishes(s: State, a: Action) {
    a.Publish? && a.ok && Enabled(s, a)
  }

  // The publications since the latest reset before step k.
  function Publications(kind: Kind, run: seq<Action>, k: nat): nat
    requires k <= |run|
  {
    if k == 0 then 0
    else if run[k - 1].Reset? && Happens(kind, run, k - 1) then 0
    else Publications(kind, run, k - 1) + if Publishes(At(kind, run, k - 1), run[k - 1]) then 1 else 0
  }

  // Steps that keep to the lease: only the holder publishes, nobody takes the row from a dispatcher that has
  // published, and such a dispatcher does not give the row back.
  predicate Clean(s: State, a: Action) {
    match a
    case Publish(t, ok) => ok ==> s.row.token == Some(t)
    case Claim(_, _, _) => s.row.token.Some? ==> !In(s, s.row.token.value, Published)
    case WriteFailed(t) => In(s, t, Published) ==> s.row.token != Some(t)
    case _ => true
  }

  predicate CleanUpTo(kind: Kind, run: seq<Action>, k: nat)
    requires k <= |run|
  {
    forall j :: 0 <= j < k && Happens(kind, run, j) ==> Clean(At(kind, run, j), run[j])
  }

  predicate HolderPublished(s: State) {
    s.row.token.Some? && In(s, s.row.token.value, Published)
  }

  // The publication has been recorded, or the dispatcher that made it still holds the row.
  predicate Accounted(s: State) {
    s.row.status == Sent || HolderPublished(s)
  }

  lemma CleanStep(s: State, a: Action)
    requires Valid(s) && Clean(s, a) && Enabled(s, a) && !a.Reset?
    ensures Accounted(s) ==> !Publishes(s, a)
    ensures Accounted(s) || Publishes(s, a) ==> Accounted(Step(s, a))
  {
    hide L.Step, L.Effect, L.Enabled, WorkersAfter, MayRun, BeingCancelled;
  }

  // If every step keeps to the lease, nothing is published twice between two resets.
  lemma {:induction false} AtMostOnce(kind: Kind, run: seq<Action>, k: nat)
    requires k <= |run| && CleanUpTo(kind, run, k)
    ensures Publications(kind, run, k) <= 1 && (Publications(kind, run, k) == 1 ==> Accounted(At(kind, run, k)))
  {
    if k > 0 {
      hide Valid, Accounted, Clean, Enabled, Effect, At;
      AtMostOnce(kind, run, k - 1);
      AlwaysValid(kind, run, k - 1);
      NextState(kind, run, k - 1);
      if Happens(kind, run, k - 1) && !run[k - 1].Reset? {
        CleanStep(At(kind, run, k - 1), run[k - 1]);
      }
    }
  }

  // --- When a further publication is possible ------------------------------------------------------------------

  predicate Revivable(s: State) {
    s.kind == ResourceJob && (BeingCancelled(s.job) || s.workers != {})
  }

  // Can the job be found queued once more before the row is reset? A job that has ended comes back only by way of
  // a cancellation, and without a reset only if the job has a queue job to find again.
  predicate MayBeQueued(s: State) {
    || s.job.status == L.Queued
    || s.job.status == L.Processing
    || (s.job.queueJobId.Some? && Revivable(s))
  }

  // A dispatcher has found the job queued; or one is about to read it, or can claim the row and then read it, and
  // by then the job may be queued. Writing down a publication gives the job its queue job.
  ghost predicate MayStillPublish(s: State) {
    || (exists t :: In(s, t, SawQueued))
    || (MayBeQueued(s) && (s.row.status == Pending || s.row.status == Dispatching))
    || ((MayBeQueued(s) || (HolderPublished(s) && Revivable(s))) && exists t :: In(s, t, Claimed))
  }

  // Some continuation without a reset publishes again.
  ghost predicate AnotherFollows(kind: Kind, run: seq<Action>) {
    exists more: seq<Action> :: PublishesMore(kind, run, more)
  }

  predicate PublishesMore(kind: Kind, run: seq<Action>, more: seq<Action>) {
    Publications(kind, run + more, |run + more|) > Publications(kind, run, |run|)
      && NoReset(kind, run + more, |run|, |run + more|)
  }

  lemma {:induction false} PublicationsOfPrefix(kind: Kind, run: seq<Action>, more: seq<Action>, k: nat)
    requires k <= |run|
    ensures Publications(kind, run + more, k) == Publications(kind, run, k)
        && At(kind, run + more, k) == At(kind, run, k)
  {
    assert (run + more)[..k] == run[..k];
    if k > 0 {
      assert (run + more)[..k - 1] == run[..k - 1];
      PublicationsOfPrefix(kind, run, more, k - 1);
    }
  }

  // A decided row with nobody on the way stays so, and is not published again, until it is reset.
  lemma {:induction false} NothingFollows(kind: Kind, run: seq<Action>, more: seq<Action>, k: nat)
    requires |run| <= k <= |run + more| && !MayStillPublish(After(kind, run)) && NoReset(kind, run + more, |run|, k)
    ensures !MayStillPublish(At(kind, run + more, k))
        && Publications(kind, run + more, k) == Publications(kind, run, |run|)
  {
    PublicationsOfPrefix(kind, run, more, |run|);
    if k == |run| {
      assert run[..|run|] == run;
    } else {
      hide MayStillPublish, Enabled, Effect, After, Valid;
      NothingFollows(kind, run, more, k - 1);
      AlwaysValid(kind, run + more, k - 1);
      NextState(kind, run + more, k - 1);
      DecidedStays(At(kind, run + more, k - 1), (run + more)[k - 1]);
    }
  }

  lemma DecidedStays(s: State, a: Action)
    requires Valid(s) && !MayStillPublish(s) && (a.Reset? ==> !Enabled(s, a))
    ensures !MayStillPublish(Step(s, a)) && (a.Publish? ==> !Enabled(s, a))
  {
    var s' := Step(s, a);
    if a.Claim? && Enabled(s, a) {
      assert !MayBeQueued(s) && !MayBeQueued(s') && !HolderPublished(s');
    } else {
      forall t | In(s', t, Claimed) ensures In(s, t, Claimed) {
      }
    }
    forall t ensures !In(s', t, SawQueued) {
      assert !In(s, t, SawQueued);
    }
  }

  lemma {:induction false} FreshToken(taken: set<Token>) returns (t: Token)
    ensures forall u :: u in taken ==> u < t
  {
    if taken == {} {
      t := 0;
    } else {
      var u :| u in taken;
      var v := FreshToken(taken - {u});
      t := if u < v then v else u + 1;
      forall w | w in taken ensures w < t {
        assert w == u || w in taken - {u};
      }
    }
  }

  lemma OneMore(kind: Kind, run: seq<Action>, a: Action)
    ensures After(kind, run + [a]) == Step(After(kind, run), a)
    ensures !a.Reset? ==> NoReset(kind, run + [a], |run|, |run| + 1)
    ensures !a.Reset? ==>
              Publications(kind, run + [a], |run| + 1)
              == Publications(kind, run, |run|) + if Publishes(After(kind, run), a) then 1 else 0
  {
    assert (run + [a])[..|run|] == run && (run + [a])[..|run| + 1] == run + [a];
    assert run[..|run|] == run;
    PublicationsOfPrefix(kind, run, [a], |run|);
  }

  lemma StateValid(kind: Kind, run: seq<Action>)
    ensures Valid(After(kind, run))
  {
    AlwaysValid(kind, run, |run|);
    assert run[..|run|] == run;
  }

  // Taking a step that is not a reset first does not hide a later publication.
  lemma LaterPublication(kind: Kind, run: seq<Action>, a: Action)
    requires !a.Reset? && AnotherFollows(kind, run + [a])
    ensures AnotherFollows(kind, run)
  {
    var more :| PublishesMore(kind, run + [a], more);
    OneMore(kind, run, a);
    assert run + ([a] + more) == run + [a] + more;
    assert PublishesMore(kind, run, [a] + more);
  }

  lemma SawQueuedPublishes(kind: Kind, run: seq<Action>, t: Token)
    requires In(After(kind, run), t, SawQueued)
    ensures AnotherFollows(kind, run)
  {
    OneMore(kind, run, Publish(t, true));
    assert PublishesMore(kind, run, [Publish(t, true)]);
  }

  lemma QueuedPublishes(kind: Kind, run: seq<Action>, t: Token)
    requires In(After(kind, run), t, Claimed) && After(kind, run).job.status == L.Queued
    ensures AnotherFollows(kind, run)
  {
    OneMore(kind, run, ReadJob(t));
    SawQueuedPublishes(kind, run + [ReadJob(t)], t);
    LaterPublication(kind, run, ReadJob(t));
  }

  // A job in execution is taken over by a recoverer, at the latest once its lease is over, and queued again.
  lemma ProcessingPublishes(kind: Kind, run: seq<Action>, t: Token)
    requires In(After(kind, run), t, Claimed) && After(kind, run).job.status == L.Processing
    ensures AnotherFollows(kind, run)
  {
    StateValid(kind, run);
    var s := After(kind, run);
    var recoverer := FreshToken(s.workers);
    var takeOver := JobStep(L.ClaimForRecovery(recoverer, 0, s.job.lease.value + 1));
    var release := JobStep(L.Release(recoverer, ""));
    OneMore(kind, run, takeOver);
    OneMore(kind, run + [takeOver], release);
    hide After, AnotherFollows;
    QueuedPublishes(kind, run + [takeOver] + [release], t);
    LaterPublication(kind, run + [takeOver], release);
    LaterPublication(kind, run, takeOver);
  }

  lemma CancelledPublishes(kind: Kind, run: seq<Action>, t: Token)
    requires In(After(kind, run), t, Claimed) && After(kind, run).kind == ResourceJob
    requires After(kind, run).job.status == L.Cancelled && After(kind, run).job.queueJobId.Some?
    ensures AnotherFollows(kind, run)
  {
    OneMore(kind, run, Requeue);
    QueuedPublishes(kind, run + [Requeue], t);
    LaterPublication(kind, run, Requeue);
  }

  lemma CancelRequestedPublishes(kind: Kind, run: seq<Action>, t: Token)
    requires In(After(kind, run), t, Claimed) && After(kind, run).kind == ResourceJob
    requires After(kind, run).job.status == L.CancelRequested && After(kind, run).job.queueJobId.Some?
    ensures AnotherFollows(kind, run)
  {
    StateValid(kind, run);
    var clear := JobStep(L.ClearCancelled(After(kind, run).job.lease.value + 1));
    OneMore(kind, run, clear);
    hide After, AnotherFollows;
    CancelledPublishes(kind, run + [clear], t);
    LaterPublication(kind, run, clear);
  }

  // A job with a queue job that is being cancelled, or that some worker may yet mark cancelled, can be resumed.
  lemma RevivedPublishes(kind: Kind, run: seq<Action>, t: Token)
    requires In(After(kind, run), t, Claimed) && Revivable(After(kind, run))
    requires After(kind, run).job.queueJobId.Some?
    ensures AnotherFollows(kind, run)
  {
    hide After, AnotherFollows;
    var s := After(kind, run);
    if s.job.status == L.Cancelled {
      CancelledPublishes(kind, run, t);
    } else if s.job.status == L.CancelRequested {
      CancelRequestedPublishes(kind, run, t);
    } else {
      var worker :| worker in s.workers;
      OneMore(kind, run, MarksCancelled(worker));
      CancelledPublishes(kind, run + [MarksCancelled(worker)], t);
      LaterPublication(kind, run, MarksCancelled(worker));
    }
  }

  lemma ClaimedPublishes(kind: Kind, run: seq<Action>, t: Token)
    requires In(After(kind, run), t, Claimed) && MayBeQueued(After(kind, run))
    ensures AnotherFollows(kind, run)
  {
    hide After, AnotherFollows, Revivable;
    if After(kind, run).job.status == L.Queued {
      QueuedPublishes(kind, run, t);
    } else if After(kind, run).job.status == L.Processing {
      ProcessingPublishes(kind, run, t);
    } else {
      RevivedPublishes(kind, run, t);
    }
  }

  lemma ClaimedLaterPublishes(kind: Kind, run: seq<Action>, t: Token)
    requires In(After(kind, run), t, Claimed) && HolderPublished(After(kind, run)) && Revivable(After(kind, run))
    ensures AnotherFollows(kind, run)
  {
    StateValid(kind, run);
    var sent := WriteSent(After(kind, run).row.token.value, "");
    OneMore(kind, run, sent);
    RevivedPublishes(kind, run + [sent], t);
    LaterPublication(kind, run, sent);
  }

  lemma UndecidedPublishes(kind: Kind, run: seq<Action>)
    requires After(kind, run).row.status == Pending || After(kind, run).row.status == Dispatching
    requires MayBeQueued(After(kind, run))
    ensures AnotherFollows(kind, run)
  {
    StateValid(kind, run);
    var s := After(kind, run);
    var t := FreshToken(s.dispatchers.Keys);
    var claim := Claim(t, 0, if s.row.lease.Some? then s.row.lease.value + 1 else 0);
    OneMore(kind, run, claim);
    ClaimedPublishes(kind, run + [claim], t);
    LaterPublication(kind, run, claim);
  }

  // A further publication before the next reset is possible exactly then.
  lemma PublishedAgainExactly(kind: Kind, run: seq<Action>)
    ensures AnotherFollows(kind, run) <==> MayStillPublish(After(kind, run))
  {
    hide After, MayBeQueued, HolderPublished, Revivable, PublishesMore;
    var s := After(kind, run);
    if t :| In(s, t, SawQueued) {
      SawQueuedPublishes(kind, run, t);
    } else if MayBeQueued(s) && (s.row.status == Pending || s.row.status == Dispatching) {
      UndecidedPublishes(kind, run);
    } else if t :| In(s, t, Claimed) && MayBeQueued(s) {
      ClaimedPublishes(kind, run, t);
    } else if t :| In(s, t, Claimed) && HolderPublished(s) && Revivable(s) {
      ClaimedLaterPublishes(kind, run, t);
    } else if more :| PublishesMore(kind, run, more) {
      NothingMore(kind, run, more);
    }
  }

  lemma NothingMore(kind: Kind, run: seq<Action>, more: seq<Action>)
    requires PublishesMore(kind, run, more)
    ensures MayStillPublish(After(kind, run))
  {
    hide MayStillPublish;
    if !MayStillPublish(After(kind, run)) {
      NothingFollows(kind, run, more, |run + more|);
    }
  }

  // A job that is cancelled before its row was dispatched is not published, until it is resumed.
  lemma CancelledUndispatched()
    ensures !AnotherFollows(ResourceJob, [JobStep(L.RequestCancel)])
  {
    OneMore(ResourceJob, [], JobStep(L.RequestCancel));
    assert [] + [JobStep(L.RequestCancel)] == [JobStep(L.RequestCancel)];
    PublishedAgainExactly(ResourceJob, [JobStep(L.RequestCancel)]);
  }

  // The first dispatcher publishes after another one has taken the row over and discarded it.
  function LateRun(): seq<Action> {
    [Claim(1, 5, 0), ReadJob(1), Claim(2, 20, 10), JobStep(L.RequestCancel), ReadJob(2), WriteDiscarded(2)]
  }

  lemma LateTakeover()
    ensures At(ResourceJob, LateRun(), 3)
        == State(ResourceJob, Row(Dispatching, Some(2), Some(20)), L.INITIAL, {}, map[1 := SawQueued, 2 := Claimed])
  {
    NextState(ResourceJob, LateRun(), 0);
    NextState(ResourceJob, LateRun(), 1);
    NextState(ResourceJob, LateRun(), 2);
  }

  lemma LateState()
    ensures After(ResourceJob, LateRun()) ==
            State(ResourceJob, Row(Discarded, None, None), L.Effect(L.INITIAL, L.RequestCancel), {},
                  map[1 := SawQueued, 2 := Finished])
  {
    hide After;
    LateTakeover();
    NextState(ResourceJob, LateRun(), 3);
    NextState(ResourceJob, LateRun(), 4);
    NextState(ResourceJob, LateRun(), 5);
    assert LateRun()[..6] == LateRun();
  }

  lemma {:induction false} NonePublished(kind: Kind, run: seq<Action>, k: nat)
    requires k <= |run| && forall j :: 0 <= j < k ==> !run[j].Publish?
    ensures Publications(kind, run, k) == 0
  {
    if k > 0 {
      NonePublished(kind, run, k - 1);
    }
  }

  // The converse of AtMostOnce fails: a late publication may be the only one, and remain so.
  lemma LateYetOnce()
    ensures
      var late, run := Publish(1, true), LateRun() + [Publish(1, true)];
      && Enabled(After(ResourceJob, LateRun()), late) && !Clean(After(ResourceJob, LateRun()), late)
      && Publications(ResourceJob, run, |run|) == 1 && !AnotherFollows(ResourceJob, run)
  {
    LateState();
    NonePublished(ResourceJob, LateRun(), |LateRun()|);
    OneMore(ResourceJob, LateRun(), Publish(1, true));
    hide After, LateRun, Publications;
    PublishedAgainExactly(ResourceJob, LateRun() + [Publish(1, true)]);
  }
}
