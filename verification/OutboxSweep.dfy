/** What the steps of a dispatcher achieve, and that its loop is made of them. */
module OutboxSweep {
  import opened JobOutbox
  import opened Numerals
  import L = ProcessingLease

  // --- What each step achieves ---------------------------------------------------------------------

  // Can some dispatcher that is new to the row claim it at that time?
  predicate Open(s: State, newcomer: Token, now: int) {
    Enabled(s, Claim(newcomer, now, now))
  }

  // A claim keeps everybody else off the row until the lease is over, and no longer.
  lemma ClaimHoldsUntil(s: State, t: Token, expiry: int, now: int, newcomer: Token, later: int)
    requires Enabled(s, Claim(t, expiry, now)) && newcomer !in s.dispatchers && newcomer != t
    ensures Open(Step(s, Claim(t, expiry, now)), newcomer, later) <==> expiry < later
  {
  }

  // What the holder of the row writes: a publication and a discarded row are final, a failure hands the row back.
  lemma HolderDecides(s: State, t: Token, write: Action, newcomer: Token, later: int)
    requires Holds(s, t) && newcomer !in s.dispatchers && newcomer != t
    requires write.WriteSent? || write.WriteDiscarded? || write.WriteFailed?
    requires write.token == t && Enabled(s, write)
    ensures Open(Step(s, write), newcomer, later) <==> write.WriteFailed?
    ensures Step(s, write).row.status ==
            if In(s, t, SawNotQueued) then Discarded else if write.WriteSent? then Sent else Pending
  {
  }

  // A dispatcher that no longer holds the row changes nothing but itself.
  lemma OthersDecideNothing(s: State, t: Token, write: Action)
    requires !Holds(s, t) && (write.WriteSent? || write.WriteDiscarded? || write.WriteFailed?) && write.token == t
    ensures Step(s, write).row == s.row && Step(s, write).job == s.job
  {
  }

  // The steps of a run from any state, each of which its actor can take.
  function RunFrom(s: State, steps: seq<Action>): Option<State>
    decreases |steps|
  {
    if steps == [] then Some(s)
    else if Enabled(s, steps[0]) then RunFrom(Step(s, steps[0]), steps[1..]) else None
  }

  // What one dispatcher does with a row, undisturbed.
  function Visit(t: Token, expiry: int, now: int, queued: bool, ok: bool, id: string): seq<Action> {
    [Claim(t, expiry, now), ReadJob(t)]
    + if !queued then [WriteDiscarded(t)] else [Publish(t, ok), if ok then WriteSent(t, id) else WriteFailed(t)]
  }

  // After a reset a new dispatcher can publish and mark the row sent.
  lemma ResetIsPublished(s: State, t: Token, expiry: int, now: int, id: string)
    requires Enabled(s, Reset) && t !in s.dispatchers
    ensures var end := RunFrom(Step(s, Reset), Visit(t, expiry, now, true, true, id));
            end.Some? && end.value.row == Row(Sent, None, None) && end.value.job.queueJobId == Some(id)
  {
    VisitEnds(Step(s, Reset), t, expiry, now, true, id);
  }

  // An undisturbed visit sends, discards or hands back the row, as the job and the queue have it.
  lemma VisitEnds(s: State, t: Token, expiry: int, now: int, ok: bool, id: string)
    requires Dispatchable(s.row, now) && t !in s.dispatchers
    ensures var queued := s.job.status == L.Queued;
            var end := RunFrom(s, Visit(t, expiry, now, queued, ok, id));
            && end.Some?
            && end.value.row == Row(if !queued then Discarded else if ok then Sent else Pending, None, None)
            && end.value.job == (if queued && ok then s.job.(queueJobId := Some(id)) else s.job)
  {
    var queued := s.job.status == L.Queued;
    var claim, read := Claim(t, expiry, now), ReadJob(t);
    var s2 := Step(Step(s, claim), read);
    if queued {
      var publish, write := Publish(t, ok), if ok then WriteSent(t, id) else WriteFailed(t);
      assert Visit(t, expiry, now, true, ok, id) == [claim] + ([read] + ([publish] + ([write] + [])));
      RunCons(s2, publish, [write] + []);
      RunCons(Step(s2, publish), write, []);
      RunCons(s, claim, [read] + ([publish] + ([write] + [])));
      RunCons(Step(s, claim), read, [publish] + ([write] + []));
    } else {
      var write := WriteDiscarded(t);
      assert Visit(t, expiry, now, false, ok, id) == [claim] + ([read] + ([write] + []));
      RunCons(s2, write, []);
      RunCons(s, claim, [read] + ([write] + []));
      RunCons(Step(s, claim), read, [write] + []);
    }
    hide RunFrom;
  }

  lemma RunCons(s: State, a: Action, rest: seq<Action>)
    ensures RunFrom(s, [a] + rest) == if Enabled(s, a) then RunFrom(Step(s, a), rest) else None
    ensures RunFrom(s, []) == Some(s)
  {
    assert ([a] + rest)[1..] == rest;
  }

  // --- What happens to the job meanwhile -------------------------------------------------------------

  // A user resumes exactly a cancelled processing job; it is then found queued by whoever reads it next.
  lemma ResumedExactly(s: State, t: Token)
    ensures Enabled(s, Reset) <==> s.kind == ResourceJob && s.job.status == L.Cancelled
    ensures Enabled(s, Requeue) <==> Enabled(s, Reset) && s.job.queueJobId.Some?
    ensures In(s, t, Claimed) && Enabled(s, Reset) ==> In(Step(Step(s, Reset), ReadJob(t)), t, SawQueued)
    ensures In(s, t, Claimed) && Enabled(s, Requeue) ==>
              In(Step(Step(s, Requeue), ReadJob(t)), t, SawQueued) && Step(s, Requeue).row == s.row
  {
  }

  predicate TakesJob(step: L.Action) {
    step.ClaimQueued? || step.ClaimStale?
  }

  // A worker may mark the job cancelled once it has claimed it, until it writes how the job ended, and once it has
  // met a job that is cancelled or to be cancelled.
  lemma MarksExactly(s: State, step: L.Action, worker: L.Token)
    requires Enabled(s, JobStep(step))
    ensures Enabled(Step(s, JobStep(step)), MarksCancelled(worker)) <==>
            || (worker in s.workers && !((step.MarkCompleted? || step.MarkFailed?) && step.holder == worker))
            || (TakesJob(step) && step.holder == worker && L.Enabled(s.job, step))
    ensures Enabled(s, MeetsCancelled(worker)) <==> s.job.status == L.Cancelled || s.job.status == L.CancelRequested
    ensures Enabled(s, MeetsCancelled(worker)) ==> Enabled(Step(s, MeetsCancelled(worker)), MarksCancelled(worker))
  {
  }

  // Marking it makes it resumable, whatever it was, and can be done once.
  lemma MarkedIsResumable(s: State, worker: L.Token)
    requires Enabled(s, MarksCancelled(worker))
    ensures var s' := Step(s, MarksCancelled(worker));
            Enabled(s', Reset) && !Enabled(s', MarksCancelled(worker)) && s'.row == s.row
  {
  }

  // A finalization that fails is found queued again exactly if it is to be retried; one that has ended does not fail.
  lemma FinalizationEnds(s: State, terminal: bool, t: Token)
    requires s.kind == UploadJob && In(s, t, Claimed)
    ensures Enabled(s, FinalizationFails(terminal)) ==>
              var s' := Step(s, FinalizationFails(terminal));
              && In(Step(s', ReadJob(t)), t, if terminal then SawNotQueued else SawQueued)
              && (Enabled(s', FinalizationFails(true)) <==> !terminal)
    ensures In(Step(Step(s, FinalizationCompletes), ReadJob(t)), t, SawNotQueued)
            && !Enabled(Step(s, FinalizationCompletes), FinalizationFails(terminal))
  {
  }

  // --- The loop ---------------------------------------------------------------------------------------

  // A row that nobody holds any longer.
  predicate Due(row: Row, now: int) {
    row.status == Pending || (row.status == Dispatching && row.lease.Some? && row.lease.value < now)
  }

  // The entry as a state of the protocol, with a job that is queued or not.
  function StateOf(e: Entry): State {
    State(ResourceJob, e.row, L.INITIAL.(status := if e.jobQueued then L.Queued else L.Completed), {}, map[])
  }

  // What an undisturbed visit leaves of an entry.
  function Visited(e: Entry, now: int, ok: bool): Entry {
    match RunFrom(StateOf(e), Visit(0, now, now, e.jobQueued, ok, ""))
    case Some(end) => e.(row := end.row)
    case None => e
  }

  // The i-th entry is visited, and the queue answers that way if it is asked.
  datatype Turn = Turn(i: nat, ok: bool)

  function Replay(entries: seq<Entry>, now: int, turns: seq<Turn>): seq<Entry>
    decreases |turns|
  {
    if turns == [] || turns[0].i >= |entries| then entries
    else Replay(entries[turns[0].i := Visited(entries[turns[0].i], now, turns[0].ok)], now, turns[1..])
  }

  function Rest(publishes: seq<bool>): seq<bool> {
    if publishes == [] then [] else publishes[1..]
  }

  // Each turn goes to the oldest row that is due; the queue is asked about queued jobs only and gives its answers
  // in order, a refusal if it has none left; after a refusal there is no further turn.
  predicate InTurn(entries: seq<Entry>, now: int, publishes: seq<bool>, turns: seq<Turn>)
    decreases |turns|
  {
    turns == [] ||
    (var i, ok := turns[0].i, turns[0].ok;
     && i < |entries| && Due(entries[i].row, now) && (forall k :: 0 <= k < i ==> !Due(entries[k].row, now))
     && var asked := entries[i].jobQueued;
        && (asked ==> ok == (publishes != [] && publishes[0])) && (asked && !ok ==> turns[1..] == [])
        && var left := if asked then Rest(publishes) else publishes;
           InTurn(entries[i := Visited(entries[i], now, ok)], now, left, turns[1..]))
  }

  lemma VisitedIs(e: Entry, now: int, ok: bool)
    requires Due(e.row, now)
    ensures Visited(e, now, ok)
         == e.(row := Row(if !e.jobQueued then Discarded else if ok then Sent else Pending, None, None))
  {
    VisitEnds(StateOf(e), 0, now, now, ok, "");
  }

  // The loop is a run of undisturbed visits, and it stops only at a refusal, at its limit, or with nothing due.
  lemma {:induction false} LoopIsVisits(entries: seq<Entry>, now: int, limit: nat, publishes: seq<bool>)
    returns (turns: seq<Turn>)
    ensures var (after, t) := Dispatched(entries, now, limit, publishes);
            && after == Replay(entries, now, turns) && InTurn(entries, now, publishes, turns)
            && |turns| == t.dispatched + t.discarded + t.failed <= limit
            && (t.failed == 0 && |turns| < limit ==> forall k :: 0 <= k < |after| ==> !Due(after[k].row, now))
    decreases limit
  {
    var i := FirstDispatchable(entries, now);
    turns := [];
    if limit > 0 && i < |entries| {
      var asked, ok := entries[i].jobQueued, publishes != [] && publishes[0];
      var next := entries[i := Visited(entries[i], now, ok)];
      VisitedIs(entries[i], now, ok);
      hide Visited, FirstDispatchable;
      if asked && !ok {
        turns := [Turn(i, ok)];
        assert turns[1..] == [];
      } else {
        var rest := LoopIsVisits(next, now, limit - 1, if asked then Rest(publishes) else publishes);
        turns := [Turn(i, ok)] + rest;
        assert turns[1..] == rest;
      }
    }
  }

  // So a row becomes sent only for a queued job and discarded only for another, no job changes, and the rows sent
  // have used up as many answers of the queue, all of them acceptances.
  lemma {:induction false} LoopDecides(entries: seq<Entry>, now: int, limit: nat, publishes: seq<bool>)
    ensures var (after, t) := Dispatched(entries, now, limit, publishes);
            && |after| == |entries|
            && (forall k :: 0 <= k < |entries| ==> Decided(entries[k], after[k], now))
            && t.dispatched <= |publishes| && (forall j :: 0 <= j < t.dispatched ==> publishes[j])
            && (t.failed > 0 ==> t.dispatched == |publishes| || !publishes[t.dispatched])
    decreases limit
  {
    var i := FirstDispatchable(entries, now);
    if limit > 0 && i < |entries| {
      var asked, ok := entries[i].jobQueued, publishes != [] && publishes[0];
      if !asked {
        LoopDecides(entries[i := entries[i].(row := Row(Discarded, None, None))], now, limit - 1, publishes);
      } else if ok {
        LoopDecides(entries[i := entries[i].(row := Row(Sent, None, None))], now, limit - 1, publishes[1..]);
      }
    }
  }

  predicate Decided(before: Entry, after: Entry, now: int) {
    && after.jobQueued == before.jobQueued
    && (after.row == before.row
        || (Due(before.row, now)
            && after.row == Row(after.row.status, None, None) && after.row.status != Dispatching
            && (after.row.status == Discarded <==> !before.jobQueued)))
  }
}
