/** When each writer of the run log goes through, and what it writes then. */
module AgentRunCalls {
  import opened AgentRunGuarantees
  import opened AgentRunLog
  import opened FiniteSets
  import opened Numerals
  import opened Text

  // --- Starting -------------------------------------------------------------------------------------

  // Why a session of this user cannot be used.
  function SessionCode(s: Store, session: Id, user: Id): Option<string> {
    if session in s.sessions && s.sessions[session].user == user then
      if s.sessions[session].active then None else Some("AGENT_SESSION_ARCHIVED")
    else Some("AGENT_SESSION_NOT_FOUND")
  }

  predicate HasRunning(s: Store, session: Id) {
    exists id :: id in s.runs && s.runs[id].session == session && s.runs[id].status == Running
  }

  // A run is started exactly in an active session of the user that has none running, under a new id.
  lemma BeginsExactly(s: Store, id: Id, session: Id, user: Id)
    ensures var code := SessionCode(s, session, user);
            BeginStep(s, id, session, user) ==
            if code.Some? then (s, Rejected(code.value))
            else if HasRunning(s, session) then (s, Rejected("AGENT_RUN_ACTIVE"))
            else if id in s.runs then (s, Rejected("23505"))
            else (Store(s.sessions, s.runs[id := Run(session, Running, [Event(1, RunStarted)])]), Settled(Running))
  {
  }

  // --- Settling -------------------------------------------------------------------------------------

  predicate OfUser(s: Store, id: Id, session: Id, user: Id) {
    && id in s.runs && s.runs[id].session == session
    && session in s.sessions && s.sessions[session].user == user
  }

  function AccessCode(s: Store, id: Id, session: Id, user: Id): Option<string> {
    if !OfUser(s, id, session, user) then Some("AGENT_RUN_NOT_FOUND")
    else if s.runs[id].status != Running then Some("AGENT_RUN_NOT_RUNNING")
    else None
  }

  function WithRun(s: Store, id: Id, session: Id, status: RunStatus, kinds: seq<Kind>): Store {
    Store(s.sessions, s.runs[id := Run(session, status, LogOf(kinds))])
  }

  // These events, numbered from 1.
  function LogOf(kinds: seq<Kind>): seq<Event> {
    seq(|kinds|, i requires 0 <= i < |kinds| => Event(i + 1, kinds[i]))
  }

  lemma RunningIsStart(s: Store, id: Id)
    requires Healthy(s) && id in s.runs && s.runs[id].status == Running
    ensures s.runs[id].log == [Event(1, RunStarted)] && LastSequence(s.runs[id].log) == 1
  {
    RunningLog(s.runs[id]);
    LastIsLength(s.runs[id].log);
  }

  // A failure or a stop ends a running run of the user with one event, and says which it was.
  lemma SettlesExactly(s: Store, id: Id, session: Id, user: Id, stopped: bool)
    requires Healthy(s)
    ensures var code := AccessCode(s, id, session, user);
            SettleStep(s, id, session, user, stopped) ==
            if code.Some? then (s, Rejected(code.value))
            else if stopped then (WithRun(s, id, session, Stopped, [RunStarted, RunStopped]), Settled(Stopped))
            else (WithRun(s, id, session, Failed, [RunStarted, RunFailed]), Settled(Failed))
  {
    if AccessCode(s, id, session, user).None? {
      RunningIsStart(s, id);
      hide LastSequence, Healthy;
      var end := if stopped then RunStopped else RunFailed;
      assert LogOf([RunStarted, end]) == [Event(1, RunStarted)] + [Event(2, end)];
    }
  }

  // A turn answered in one go is a completed run of its own, whatever else runs in the session.
  lemma TurnExactly(s: Store, id: Id, session: Id, user: Id, refusal: Option<string>)
    ensures var code := SessionCode(s, session, user);
            PersistTurnStep(s, id, session, user, refusal) ==
            if code.Some? then (s, Rejected(code.value))
            else if id in s.runs then (s, Rejected("23505"))
            else if refusal.Some? then (s, Rejected(refusal.value))
            else (WithRun(s, id, session, Completed, [RunStarted, RunCompleted]), Settled(Completed))
  {
    assert LogOf([RunStarted, RunCompleted]) == [Event(1, RunStarted), Event(2, RunCompleted)];
  }

  // --- Completing -----------------------------------------------------------------------------------

  // One search, or a search and a reading.
  predicate SearchOrRead(calls: seq<ToolCall>) {
    && (forall i :: 0 <= i < |calls| ==> calls[i].sound)
    && ((|calls| == 1 && calls[0].name == "knowledge.search")
        || (|calls| == 2 && calls[0].name == "knowledge.search" && calls[1].name == "knowledge.read"))
  }

  function AnswerKinds(read: bool): seq<Kind> {
    [RunStarted, ToolRequested("knowledge.search"), ToolCompleted("knowledge.search")]
    + (if read then [ToolRequested("knowledge.read"), ToolCompleted("knowledge.read")] else [])
    + [RunCompleted]
  }

  lemma {:induction false} CallEventsSnoc(calls: seq<ToolCall>, call: ToolCall)
    ensures CallEvents(calls + [call]) ==
            CallEvents(calls)
            + [Event(2 * |calls| + 2, ToolRequested(call.name)), Event(2 * |calls| + 3, ToolCompleted(call.name))]
  {
    assert (calls + [call])[..|calls|] == calls;
  }

  lemma {:induction false} CallsAre(calls: seq<ToolCall>)
    requires SearchOrRead(calls)
    ensures [Event(1, RunStarted)] + (CallEvents(calls) + [Event(|calls| * 2 + 2, RunCompleted)])
         == LogOf(AnswerKinds(|calls| == 2))
  {
    CallEventsSnoc([], calls[0]);
    assert [] + [calls[0]] == [calls[0]];
    if |calls| == 2 {
      CallEventsSnoc([calls[0]], calls[1]);
      assert calls == [calls[0]] + [calls[1]];
    } else {
      assert calls == [calls[0]];
    }
  }

  // An answered run of the user is completed exactly if it made one search, or a search and a reading, each within
  // its limits, and passed its checks; its log then names each call before and after.
  lemma CompletesExactly(s: Store, id: Id, session: Id, user: Id, calls: seq<ToolCall>, refusal: Option<string>)
    requires Healthy(s)
    ensures var code := AccessCode(s, id, session, user);
            CompleteStep(s, id, session, user, calls, refusal) ==
            if !SearchOrRead(calls) then (s, Rejected("AGENT_TOOL_CALL_INVALID"))
            else if code.Some? then (s, Rejected(code.value))
            else if refusal.Some? then (s, Rejected(refusal.value))
            else (WithRun(s, id, session, Completed, AnswerKinds(|calls| == 2)), Settled(Completed))
  {
    assert ValidCalls(calls) <==> SearchOrRead(calls);
    if SearchOrRead(calls) && AccessCode(s, id, session, user).None? {
      RunningIsStart(s, id);
      CallsNotTaken(calls);
      CallsAre(calls);
      hide Healthy, CallEvents, Taken, AnswerKinds, LastSequence;
    }
  }

  // --- Which streams are projected ------------------------------------------------------------------

  predicate RequestedBefore(events: seq<CoreEvent>, n: nat, call: string)
    requires n <= |events|
  {
    exists k :: 0 <= k < n && events[k].Requested? && events[k].call == call
  }

  predicate DoneBefore(events: seq<CoreEvent>, n: nat, call: string)
    requires n <= |events|
  {
    exists k :: 0 <= k < n && events[k].Done? && events[k].call == call
  }

  predicate Ending(e: CoreEvent) {
    e.Finished? || e.Broken? || e.Cancelled?
  }

  predicate Told(text: string, limit: nat) {
    !Blank(text) && |text| <= limit
  }

  // An event of this run, before which nothing ended it: starts before all requests, requests of the two tools
  // under new ids, completions of what was requested and not yet completed, and short texts.
  predicate AllowedAt(events: seq<CoreEvent>, i: nat, run: Id)
    requires i < |events|
  {
    && events[i].run == run && (forall k :: 0 <= k < i ==> !Ending(events[k]))
    && match events[i]
       case Started(_) => forall k :: 0 <= k < i ==> !events[k].Requested?
       case Requested(_, call, tool, summary) =>
         && (tool == "knowledge.search" || tool == "knowledge.read") && Told(summary, 300)
         && !RequestedBefore(events, i, call)
       case Done(_, call, summary) =>
         Told(summary, 300) && RequestedBefore(events, i, call) && !DoneBefore(events, i, call)
       case Broken(_, code) => Told(code, 200)
       case _ => true
  }

  predicate AllAllowed(events: seq<CoreEvent>, run: Id) {
    forall i :: 0 <= i < |events| ==> AllowedAt(events, i, run)
  }

  lemma AllowedSnoc(events: seq<CoreEvent>, e: CoreEvent, run: Id)
    ensures AllAllowed(events + [e], run) <==> AllAllowed(events, run) && AllowedAt(events + [e], |events|, run)
    ensures forall call :: RequestedBefore(events + [e], |events|, call) <==> RequestedBefore(events, |events|, call)
    ensures forall call :: DoneBefore(events + [e], |events|, call) <==> DoneBefore(events, |events|, call)
  {
    hide Told;
    forall i, call | 0 <= i <= |events|
      ensures RequestedBefore(events + [e], i, call) <==> RequestedBefore(events, i, call)
      ensures DoneBefore(events + [e], i, call) <==> DoneBefore(events, i, call)
    {
      assert forall k :: 0 <= k < i ==> (events + [e])[k] == events[k];
    }
    hide RequestedBefore, DoneBefore;
    forall i | 0 <= i < |events| ensures AllowedAt(events + [e], i, run) <==> AllowedAt(events, i, run) {
      assert forall k :: 0 <= k <= i ==> (events + [e])[k] == events[k];
    }
  }

  ghost predicate RemembersCalls(st: Scan, events: seq<CoreEvent>) {
    && (forall call :: call in st.tools <==> RequestedBefore(events, |events|, call))
    && (forall call :: call in st.completed <==> DoneBefore(events, |events|, call))
    && (forall call :: call in st.completed ==> call in st.tools)
    && (forall call :: call in st.tools ==> st.tools[call] == ToolOf(events, call))
  }

  predicate RemembersEnd(st: Scan, events: seq<CoreEvent>) {
    && (st.terminal.None? <==> forall k :: 0 <= k < |events| ==> !Ending(events[k]))
    && (st.terminal.Some? ==> events != [] && st.terminal.value == events[|events| - 1] && Ending(st.terminal.value))
  }

  // What the scan remembers: the tools of the calls requested so far, the calls completed, and the end.
  ghost predicate Remembers(st: Scan, events: seq<CoreEvent>) {
    RemembersCalls(st, events) && RemembersEnd(st, events)
  }

  // The tool the call was requested for.
  function ToolOf(events: seq<CoreEvent>, call: string): string {
    if events == [] then ""
    else
      var last := events[|events| - 1];
      if last.Requested? && last.call == call then last.tool else ToolOf(events[..|events| - 1], call)
  }

  lemma RememberedAt(events: seq<CoreEvent>, e: CoreEvent, call: string)
    ensures RequestedBefore(events + [e], |events| + 1, call)
         <==> RequestedBefore(events, |events|, call) || (e.Requested? && e.call == call)
    ensures DoneBefore(events + [e], |events| + 1, call)
         <==> DoneBefore(events, |events|, call) || (e.Done? && e.call == call)
    ensures ToolOf(events + [e], call) == if e.Requested? && e.call == call then e.tool else ToolOf(events, call)
  {
    var longer := events + [e];
    assert longer[|events|] == e && longer[..|events|] == events;
    assert forall k :: 0 <= k < |events| ==> longer[k] == events[k];
  }

  lemma StartedBefore(st: Scan, events: seq<CoreEvent>)
    requires Remembers(st, events)
    ensures st.tools == map[] && st.completed == {} <==> forall k :: 0 <= k < |events| ==> !events[k].Requested?
  {
    if k :| 0 <= k < |events| && events[k].Requested? {
      assert RequestedBefore(events, |events|, events[k].call);
    }
    if forall k :: 0 <= k < |events| ==> !events[k].Requested? {
      assert forall call :: call !in st.tools;
    }
  }

  lemma FollowsExactly(st: Scan, events: seq<CoreEvent>, e: CoreEvent, run: Id)
    requires Remembers(st, events)
    ensures e.run == run && Follows(st, e) <==> AllowedAt(events + [e], |events|, run)
  {
    AllowedSnoc(events, e, run);
    StartedBefore(st, events);
    hide RequestedBefore, DoneBefore, ToolOf, Blank;
    assert (events + [e])[|events|] == e && forall k :: 0 <= k < |events| ==> (events + [e])[k] == events[k];
  }

  lemma NotedCalls(st: Scan, events: seq<CoreEvent>, e: CoreEvent)
    requires RemembersCalls(st, events) && Follows(st, e)
    ensures RemembersCalls(Noted(st, e), events + [e])
  {
    forall call
      ensures RequestedBefore(events + [e], |events| + 1, call)
           <==> RequestedBefore(events, |events|, call) || (e.Requested? && e.call == call)
      ensures DoneBefore(events + [e], |events| + 1, call)
           <==> DoneBefore(events, |events|, call) || (e.Done? && e.call == call)
      ensures ToolOf(events + [e], call) == if e.Requested? && e.call == call then e.tool else ToolOf(events, call)
    {
      RememberedAt(events, e, call);
    }
    hide RequestedBefore, DoneBefore, ToolOf, Summary, Persisted;
  }

  lemma NotedEnd(st: Scan, events: seq<CoreEvent>, e: CoreEvent)
    requires RemembersEnd(st, events) && Follows(st, e)
    ensures RemembersEnd(Noted(st, e), events + [e])
  {
    hide Summary, Persisted;
    assert (events + [e])[|events|] == e && forall k :: 0 <= k < |events| ==> (events + [e])[k] == events[k];
  }

  lemma {:induction false} ScanExactly(events: seq<CoreEvent>, run: Id)
    ensures ScanAll(events, run).Some? <==> AllAllowed(events, run)
    ensures ScanAll(events, run).Some? ==> Remembers(ScanAll(events, run).value, events)
  {
    if events != [] {
      var front, last := events[..|events| - 1], events[|events| - 1];
      assert events == front + [last];
      ScanExactly(front, run);
      AllowedSnoc(front, last, run);
      if ScanAll(front, run).Some? {
        FollowsExactly(ScanAll(front, run).value, front, last, run);
        if Follows(ScanAll(front, run).value, last) {
          NotedCalls(ScanAll(front, run).value, front, last);
          NotedEnd(ScanAll(front, run).value, front, last);
        }
      }
      hide AllowedAt, RemembersCalls, RemembersEnd, Follows, Noted;
    }
  }

  // A stream is projected exactly if it begins with a start, every event of it is allowed where it stands, it ends
  // with its one ending, and every call it requests is completed.
  lemma AdmittedExactly(events: seq<CoreEvent>, run: Id)
    ensures Admitted(events, run).Some? <==>
            && events != [] && events[0].Started? && AllAllowed(events, run) && Ending(events[|events| - 1])
            && forall k :: 0 <= k < |events| && events[k].Requested? ==> DoneBefore(events, |events|, events[k].call)
  {
    ScanExactly(events, run);
    if ScanAll(events, run).Some? && events != [] {
      var st := ScanAll(events, run).value;
      SubsetSize(st.completed, st.tools.Keys);
      hide AllAllowed, ScanAll, DoneBefore, ToolOf;
      if Admitted(events, run).Some? {
        assert st.completed == st.tools.Keys;
        forall k | 0 <= k < |events| && events[k].Requested? ensures DoneBefore(events, |events|, events[k].call) {
          assert RequestedBefore(events, |events|, events[k].call);
        }
      } else if forall k :: 0 <= k < |events| && events[k].Requested? ==> DoneBefore(events, |events|, events[k].call) {
        AllDone(st, events);
      }
    }
  }

  lemma AllDone(st: Scan, events: seq<CoreEvent>)
    requires RemembersCalls(st, events)
    requires forall k :: 0 <= k < |events| && events[k].Requested? ==> DoneBefore(events, |events|, events[k].call)
    ensures st.completed == st.tools.Keys
  {
    hide DoneBefore, ToolOf;
    forall call | call in st.tools ensures call in st.completed {
      assert RequestedBefore(events, |events|, call);
    }
  }

  // --- What a projected stream leaves ------------------------------------------------------------------

  // What is shown of one event of a stream: nothing of starts and text, each call under the tool it was requested
  // for, and the ending.
  function ShownOf(events: seq<CoreEvent>, e: CoreEvent): seq<Kind> {
    match e
    case Started(_) => []
    case Delta(_) => []
    case Requested(_, _, tool, _) => [ToolRequested(tool)]
    case Done(_, call, _) => [ToolCompleted(ToolOf(events, call))]
    case Finished(_) => [RunCompleted]
    case Broken(_, _) => [RunFailed]
    case Cancelled(_) => [RunStopped]
  }

  function Shown(events: seq<CoreEvent>, n: nat): seq<Kind>
    requires n <= |events|
  {
    if n == 0 then [] else Shown(events, n - 1) + ShownOf(events, events[n - 1])
  }

  // How a stream ends.
  function EndOf(events: seq<CoreEvent>): RunStatus {
    if events == [] || events[|events| - 1].Cancelled? then Stopped
    else if events[|events| - 1].Finished? then Completed else Failed
  }

  lemma {:induction false} RowsAreShown(events: seq<CoreEvent>, n: nat, tools: map<string, string>)
    requires n <= |events|
    requires forall k :: 0 <= k < |events| && events[k].Done? ==>
               events[k].call in tools && tools[events[k].call] == ToolOf(events, events[k].call)
    ensures [Event(1, RunStarted)] + Rows(events[..n], tools, true, 1) == LogOf([RunStarted] + Shown(events, n))
  {
    hide ToolOf;
    if n > 0 {
      RowsAreShown(events, n - 1, tools);
      assert events[..n][..n - 1] == events[..n - 1];
      var before := Rows(events[..n - 1], tools, true, 1);
      RowsCount(before, Shown(events, n - 1));
      ShownNext(events, n, tools, before);
    }
  }

  lemma RowsCount(rows: seq<Event>, kinds: seq<Kind>)
    requires [Event(1, RunStarted)] + rows == LogOf([RunStarted] + kinds)
    ensures |rows| == |kinds|
  {
    assert |[Event(1, RunStarted)] + rows| == |rows| + 1;
  }

  lemma LogOfSnoc(kinds: seq<Kind>, kind: Kind)
    ensures LogOf(kinds + [kind]) == LogOf(kinds) + [Event(|kinds| + 1, kind)]
  {
  }

  lemma ShownNext(events: seq<CoreEvent>, n: nat, tools: map<string, string>, before: seq<Event>)
    requires 0 < n <= |events| && before == Rows(events[..n - 1], tools, true, 1) && |before| == |Shown(events, n - 1)|
    requires events[n - 1].Done? ==>
               events[n - 1].call in tools && tools[events[n - 1].call] == ToolOf(events, events[n - 1].call)
    requires [Event(1, RunStarted)] + before == LogOf([RunStarted] + Shown(events, n - 1))
    ensures [Event(1, RunStarted)] + Rows(events[..n], tools, true, 1) == LogOf([RunStarted] + Shown(events, n))
  {
    assert events[..n][..n - 1] == events[..n - 1];
    var e, shown := events[n - 1], Shown(events, n - 1);
    hide ToolOf, LogOf;
    if e.Started? || e.Delta? {
      assert Rows(events[..n], tools, true, 1) == before && Shown(events, n) == shown;
    } else {
      var kind := KindOf(e, tools);
      var row := Event(|before| + 2, kind);
      assert Rows(events[..n], tools, true, 1) == before + [row] && Shown(events, n) == shown + [kind];
      hide Rows, Shown;
      LogOfSnoc([RunStarted] + shown, kind);
      assert [RunStarted] + shown + [kind] == [RunStarted] + (shown + [kind]);
      assert [Event(1, RunStarted)] + before + [row] == [Event(1, RunStarted)] + (before + [row]);
    }
  }

  // A stream is written to a running run, once, as its start and what is shown of it; the run ends as it ends.
  lemma ProjectsExactly(s: Store, id: Id, events: seq<CoreEvent>)
    requires Healthy(s)
    ensures ProjectStep(s, id, events) ==
            if Admitted(events, id).None? then (s, Rejected("AGENT_RUN_PROJECTION_INVALID"))
            else if id !in s.runs then (s, Rejected("AGENT_RUN_NOT_FOUND"))
            else if s.runs[id].status != Running then (s, Rejected("AGENT_RUN_ALREADY_SETTLED"))
            else (WithRun(s, id, s.runs[id].session, EndOf(events), [RunStarted] + Shown(events, |events|)),
                  Settled(EndOf(events)))
  {
    AdmittedExactly(events, id);
    if Admitted(events, id).Some? && id in s.runs && s.runs[id].status == Running {
      ScanExactly(events, id);
      var st := Admitted(events, id).value;
      forall k | 0 <= k < |events| && events[k].Done?
        ensures events[k].call in st.tools && st.tools[events[k].call] == ToolOf(events, events[k].call)
      {
        assert DoneBefore(events, |events|, events[k].call);
      }
      RunningIsStart(s, id);
      RowsAreShown(events, |events|, st.tools);
      assert events[..|events|] == events;
      EndIs(st, events);
      hide Healthy, Admitted, Rows, Shown, LogOf, RemembersCalls, RemembersEnd, AllAllowed, LastSequence, DoneBefore,
        ToolOf;
    }
  }

  lemma EndIs(st: Scan, events: seq<CoreEvent>)
    requires RemembersEnd(st, events) && st.terminal.Some?
    ensures events != [] && StatusOf(st.terminal.value) == EndOf(events)
  {
  }
}
