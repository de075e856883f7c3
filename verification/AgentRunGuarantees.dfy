/** What every run log looks like, whatever sequence of writers produced it. */
module AgentRunGuarantees {
  import opened AgentRunLog
  import opened FiniteSets
  import opened Numerals

  datatype Action =
    | OpenSession(session: Id, user: Id)
    | UpdateSession(session: Id, active: bool)
    | Begin(id: Id, session: Id, user: Id)
    | PersistTurn(id: Id, session: Id, user: Id, refusal: Option<string>)
    | Complete(id: Id, session: Id, user: Id, calls: seq<ToolCall>, refusal: Option<string>)
    | Settle(id: Id, session: Id, user: Id, stopped: bool)
    | Stop(id: Id, user: Id, seen: Option<Run>)
    | Project(id: Id, events: seq<CoreEvent>)

  function Step(s: Store, a: Action): Store {
    match a
    case OpenSession(session, user) =>
      if session in s.sessions then s else s.(sessions := s.sessions[session := Session(user, true)])
    case UpdateSession(session, active) =>
      if session in s.sessions then s.(sessions := s.sessions[session := s.sessions[session].(active := active)]) else s
    case Begin(id, session, user) => BeginStep(s, id, session, user).0
    case PersistTurn(id, session, user, refusal) => PersistTurnStep(s, id, session, user, refusal).0
    case Complete(id, session, user, calls, refusal) => CompleteStep(s, id, session, user, calls, refusal).0
    case Settle(id, session, user, stopped) => SettleStep(s, id, session, user, stopped).0
    case Stop(id, user, seen) => StopStep(s, id, user, seen).0
    case Project(id, events) => ProjectStep(s, id, events).0
  }

  function After(s: Store, run: seq<Action>): Store
    decreases |run|
  {
    if run == [] then s else After(Step(s, run[0]), run[1..])
  }

  // --- Logs ------------------------------------------------------------------------------------------

  predicate Numbered(log: seq<Event>) {
    forall i :: 0 <= i < |log| ==> log[i].sequence == i + 1
  }

  predicate Ends(kind: Kind) {
    kind == RunCompleted || kind == RunFailed || kind == RunStopped
  }

  function EndKind(status: RunStatus): Kind {
    match status
    case Running => RunStarted
    case Completed => RunCompleted
    case Failed => RunFailed
    case Stopped => RunStopped
  }

  function Count(log: seq<Event>, kind: Kind): nat {
    if log == [] then 0 else Count(log[..|log| - 1], kind) + if log[|log| - 1].kind == kind then 1 else 0
  }

  // Tool by tool: never more completions than requests so far.
  ghost predicate ToolsInOrder(log: seq<Event>) {
    forall k, tool :: 0 <= k <= |log| ==> Count(log[..k], ToolCompleted(tool)) <= Count(log[..k], ToolRequested(tool))
  }

  ghost predicate ToolsBalanced(log: seq<Event>) {
    forall tool :: Count(log, ToolCompleted(tool)) == Count(log, ToolRequested(tool))
  }

  // Numbered from 1 without gaps; one start, first; nothing else while running; once settled exactly one end,
  // last, matching the status; and tool completions answering tool requests.
  ghost predicate GoodLog(run: Run) {
    var log := run.log;
    && Numbered(log) && log != []
    && (forall i :: 0 <= i < |log| ==> (log[i].kind == RunStarted <==> i == 0))
    && (if run.status == Running then |log| == 1
        else |log| > 1 && log[|log| - 1].kind == EndKind(run.status)
             && forall i :: 0 <= i < |log| - 1 ==> !Ends(log[i].kind))
    && ToolsInOrder(log) && ToolsBalanced(log)
  }

  ghost predicate Healthy(s: Store) {
    && (forall id :: id in s.runs ==> s.runs[id].session in s.sessions && GoodLog(s.runs[id]))
    && (forall a, b ::
          a in s.runs && b in s.runs && a != b && s.runs[a].status == Running && s.runs[b].status == Running
          ==> s.runs[a].session != s.runs[b].session)
  }

  // --- Short logs ------------------------------------------------------------------------------------

  function StartLog(): seq<Event> {
    [Event(1, RunStarted)]
  }

  lemma StartedLog(session: Id)
    ensures GoodLog(Run(session, Running, StartLog()))
  {
    var log := StartLog();
    assert log[..1] == log && log[..0] == [];
    assert forall kind :: Count([], kind) == 0;
  }

  // Appending an event that is no tool event changes no tool count.
  lemma AppendPlain(log: seq<Event>, e: Event)
    requires ToolsInOrder(log) && ToolsBalanced(log) && !e.kind.ToolRequested? && !e.kind.ToolCompleted?
    ensures ToolsInOrder(log + [e]) && ToolsBalanced(log + [e])
  {
    var longer := log + [e];
    assert longer[..|log|] == log;
    forall k, tool | 0 <= k <= |longer|
      ensures Count(longer[..k], ToolCompleted(tool)) <= Count(longer[..k], ToolRequested(tool))
    {
      if k <= |log| {
        assert longer[..k] == log[..k];
      } else {
        assert longer[..k] == longer;
        assert Count(log, ToolCompleted(tool)) == Count(log, ToolRequested(tool));
      }
    }
  }

  lemma AppendEnd(run: Run, e: Event, status: RunStatus)
    requires GoodLog(run) && run.status == Running && status != Running
    requires e == Event(2, EndKind(status))
    ensures GoodLog(run.(status := status, log := run.log + [e]))
  {
    AppendPlain(run.log, e);
  }

  lemma LastIsLength(log: seq<Event>)
    requires Numbered(log)
    ensures LastSequence(log) == |log|
  {
    if log != [] {
      LastIsLength(log[..|log| - 1]);
    }
  }

  // --- Completing ------------------------------------------------------------------------------------

  lemma AppendCall(log: seq<Event>, tool: string, n: nat)
    requires ToolsInOrder(log) && ToolsBalanced(log)
    ensures ToolsInOrder(log + [Event(n, ToolRequested(tool)), Event(n + 1, ToolCompleted(tool))])
    ensures ToolsBalanced(log + [Event(n, ToolRequested(tool)), Event(n + 1, ToolCompleted(tool))])
  {
    var one := log + [Event(n, ToolRequested(tool))];
    var two := log + [Event(n, ToolRequested(tool)), Event(n + 1, ToolCompleted(tool))];
    assert one[..|log|] == log && two[..|log| + 1] == one;
    forall k, t | 0 <= k <= |two| ensures Count(two[..k], ToolCompleted(t)) <= Count(two[..k], ToolRequested(t)) {
      if k <= |log| {
        assert two[..k] == log[..k];
      } else {
        assert Count(log, ToolCompleted(t)) == Count(log, ToolRequested(t));
        assert two[..k] == if k == |log| + 1 then one else two;
      }
    }
    forall t ensures Count(two, ToolCompleted(t)) == Count(two, ToolRequested(t)) {
      assert Count(log, ToolCompleted(t)) == Count(log, ToolRequested(t));
    }
  }

  // A log still open after its start: numbered, with nothing but tool events, all answered.
  ghost predicate ToolLog(log: seq<Event>) {
    && log != [] && log[0].kind == RunStarted && Numbered(log) && ToolsInOrder(log) && ToolsBalanced(log)
    && forall i :: 0 < i < |log| ==> log[i].kind.ToolRequested? || log[i].kind.ToolCompleted?
  }

  lemma CallFollows(log: seq<Event>, tool: string)
    requires ToolLog(log)
    ensures ToolLog(log + [Event(|log| + 1, ToolRequested(tool)), Event(|log| + 2, ToolCompleted(tool))])
  {
    AppendCall(log, tool, |log| + 1);
    hide ToolsInOrder, ToolsBalanced;
  }

  lemma StartHasOne()
    ensures |StartLog()| == 1
  {
  }

  lemma StartIsToolLog()
    ensures ToolLog(StartLog())
  {
    StartedLog(0);
  }

  // One request and one completion per call.
  lemma {:induction false} CallsFollow(calls: seq<ToolCall>)
    ensures |CallEvents(calls)| == 2 * |calls| && ToolLog(StartLog() + CallEvents(calls))
  {
    hide ToolLog, StartLog;
    if calls == [] {
      assert StartLog() + [] == StartLog();
      StartIsToolLog();
    } else {
      var n := |calls| - 1;
      CallsFollow(calls[..n]);
      var front := StartLog() + CallEvents(calls[..n]);
      CallFollows(front, calls[n].name);
      assert |StartLog()| == 1 by {
        StartHasOne();
      }
      assert StartLog() + CallEvents(calls)
          == front + [Event(2 * n + 2, ToolRequested(calls[n].name)), Event(2 * n + 3, ToolCompleted(calls[n].name))];
    }
  }

  lemma AppendFinal(session: Id, log: seq<Event>, e: Event, status: RunStatus)
    requires ToolLog(log) && status != Running && e == Event(|log| + 1, EndKind(status))
    ensures GoodLog(Run(session, status, log + [e]))
  {
    AppendPlain(log, e);
    hide ToolsInOrder, ToolsBalanced;
  }

  lemma CompletedLog(session: Id, calls: seq<ToolCall>)
    ensures GoodLog(Run(session, Completed, StartLog() + (CallEvents(calls) + [Event(|calls| * 2 + 2, RunCompleted)])))
  {
    hide ToolLog, GoodLog, CallEvents;
    var e := Event(|calls| * 2 + 2, RunCompleted);
    CallsFollow(calls);
    AppendFinal(session, StartLog() + CallEvents(calls), e, Completed);
    assert StartLog() + (CallEvents(calls) + [e]) == StartLog() + CallEvents(calls) + [e];
  }

  lemma RunningLog(run: Run)
    requires GoodLog(run) && run.status == Running
    ensures run.log == StartLog()
  {
  }

  lemma CallsNotTaken(calls: seq<ToolCall>)
    ensures !Taken(StartLog(), CallEvents(calls) + [Event(|calls| * 2 + 2, RunCompleted)])
  {
    CallsFollow(calls);
    hide ToolsInOrder, ToolsBalanced, CallEvents, Count;
    var tools := CallEvents(calls);
    forall k | 0 <= k < |tools| ensures tools[k].sequence == k + 2 {
      assert tools[k] == (StartLog() + tools)[k + 1];
    }
  }

  // --- Projecting ------------------------------------------------------------------------------------

  // The calls of one tool, among those requested and among those completed.
  function CallsOf(tools: map<string, string>, calls: set<string>, tool: string): set<string> {
    set call | call in calls && call in tools && tools[call] == tool
  }

  ghost predicate Consistent(st: Scan) {
    forall call :: call in st.completed ==> call in st.tools
  }

  ghost predicate Counted(st: Scan, log: seq<Event>) {
    && (forall tool :: Count(log, ToolRequested(tool)) == |CallsOf(st.tools, st.tools.Keys, tool)|)
    && (forall tool :: Count(log, ToolCompleted(tool)) == |CallsOf(st.tools, st.completed, tool)|)
  }

  predicate Shaped(st: Scan, rows: seq<Event>) {
    && (forall i :: 0 <= i < |rows| ==>
        rows[i].kind != RunStarted && (Ends(rows[i].kind) ==> st.terminal.Some? && i == |rows| - 1))
    && (st.terminal.Some? ==>
          rows != [] && rows[|rows| - 1].kind == EndKind(StatusOf(st.terminal.value)) && Terminal(st.terminal.value))
  }

  // What a scan knows about the log its events have become so far.
  ghost predicate Mirrors(st: Scan, rows: seq<Event>) {
    Counted(st, StartLog() + rows) && ToolsInOrder(StartLog() + rows) && Numbered(StartLog() + rows) && Shaped(st, rows)
  }

  lemma FewerDone(st: Scan, tool: string)
    requires Consistent(st)
    ensures |CallsOf(st.tools, st.completed, tool)| <= |CallsOf(st.tools, st.tools.Keys, tool)|
  {
    SubsetSize(CallsOf(st.tools, st.completed, tool), CallsOf(st.tools, st.tools.Keys, tool));
  }

  lemma {:induction false} ScanConsistent(events: seq<CoreEvent>, run: Id)
    requires ScanAll(events, run).Some?
    ensures Consistent(ScanAll(events, run).value)
  {
    if events != [] {
      ScanConsistent(events[..|events| - 1], run);
    }
  }

  // Later events never change the tool of a call.
  predicate Extends(later: map<string, string>, tools: map<string, string>) {
    forall call :: call in tools ==> call in later && later[call] == tools[call]
  }

  lemma CountSnoc(log: seq<Event>, e: Event)
    ensures forall kind :: Count(log + [e], kind) == Count(log, kind) + if e.kind == kind then 1 else 0
  {
    assert (log + [e])[..|log|] == log;
  }

  lemma OrderSnoc(log: seq<Event>, e: Event)
    requires ToolsInOrder(log)
    requires forall tool :: Count(log + [e], ToolCompleted(tool)) <= Count(log + [e], ToolRequested(tool))
    ensures ToolsInOrder(log + [e])
  {
    var longer := log + [e];
    forall k, tool | 0 <= k <= |longer|
      ensures Count(longer[..k], ToolCompleted(tool)) <= Count(longer[..k], ToolRequested(tool))
    {
      if k <= |log| {
        assert longer[..k] == log[..k];
      } else {
        assert longer[..k] == longer;
      }
    }
  }

  lemma CallAdded(tools: map<string, string>, calls: set<string>, call: string, tool: string)
    requires call in tools && call !in calls
    ensures |CallsOf(tools, calls + {call}, tool)|
         == |CallsOf(tools, calls, tool)| + if tools[call] == tool then 1 else 0
  {
    if tools[call] == tool {
      assert CallsOf(tools, calls + {call}, tool) == CallsOf(tools, calls, tool) + {call};
    } else {
      assert CallsOf(tools, calls + {call}, tool) == CallsOf(tools, calls, tool);
    }
  }

  lemma ToolAdded(tools: map<string, string>, calls: set<string>, call: string, name: string, tool: string)
    requires call !in tools && forall c :: c in calls ==> c in tools
    ensures CallsOf(tools[call := name], calls, tool) == CallsOf(tools, calls, tool)
  {
  }

  // One more row: if the counts are right, the rest follows from the shape of the row.
  lemma MirrorSnoc(st: Scan, rows: seq<Event>, st': Scan, kind: Kind)
    requires Mirrors(st, rows) && st.terminal.None? && Consistent(st') && kind != RunStarted
    requires Counted(st', StartLog() + rows + [Event(|rows| + 2, kind)])
    requires Shaped(st', rows + [Event(|rows| + 2, kind)])
    ensures Mirrors(st', rows + [Event(|rows| + 2, kind)])
  {
    var log, e := StartLog() + rows, Event(|rows| + 2, kind);
    assert StartLog() + (rows + [e]) == log + [e];
    forall tool ensures Count(log + [e], ToolCompleted(tool)) <= Count(log + [e], ToolRequested(tool)) {
      FewerDone(st', tool);
    }
    hide Count, CallsOf, Counted, Shaped;
    OrderSnoc(log, e);
  }

  lemma CountedRequested(st: Scan, log: seq<Event>, call: string, name: string, n: nat)
    requires Consistent(st) && Counted(st, log) && call !in st.tools
    ensures Counted(st.(tools := st.tools[call := name]), log + [Event(n, ToolRequested(name))])
  {
    var st', e := st.(tools := st.tools[call := name]), Event(n, ToolRequested(name));
    CountSnoc(log, e);
    hide Count, CallsOf;
    assert st'.tools.Keys == st.tools.Keys + {call};
    forall tool
      ensures Count(log + [e], ToolRequested(tool)) == |CallsOf(st'.tools, st'.tools.Keys, tool)|
      ensures Count(log + [e], ToolCompleted(tool)) == |CallsOf(st'.tools, st'.completed, tool)|
    {
      ToolAdded(st.tools, st.tools.Keys, call, name, tool);
      ToolAdded(st.tools, st.completed, call, name, tool);
      CallAdded(st'.tools, st.tools.Keys, call, tool);
    }
  }

  lemma CountedDone(st: Scan, log: seq<Event>, call: string, n: nat)
    requires Consistent(st) && Counted(st, log) && call in st.tools && call !in st.completed
    ensures Counted(st.(completed := st.completed + {call}), log + [Event(n, ToolCompleted(st.tools[call]))])
  {
    var e := Event(n, ToolCompleted(st.tools[call]));
    CountSnoc(log, e);
    hide Count, CallsOf;
    forall tool
      ensures Count(log + [e], ToolRequested(tool)) == |CallsOf(st.tools, st.tools.Keys, tool)|
      ensures Count(log + [e], ToolCompleted(tool)) == |CallsOf(st.tools, st.completed + {call}, tool)|
    {
      CallAdded(st.tools, st.completed, call, tool);
    }
  }

  lemma CountedEnd(st: Scan, log: seq<Event>, end: CoreEvent, e: Event)
    requires Counted(st, log) && !e.kind.ToolRequested? && !e.kind.ToolCompleted?
    ensures Counted(st.(terminal := Some(end)), log + [e])
  {
    CountSnoc(log, e);
    hide Count, CallsOf;
  }

  lemma MirrorNext(st: Scan, rows: seq<Event>, e: CoreEvent, kind: Kind)
    requires Consistent(st) && Mirrors(st, rows) && Follows(st, e) && !e.Started? && !e.Delta?
        && kind == KindOf(e, st.tools)
    ensures Mirrors(Noted(st, e), rows + [Event(|rows| + 2, kind)])
  {
    var log, n := StartLog() + rows, |rows| + 2;
    if e.Requested? {
      CountedRequested(st, log, e.call, e.tool, n);
    } else if e.Done? {
      CountedDone(st, log, e.call, n);
    } else {
      CountedEnd(st, log, e, Event(n, kind));
    }
    hide Counted, Mirrors;
    assert Shaped(Noted(st, e), rows + [Event(n, kind)]) by {
      MirrorsShape(st, rows);
    }
    MirrorSnoc(st, rows, Noted(st, e), kind);
  }

  lemma MirrorsShape(st: Scan, rows: seq<Event>)
    requires Mirrors(st, rows)
    ensures Shaped(st, rows)
  {
  }

  lemma MirrorNothing()
    ensures Mirrors(Scan(map[], {}, None), [])
  {
    StartedLog(0);
    assert StartLog() + [] == StartLog();
    assert StartLog()[..0] == [];
    assert forall tool :: CallsOf(map[], {}, tool) == {};
  }

  lemma {:induction false} ScanMirrors(events: seq<CoreEvent>, run: Id, tools: map<string, string>)
    requires ScanAll(events, run).Some? && Extends(tools, ScanAll(events, run).value.tools)
    ensures Mirrors(ScanAll(events, run).value, Rows(events, tools, true, 1))
  {
    hide Mirrors, Consistent;
    if events == [] {
      MirrorNothing();
    } else {
      var front, e := events[..|events| - 1], events[|events| - 1];
      var st := ScanAll(front, run).value;
      ScanMirrors(front, run, tools);
      ScanConsistent(front, run);
      if !e.Started? && !e.Delta? {
        MirrorNext(st, Rows(front, tools, true, 1), e, KindOf(e, tools));
      }
    }
  }

  lemma BalancedInTheEnd(events: seq<CoreEvent>, id: Id)
    requires Admitted(events, id).Some?
    ensures var st := Admitted(events, id).value; ToolsBalanced(StartLog() + Rows(events, st.tools, true, 1))
  {
    var st := Admitted(events, id).value;
    ScanMirrors(events, id, st.tools);
    ScanConsistent(events, id);
    SubsetSize(st.completed, st.tools.Keys);
    assert st.completed == st.tools.Keys;
  }

  lemma ProjectedLog(run: Run, id: Id, events: seq<CoreEvent>)
    requires GoodLog(run) && run.status == Running && Admitted(events, id).Some?
    ensures var st := Admitted(events, id).value;
            GoodLog(run.(status := StatusOf(st.terminal.value),
                         log := run.log + Rows(events, st.tools, run.log != [], LastSequence(run.log))))
  {
    var st := Admitted(events, id).value;
    assert run.log == StartLog();
    LastIsLength(run.log);
    ScanMirrors(events, id, st.tools);
    BalancedInTheEnd(events, id);
    hide Admitted, ScanAll, Rows, Count, ToolsBalanced, ToolsInOrder, CallsOf;
    var rows := Rows(events, st.tools, true, 1);
    var log := StartLog() + rows;
    assert forall i :: 0 < i < |log| ==> log[i] == rows[i - 1];
  }

  // --- Every step, every run ----------------------------------------------------------------------------

  lemma BeginHealthy(s: Store, id: Id, session: Id, user: Id)
    requires Healthy(s)
    ensures Healthy(BeginStep(s, id, session, user).0)
  {
    hide GoodLog;
    StartedLog(session);
  }

  lemma TurnHealthy(s: Store, id: Id, session: Id, user: Id, refusal: Option<string>)
    requires Healthy(s)
    ensures Healthy(PersistTurnStep(s, id, session, user, refusal).0)
  {
    hide GoodLog;
    StartedLog(session);
    AppendEnd(Run(session, Running, StartLog()), Event(2, RunCompleted), Completed);
    assert StartLog() + [Event(2, RunCompleted)] == [Event(1, RunStarted), Event(2, RunCompleted)];
  }

  // Replacing a running run by a settled one with a good log.
  lemma SettledHealthy(s: Store, id: Id, run: Run)
    requires Healthy(s) && id in s.runs && run.session == s.runs[id].session && run.status != Running && GoodLog(run)
    ensures Healthy(s.(runs := s.runs[id := run]))
  {
    hide GoodLog;
  }

  lemma CompleteHealthy(s: Store, id: Id, session: Id, user: Id, calls: seq<ToolCall>, refusal: Option<string>)
    requires Healthy(s)
    ensures Healthy(CompleteStep(s, id, session, user, calls, refusal).0)
  {
    hide GoodLog, CallEvents, Taken;
    if Owned(s, id, session, user) && s.runs[id].status == Running {
      RunningLog(s.runs[id]);
      CompletedLog(session, calls);
      CallsNotTaken(calls);
      var rows := CallEvents(calls) + [Event(|calls| * 2 + 2, RunCompleted)];
      SettledHealthy(s, id, s.runs[id].(status := Completed, log := s.runs[id].log + rows));
    }
  }

  lemma SettledLog(run: Run, status: RunStatus)
    requires GoodLog(run) && run.status == Running && status != Running
    ensures GoodLog(run.(status := status, log := run.log + [Event(LastSequence(run.log) + 1, EndKind(status))]))
  {
    RunningLog(run);
    LastIsLength(run.log);
    AppendEnd(run, Event(2, EndKind(status)), status);
    hide GoodLog;
  }

  lemma SettleHealthy(s: Store, id: Id, session: Id, user: Id, stopped: bool)
    requires Healthy(s)
    ensures Healthy(SettleStep(s, id, session, user, stopped).0)
  {
    hide GoodLog, LastSequence;
    if Owned(s, id, session, user) && s.runs[id].status == Running {
      var run, status := s.runs[id], if stopped then Stopped else Failed;
      SettledLog(run, status);
      var end := Event(LastSequence(run.log) + 1, EndKind(status));
      SettledHealthy(s, id, run.(status := status, log := run.log + [end]));
    }
  }

  lemma ProjectHealthy(s: Store, id: Id, events: seq<CoreEvent>)
    requires Healthy(s)
    ensures Healthy(ProjectStep(s, id, events).0)
  {
    hide GoodLog, Admitted, Rows;
    AdmittedSettles(events, id);
    if Admitted(events, id).Some? && id in s.runs && s.runs[id].status == Running {
      var run, st := s.runs[id], Admitted(events, id).value;
      ProjectedLog(run, id, events);
      var settled := run.(status := StatusOf(st.terminal.value),
                          log := run.log + Rows(events, st.tools, run.log != [], LastSequence(run.log)));
      EndIsSettled(events, id);
      SettledHealthy(s, id, settled);
    }
  }

  lemma EndIsSettled(events: seq<CoreEvent>, id: Id)
    ensures Admitted(events, id).Some? ==> StatusOf(Admitted(events, id).value.terminal.value) != Running
  {
  }

  lemma StepHealthy(s: Store, a: Action)
    requires Healthy(s)
    ensures Healthy(Step(s, a))
  {
    hide GoodLog;
    match a
    case OpenSession(_, _) =>
    case UpdateSession(_, _) =>
    case Begin(id, session, user) => BeginHealthy(s, id, session, user);
    case PersistTurn(id, session, user, refusal) => TurnHealthy(s, id, session, user, refusal);
    case Complete(id, session, user, calls, refusal) => CompleteHealthy(s, id, session, user, calls, refusal);
    case Settle(id, session, user, stopped) => SettleHealthy(s, id, session, user, stopped);
    case Stop(id, user, seen) => if seen.Some? { SettleHealthy(s, id, seen.value.session, user, true); }
    case Project(id, events) => ProjectHealthy(s, id, events);
  }

  // In every reachable store every log is good, and a session has at most one running run.
  lemma {:induction false} RunHealthy(s: Store, run: seq<Action>)
    requires Healthy(s)
    ensures Healthy(After(s, run))
    decreases |run|
  {
    hide Healthy, Step;
    if run != [] {
      StepHealthy(s, run[0]);
      RunHealthy(Step(s, run[0]), run[1..]);
    }
  }

  lemma EmptyHealthy()
    ensures Healthy(Store(map[], map[]))
  {
  }

  lemma StepKeepsSettled(s: Store, a: Action, id: Id)
    requires id in s.runs && s.runs[id].status != Running
    ensures id in Step(s, a).runs && Step(s, a).runs[id] == s.runs[id]
  {
    hide Admitted, Rows, CallEvents, Taken;
  }

  // A settled run never changes again.
  lemma {:induction false} SettledForGood(s: Store, run: seq<Action>, id: Id)
    requires id in s.runs && s.runs[id].status != Running
    ensures id in After(s, run).runs && After(s, run).runs[id] == s.runs[id]
    decreases |run|
  {
    hide Step;
    if run != [] {
      StepKeepsSettled(s, run[0], id);
      SettledForGood(Step(s, run[0]), run[1..], id);
    }
  }

  lemma StepKeepsOwner(s: Store, a: Action, id: Id, session: Id, user: Id)
    requires Owned(s, id, session, user)
    ensures Owned(Step(s, a), id, session, user)
  {
    hide Admitted, Rows, CallEvents, Taken, LastSequence;
  }

  lemma {:induction false} OwnerStays(s: Store, run: seq<Action>, id: Id, session: Id, user: Id)
    requires Owned(s, id, session, user)
    ensures Owned(After(s, run), id, session, user)
    decreases |run|
  {
    hide Step, Owned;
    if run != [] {
      StepKeepsOwner(s, run[0], id, session, user);
      OwnerStays(Step(s, run[0]), run[1..], id, session, user);
    }
  }

  // Whatever happens between the reading and the settlement, a stop of a run that was seen running ends it if and
  // only if it still is, and is refused otherwise; a run that was seen settled is reported and left alone.
  lemma StopAnswers(s: Store, between: seq<Action>, id: Id, user: Id)
    requires SeenBy(s, id, user).Some?
    ensures var now := After(s, between);
            var (s', r) := StopStep(now, id, user, SeenBy(s, id, user));
            && id in now.runs
            && if s.runs[id].status != Running then s' == now && r == Settled(now.runs[id].status)
               else if now.runs[id].status == Running then r == Settled(Stopped) && s'.runs[id].status == Stopped
               else s' == now && r == Rejected("AGENT_RUN_NOT_RUNNING")
  {
    OwnerStays(s, between, id, s.runs[id].session, user);
    if s.runs[id].status != Running {
      SettledForGood(s, between, id);
    }
    hide After;
  }

  // The refusals that guard against a broken log never happen: no sequence number is ever taken twice, and a
  // running run never holds a projected event.
  lemma GuardsNeverFire(s: Store, id: Id, session: Id, user: Id, calls: seq<ToolCall>, refusal: Option<string>,
                        events: seq<CoreEvent>)
    requires Healthy(s) && refusal != Some("23505")
    ensures CompleteStep(s, id, session, user, calls, refusal).1 != Rejected("23505")
    ensures ProjectStep(s, id, events).1 != Rejected("AGENT_RUN_ALREADY_PROJECTED")
  {
    if Owned(s, id, session, user) && s.runs[id].status == Running {
      RunningLog(s.runs[id]);
      CallsNotTaken(calls);
    }
    hide Admitted, Rows, CallEvents, ToolsInOrder, ToolsBalanced;
  }
}
