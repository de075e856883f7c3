/** Agent runs and their numbered event logs: everything that writes them. */
module AgentRunLog {
  import opened Numerals
  import opened Text

  const MAX_SUMMARY_LENGTH: nat := 300
  const MAX_CODE_LENGTH: nat := 200

  type Id = nat

  datatype RunStatus = Running | Completed | Failed | Stopped

  datatype Kind =
    | RunStarted
    | ToolRequested(tool: string)
    | ToolCompleted(tool: string)
    | RunCompleted
    | RunFailed
    | RunStopped

  datatype Event = Event(sequence: nat, kind: Kind)

  datatype Run = Run(session: Id, status: RunStatus, log: seq<Event>)

  datatype Session = Session(user: Id, active: bool)

  datatype Store = Store(sessions: map<Id, Session>, runs: map<Id, Run>)

  datatype Reply = Rejected(code: string) | Settled(status: RunStatus)

  // --- The event table ---------------------------------------------------------------------------------

  function LastSequence(log: seq<Event>): nat {
    if log == [] then 0
    else
      var rest := LastSequence(log[..|log| - 1]);
      if log[|log| - 1].sequence > rest then log[|log| - 1].sequence else rest
  }

  // One INSERT of several rows: rejected if a sequence number is taken.
  predicate Taken(log: seq<Event>, rows: seq<Event>) {
    exists i, k :: 0 <= i < |log| && 0 <= k < |rows| && log[i].sequence == rows[k].sequence
  }

  // --- Starting ------------------------------------------------------------------------------------------

  function SessionRefusal(s: Store, session: Id, user: Id): Option<string> {
    if session !in s.sessions || s.sessions[session].user != user then Some("AGENT_SESSION_NOT_FOUND")
    else if !s.sessions[session].active then Some("AGENT_SESSION_ARCHIVED")
    else None
  }

  predicate Busy(s: Store, session: Id) {
    exists id :: id in s.runs && s.runs[id].session == session && s.runs[id].status == Running
  }

  function BeginStep(s: Store, id: Id, session: Id, user: Id): (Store, Reply) {
    var refusal := SessionRefusal(s, session, user);
    if refusal.Some? then (s, Rejected(refusal.value))
    else if Busy(s, session) then (s, Rejected("AGENT_RUN_ACTIVE"))
    else if id in s.runs then (s, Rejected("23505"))
    else (s.(runs := s.runs[id := Run(session, Running, [Event(1, RunStarted)])]), Settled(Running))
  }

  // A turn that was answered in one go; `refusal` is the outcome of reading its evidence.
  function PersistTurnStep(s: Store, id: Id, session: Id, user: Id, refusal: Option<string>): (Store, Reply) {
    var denied := SessionRefusal(s, session, user);
    if denied.Some? then (s, Rejected(denied.value))
    else if id in s.runs then (s, Rejected("23505"))
    else if refusal.Some? then (s, Rejected(refusal.value))
    else
      var log := [Event(1, RunStarted), Event(2, RunCompleted)];
      (s.(runs := s.runs[id := Run(session, Completed, log)]), Settled(Completed))
  }

  // --- Completing and settling ---------------------------------------------------------------------------

  // `sound` says that the bindings, counts and summaries of the call are within their limits.
  datatype ToolCall = ToolCall(name: string, sound: bool)

  predicate ValidCalls(calls: seq<ToolCall>) {
    && 1 <= |calls| <= 2 && calls[0].name == "knowledge.search"
    && (|calls| == 2 ==> calls[1].name == "knowledge.read")
    && forall i :: 0 <= i < |calls| ==> calls[i].sound
  }

  function CallEvents(calls: seq<ToolCall>): seq<Event> {
    if calls == [] then []
    else
      var index := |calls| - 1;
      CallEvents(calls[..index])
      + [Event(index * 2 + 2, ToolRequested(calls[index].name)), Event(index * 2 + 3, ToolCompleted(calls[index].name))]
  }

  predicate Owned(s: Store, id: Id, session: Id, user: Id) {
    id in s.runs && s.runs[id].session == session && session in s.sessions && s.sessions[session].user == user
  }

  // `refusal` is the outcome of the access and evidence checks made inside the transaction.
  function CompleteStep(s: Store, id: Id, session: Id, user: Id, calls: seq<ToolCall>,
                        refusal: Option<string>): (Store, Reply) {
    if !ValidCalls(calls) then (s, Rejected("AGENT_TOOL_CALL_INVALID"))
    else if !Owned(s, id, session, user) then (s, Rejected("AGENT_RUN_NOT_FOUND"))
    else if s.runs[id].status != Running then (s, Rejected("AGENT_RUN_NOT_RUNNING"))
    else if refusal.Some? then (s, Rejected(refusal.value))
    else
      var run := s.runs[id];
      var rows := CallEvents(calls) + [Event(|calls| * 2 + 2, RunCompleted)];
      if Taken(run.log, rows) then (s, Rejected("23505"))
      else (s.(runs := s.runs[id := run.(status := Completed, log := run.log + rows)]), Settled(Completed))
  }

  function SettleStep(s: Store, id: Id, session: Id, user: Id, stopped: bool): (Store, Reply) {
    if !Owned(s, id, session, user) then (s, Rejected("AGENT_RUN_NOT_FOUND"))
    else if s.runs[id].status != Running then (s, Rejected("AGENT_RUN_NOT_RUNNING"))
    else
      var run := s.runs[id];
      var row := Event(LastSequence(run.log) + 1, if stopped then RunStopped else RunFailed);
      var status := if stopped then Stopped else Failed;
      (s.(runs := s.runs[id := run.(status := status, log := run.log + [row])]), Settled(status))
  }

  // Stopping reads the run first and settles it in a transaction of its own: `seen` is what that reading found.
  function SeenBy(s: Store, id: Id, user: Id): Option<Run> {
    if id in s.runs && Owned(s, id, s.runs[id].session, user) then Some(s.runs[id]) else None
  }

  function StopStep(s: Store, id: Id, user: Id, seen: Option<Run>): (Store, Reply) {
    if seen.None? then (s, Rejected("AGENT_RUN_NOT_FOUND"))
    else if seen.value.status != Running then (s, Settled(seen.value.status))
    else SettleStep(s, id, seen.value.session, user, true)
  }

  // --- Projecting a stream of core events -------------------------------------------------------------------

  datatype CoreEvent =
    | Started(run: Id)
    | Delta(run: Id)
    | Requested(run: Id, call: string, tool: string, summary: string)
    | Done(run: Id, call: string, summary: string)
    | Finished(run: Id)
    | Broken(run: Id, code: string)
    | Cancelled(run: Id)

  predicate Terminal(e: CoreEvent) {
    e.Finished? || e.Broken? || e.Cancelled?
  }

  predicate Persisted(tool: string) {
    tool == "knowledge.search" || tool == "knowledge.read"
  }

  predicate Summary(text: string, limit: nat) {
    !Blank(text) && |text| <= limit
  }

  // What the checks remember: the tool of each requested call, the completed calls, the terminal event.
  datatype Scan = Scan(tools: map<string, string>, completed: set<string>, terminal: Option<CoreEvent>)

  predicate Follows(st: Scan, e: CoreEvent) {
    && st.terminal.None?
    && match e
       case Started(_) => st.tools == map[] && st.completed == {}
       case Delta(_) => true
       case Requested(_, call, tool, summary) =>
         Persisted(tool) && call !in st.tools && Summary(summary, MAX_SUMMARY_LENGTH)
       case Done(_, call, summary) => call in st.tools && call !in st.completed && Summary(summary, MAX_SUMMARY_LENGTH)
       case Broken(_, code) => Summary(code, MAX_CODE_LENGTH)
       case Finished(_) => true
       case Cancelled(_) => true
  }

  function Noted(st: Scan, e: CoreEvent): Scan {
    match e
    case Requested(_, call, tool, _) => st.(tools := st.tools[call := tool])
    case Done(_, call, _) => st.(completed := st.completed + {call})
    case _ => if Terminal(e) then st.(terminal := Some(e)) else st
  }

  function ScanAll(events: seq<CoreEvent>, run: Id): Option<Scan> {
    if events == [] then Some(Scan(map[], {}, None))
    else
      var last := events[|events| - 1];
      match ScanAll(events[..|events| - 1], run)
      case None => None
      case Some(st) => if last.run == run && Follows(st, last) then Some(Noted(st, last)) else None
  }

  // The checks made before the transaction: the scan of a stream that may be projected.
  function Admitted(events: seq<CoreEvent>, run: Id): Option<Scan> {
    if events == [] || !events[0].Started? then None
    else match ScanAll(events, run)
      case None => None
      case Some(st) => if st.terminal.None? || |st.tools| != |st.completed| then None else Some(st)
  }

  // The kind of the row of an event; text is never persisted, so its kind does not matter.
  function KindOf(e: CoreEvent, tools: map<string, string>): Kind {
    match e
    case Started(_) => RunStarted
    case Delta(_) => RunStarted
    case Requested(_, _, tool, _) => ToolRequested(tool)
    case Done(_, call, _) => ToolCompleted(if call in tools then tools[call] else "")
    case Finished(_) => RunCompleted
    case Broken(_, _) => RunFailed
    case Cancelled(_) => RunStopped
  }

  predicate Skipped(e: CoreEvent, hasStarted: bool) {
    e.Delta? || (e.Started? && hasStarted)
  }

  // The rows appended after sequence number `last`.
  function Rows(events: seq<CoreEvent>, tools: map<string, string>, hasStarted: bool, last: nat): seq<Event> {
    if events == [] then []
    else
      var rows, e := Rows(events[..|events| - 1], tools, hasStarted, last), events[|events| - 1];
      if Skipped(e, hasStarted) then rows else rows + [Event(last + |rows| + 1, KindOf(e, tools))]
  }

  function StatusOf(e: CoreEvent): RunStatus {
    match e
    case Finished(_) => Completed
    case Broken(_, _) => Failed
    case _ => Stopped
  }

  function ProjectStep(s: Store, id: Id, events: seq<CoreEvent>): (Store, Reply) {
    match Admitted(events, id)
    case None => (s, Rejected("AGENT_RUN_PROJECTION_INVALID"))
    case Some(st) =>
      if id !in s.runs then (s, Rejected("AGENT_RUN_NOT_FOUND"))
      else if s.runs[id].status != Running then (s, Rejected("AGENT_RUN_ALREADY_SETTLED"))
      else
        var run := s.runs[id];
        if exists i :: 0 <= i < |run.log| && run.log[i].kind != RunStarted then
          (s, Rejected("AGENT_RUN_ALREADY_PROJECTED"))
        else
          var rows := Rows(events, st.tools, run.log != [], LastSequence(run.log));
          var status := StatusOf(st.terminal.value);
          (s.(runs := s.runs[id := run.(status := status, log := run.log + rows)]), Settled(status))
  }

  // --- The store as the program updates it --------------------------------------------------------------------

  class RunStore {
    var sessions: map<Id, Session>
    var runs: map<Id, Run>

    ghost function Model(): Store
      reads this
    {
      Store(sessions, runs)
    }

    constructor ()
      ensures Model() == Store(map[], map[])
    {
      sessions, runs := map[], map[];
    }

    method CheckSession(session: Id, user: Id) returns (refusal: Option<string>)
      ensures refusal == SessionRefusal(Model(), session, user)
    {
      if session !in sessions || sessions[session].user != user {
        return Some("AGENT_SESSION_NOT_FOUND");
      }
      if !sessions[session].active {
        return Some("AGENT_SESSION_ARCHIVED");
      }
      refusal := None;
    }

    method BeginRun(id: Id, session: Id, user: Id) returns (r: Reply)
      modifies this`runs
      ensures Model() == BeginStep(old(Model()), id, session, user).0
      ensures r == BeginStep(old(Model()), id, session, user).1
    {
      var refusal := CheckSession(session, user);
      if refusal.Some? {
        return Rejected(refusal.value);
      }
      if exists run :: run in runs && runs[run].session == session && runs[run].status == Running {
        return Rejected("AGENT_RUN_ACTIVE");
      }
      if id in runs {
        return Rejected("23505");
      }
      runs := runs[id := Run(session, Running, [Event(1, RunStarted)])];
      r := Settled(Running);
    }

    method PersistTurn(id: Id, session: Id, user: Id, evidence: Option<string>) returns (r: Reply)
      modifies this`runs
      ensures Model() == PersistTurnStep(old(Model()), id, session, user, evidence).0
      ensures r == PersistTurnStep(old(Model()), id, session, user, evidence).1
    {
      var refusal := CheckSession(session, user);
      if refusal.Some? {
        return Rejected(refusal.value);
      }
      if id in runs {
        return Rejected("23505");
      }
      if evidence.Some? {
        return Rejected(evidence.value);
      }
      runs := runs[id := Run(session, Completed, [Event(1, RunStarted), Event(2, RunCompleted)])];
      r := Settled(Completed);
    }

    method CompleteRun(id: Id, session: Id, user: Id, calls: seq<ToolCall>, refusal: Option<string>) returns (r: Reply)
      modifies this`runs
      ensures Model() == CompleteStep(old(Model()), id, session, user, calls, refusal).0
      ensures r == CompleteStep(old(Model()), id, session, user, calls, refusal).1
    {
      hide CallEvents;
      if !ValidCalls(calls) {
        return Rejected("AGENT_TOOL_CALL_INVALID");
      }
      if id !in runs || runs[id].session != session || session !in sessions || sessions[session].user != user {
        return Rejected("AGENT_RUN_NOT_FOUND");
      }
      var run := runs[id];
      if run.status != Running {
        return Rejected("AGENT_RUN_NOT_RUNNING");
      }
      if refusal.Some? {
        return Rejected(refusal.value);
      }
      var rows := CallEvents(calls) + [Event(|calls| * 2 + 2, RunCompleted)];
      if Taken(run.log, rows) {
        return Rejected("23505");
      }
      runs := runs[id := run.(status := Completed, log := run.log + rows)];
      r := Settled(Completed);
    }

    method SettleRun(id: Id, session: Id, user: Id, stopped: bool) returns (r: Reply)
      modifies this`runs
      ensures Model() == SettleStep(old(Model()), id, session, user, stopped).0
      ensures r == SettleStep(old(Model()), id, session, user, stopped).1
    {
      if id !in runs || runs[id].session != session || session !in sessions || sessions[session].user != user {
        return Rejected("AGENT_RUN_NOT_FOUND");
      }
      var run := runs[id];
      if run.status != Running {
        return Rejected("AGENT_RUN_NOT_RUNNING");
      }
      var status := if stopped then Stopped else Failed;
      var row := Event(LastSequence(run.log) + 1, if stopped then RunStopped else RunFailed);
      runs := runs[id := run.(status := status, log := run.log + [row])];
      r := Settled(status);
    }

    method SeeRun(id: Id, user: Id) returns (seen: Option<Run>)
      ensures seen == SeenBy(Model(), id, user)
    {
      if id !in runs || runs[id].session !in sessions || sessions[runs[id].session].user != user {
        return None;
      }
      seen := Some(runs[id]);
    }

    method StopRun(id: Id, user: Id, seen: Option<Run>) returns (r: Reply)
      modifies this`runs
      ensures Model() == StopStep(old(Model()), id, user, seen).0
      ensures r == StopStep(old(Model()), id, user, seen).1
    {
      if seen.None? {
        return Rejected("AGENT_RUN_NOT_FOUND");
      }
      if seen.value.status != Running {
        return Settled(seen.value.status);
      }
      r := SettleRun(id, seen.value.session, user, true);
    }

    method CheckEvents(events: seq<CoreEvent>, id: Id) returns (r: Option<Scan>)
      ensures r == Admitted(events, id)
    {
      if events == [] || !events[0].Started? {
        return None;
      }
      var st := Scan(map[], {}, None);
      for i := 0 to |events|
        invariant ScanAll(events[..i], id) == Some(st)
      {
        assert events[..i + 1][..i] == events[..i];
        if events[i].run != id || !Follows(st, events[i]) {
          ScanFails(events, id, i + 1);
          return None;
        }
        st := Noted(st, events[i]);
      }
      assert events[..|events|] == events;
      if st.terminal.None? || |st.tools| != |st.completed| {
        return None;
      }
      r := Some(st);
    }

    method ProjectRun(id: Id, events: seq<CoreEvent>) returns (r: Reply)
      modifies this`runs
      ensures Model() == ProjectStep(old(Model()), id, events).0
      ensures r == ProjectStep(old(Model()), id, events).1
    {
      hide Admitted, KindOf, Skipped;
      var checked := CheckEvents(events, id);
      if checked.None? {
        return Rejected("AGENT_RUN_PROJECTION_INVALID");
      }
      AdmittedSettles(events, id);
      var st := checked.value;
      if id !in runs {
        return Rejected("AGENT_RUN_NOT_FOUND");
      }
      var run := runs[id];
      if run.status != Running {
        return Rejected("AGENT_RUN_ALREADY_SETTLED");
      }
      if exists i :: 0 <= i < |run.log| && run.log[i].kind != RunStarted {
        return Rejected("AGENT_RUN_ALREADY_PROJECTED");
      }
      var hasStarted, last := run.log != [], LastSequence(run.log);
      var rows: seq<Event> := [];
      for i := 0 to |events|
        invariant rows == Rows(events[..i], st.tools, hasStarted, last)
      {
        assert events[..i + 1][..i] == events[..i];
        if !Skipped(events[i], hasStarted) {
          rows := rows + [Event(last + |rows| + 1, KindOf(events[i], st.tools))];
        }
      }
      assert events[..|events|] == events;
      var status := StatusOf(st.terminal.value);
      runs := runs[id := run.(status := status, log := run.log + rows)];
      r := Settled(status);
    }
  }

  lemma {:induction false} ScanFails(events: seq<CoreEvent>, run: Id, k: nat)
    requires k <= |events| && ScanAll(events[..k], run).None?
    ensures ScanAll(events, run).None?
  {
    hide Follows, Noted;
    if k == |events| {
      assert events[..k] == events;
    } else {
      assert events[..|events| - 1][..k] == events[..k];
      ScanFails(events[..|events| - 1], run, k);
    }
  }

  lemma AdmittedSettles(events: seq<CoreEvent>, run: Id)
    ensures Admitted(events, run).Some? ==> Admitted(events, run).value.terminal.Some?
  {
  }
}
