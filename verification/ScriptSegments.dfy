/** Agent scripts: which are valid, how they are cut into assistant turns, and what those turns replay. */
module ScriptSegments {
  import opened Numerals
  import opened Text

  datatype Event =
    | Delta(text: string)
    | ToolRequested(call: string, tool: string, input: string)
    | ToolCompleted(call: string, output: string)
    | RunCompleted
    | RunFailed(code: string)

  type Script = seq<Event>

  // --- Validation --------------------------------------------------------------------------------------

  predicate Summary(s: string) {
    !Blank(s) && |s| <= 2000
  }

  predicate LowerLetter(c: char) {
    'a' <= c <= 'z'
  }

  predicate IdChar(c: char) {
    LowerLetter(c) || '0' <= c <= '9' || c == '-'
  }

  predicate ToolName(s: string) {
    0 < |s| <= 100 && LowerLetter(s[0]) && forall i :: 0 < i < |s| ==> IdChar(s[i]) || s[i] == '.'
  }

  predicate CallId(s: string) {
    0 < |s| <= 100 && LowerLetter(s[0]) && forall i :: 0 < i < |s| ==> IdChar(s[i]) || s[i] == '_'
  }

  // What is left of a script after these calls were requested and these completed.
  predicate ValidFrom(script: Script, requested: set<string>, completed: set<string>) {
    && script != []
    && match script[0]
       case Delta(text) => Summary(text) && ValidFrom(script[1..], requested, completed)
       case ToolRequested(call, tool, input) =>
         CallId(call) && ToolName(tool) && Summary(input) && call !in requested
         && ValidFrom(script[1..], requested + {call}, completed)
       case ToolCompleted(call, output) =>
         CallId(call) && Summary(output) && call in requested && call !in completed
         && ValidFrom(script[1..], requested, completed + {call})
       case RunCompleted => |requested| == |completed| && script[1..] == []
       case RunFailed(code) => Summary(code) && script[1..] == []
  }

  predicate Valid(script: Script) {
    ValidFrom(script, {}, {})
  }

  method ValidateScript(script: Script) returns (validated: Option<Script>)
    ensures validated == if Valid(script) then Some(script) else None
  {
    var requested: set<string>, completed: set<string>, terminal := {}, {}, false;
    var kept: Script := [];
    for i := 0 to |script|
      invariant kept == script[..i]
      invariant terminal ==> Valid(script) == (script[i..] == [])
      invariant !terminal ==> Valid(script) == ValidFrom(script[i..], requested, completed)
    {
      if terminal {
        return None;
      }
      var e := script[i];
      assert script[i..][1..] == script[i + 1..];
      match e {
        case Delta(text) =>
          if !Summary(text) { return None; }
        case ToolRequested(call, tool, input) =>
          if !CallId(call) || !ToolName(tool) || !Summary(input) || call in requested { return None; }
          requested := requested + {call};
        case ToolCompleted(call, output) =>
          if !CallId(call) || !Summary(output) || call !in requested || call in completed { return None; }
          completed := completed + {call};
        case RunCompleted =>
          if |requested| != |completed| { return None; }
          terminal := true;
        case RunFailed(code) =>
          if !Summary(code) { return None; }
          terminal := true;
      }
      kept := kept + [e];
    }
    if !terminal {
      return None;
    }
    assert script[..|script|] == script;
    validated := Some(kept);
  }

  // --- Compilation -------------------------------------------------------------------------------------

  datatype Pair = Pair(call: string, tool: string, input: string, output: string)

  datatype Segment =
    | Assistant(deltas: seq<string>, pairs: seq<Pair>, error: Option<string>)
    | ErrorOnly(code: string)

  function FindPair(pairs: seq<Pair>, call: string): (at: int)
    ensures -1 <= at < |pairs| && (at >= 0 ==> pairs[at].call == call)
    ensures forall i :: 0 <= i < |pairs| && (at < 0 || i < at) ==> pairs[i].call != call
  {
    if pairs == [] then -1
    else
      var rest := FindPair(pairs[..|pairs| - 1], call);
      if rest >= 0 then rest else if pairs[|pairs| - 1].call == call then |pairs| - 1 else -1
  }

  function PutPair(pairs: seq<Pair>, pair: Pair): seq<Pair> {
    var at := FindPair(pairs, pair.call);
    if at >= 0 then pairs[at := pair] else pairs + [pair]
  }

  function SetOutput(pairs: seq<Pair>, call: string, output: string): seq<Pair> {
    var at := FindPair(pairs, call);
    if at >= 0 then pairs[at := pairs[at].(output := output)] else pairs
  }

  // Is there an assistant segment to add to? It is then the last one.
  predicate HasCurrent(segments: seq<Segment>) {
    segments != [] && segments[|segments| - 1].Assistant?
  }

  function Ready(segments: seq<Segment>): (ready: seq<Segment>)
    ensures HasCurrent(ready)
  {
    if HasCurrent(segments) then segments else segments + [Assistant([], [], None)]
  }

  function Last(segments: seq<Segment>): Segment
    requires segments != []
  {
    segments[|segments| - 1]
  }

  function WithLast(segments: seq<Segment>, segment: Segment): seq<Segment>
    requires segments != []
  {
    segments[|segments| - 1 := segment]
  }

  function Feed(segments: seq<Segment>, e: Event): seq<Segment> {
    match e
    case Delta(text) =>
      var ready := Ready(segments);
      var last := Last(ready);
      if last.pairs != [] || last.error.Some? then ready + [Assistant([text], [], None)]
      else WithLast(ready, last.(deltas := last.deltas + [text]))
    case ToolRequested(call, tool, input) =>
      var ready := Ready(segments);
      WithLast(ready, Last(ready).(pairs := PutPair(Last(ready).pairs, Pair(call, tool, input, ""))))
    case ToolCompleted(call, output) =>
      if !HasCurrent(segments) then segments
      else WithLast(segments, Last(segments).(pairs := SetOutput(Last(segments).pairs, call, output)))
    case RunCompleted => segments
    case RunFailed(code) =>
      if HasCurrent(segments) then WithLast(segments, Last(segments).(error := Some(code)))
      else segments + [ErrorOnly(code)]
  }

  function FeedAll(segments: seq<Segment>, script: Script): seq<Segment>
    decreases |script|
  {
    if script == [] then segments else FeedAll(Feed(segments, script[0]), script[1..])
  }

  // A turn that ends on tool calls, or an empty script, needs one more empty turn.
  function Finished(segments: seq<Segment>): seq<Segment> {
    if segments == [] then [Assistant([], [], None)]
    else
      var last := Last(segments);
      if last.ErrorOnly? || last.error.Some? then segments
      else if last.pairs != [] then segments + [Assistant([], [], None)]
      else segments
  }

  function Compile(script: Script): seq<Segment> {
    Finished(FeedAll([], script))
  }

  // `current` is the index of the segment being added to, or -1.
  predicate Points(current: int, segments: seq<Segment>) {
    current == if HasCurrent(segments) then |segments| - 1 else -1
  }

  method FeedOne(segments: seq<Segment>, current: int, e: Event) returns (fed: seq<Segment>, current': int)
    requires Points(current, segments)
    ensures fed == Feed(segments, e) && Points(current', fed)
  {
    hide PutPair, SetOutput;
    assert e.Delta? ==> [] + [e.text] == [e.text];
    fed, current' := segments, current;
    if (e.Delta? || e.ToolRequested?) && current' < 0 {
      fed := fed + [Assistant([], [], None)];
      current' := |fed| - 1;
    }
    match e {
      case Delta(text) =>
        if fed[current'].pairs != [] || fed[current'].error.Some? {
          fed := fed + [Assistant([], [], None)];
          current' := |fed| - 1;
        }
        fed := fed[current' := fed[current'].(deltas := fed[current'].deltas + [text])];
      case ToolRequested(call, tool, input) =>
        fed := fed[current' := fed[current'].(pairs := PutPair(fed[current'].pairs, Pair(call, tool, input, "")))];
      case ToolCompleted(call, output) =>
        if current' >= 0 {
          fed := fed[current' := fed[current'].(pairs := SetOutput(fed[current'].pairs, call, output))];
        }
      case RunCompleted =>
      case RunFailed(code) =>
        if current' >= 0 {
          fed := fed[current' := fed[current'].(error := Some(code))];
        } else {
          fed := fed + [ErrorOnly(code)];
        }
    }
  }

  method CompileSegments(script: Script) returns (segments: seq<Segment>)
    ensures segments == Compile(script)
  {
    hide Feed;
    segments := [];
    var current := -1;
    for i := 0 to |script|
      invariant Points(current, segments)
      invariant FeedAll(segments, script[i..]) == FeedAll([], script)
    {
      assert script[i..][0] == script[i] && script[i..][1..] == script[i + 1..];
      segments, current := FeedOne(segments, current, script[i]);
    }
    if segments == [] {
      return [Assistant([], [], None)];
    }
    var last := segments[|segments| - 1];
    if last.ErrorOnly? || last.error.Some? {
      return;
    }
    if last.pairs != [] {
      segments := segments + [Assistant([], [], None)];
    }
  }

  // --- Replay ------------------------------------------------------------------------------------------

  predicate CodeChar(c: char) {
    'A' <= c <= 'Z' || '0' <= c <= '9' || c == '_'
  }

  // Only codes of this form survive the replay.
  predicate StableCode(code: string) {
    code != "" && 'A' <= code[0] <= 'Z' && forall i :: 0 < i < |code| ==> CodeChar(code[i])
  }

  function Reported(code: string): string {
    if StableCode(code) then code else "PI_AGENT_RUN_FAILED"
  }

  function Deltas(texts: seq<string>): Script {
    seq(|texts|, i requires 0 <= i < |texts| => Delta(texts[i]))
  }

  function Calls(pairs: seq<Pair>): Script {
    if pairs == [] then []
    else
      var last := pairs[|pairs| - 1];
      Calls(pairs[..|pairs| - 1])
        + [ToolRequested(last.call, last.tool, last.input), ToolCompleted(last.call, last.output)]
  }

  // What the loop makes of the turns: the text of a turn, then its tool calls one by one, then the next turn.
  // A turn without calls ends the run, and an error ends it before the calls of its turn are made.
  function Replay(segments: seq<Segment>): Script {
    if segments == [] then [RunFailed("PI_SCRIPT_EXHAUSTED")]
    else match segments[0]
      case ErrorOnly(code) => [RunFailed(Reported(code))]
      case Assistant(deltas, pairs, error) =>
        Deltas(deltas) + (if error.Some? then [RunFailed(Reported(error.value))]
                          else if pairs == [] then [RunCompleted]
                          else Calls(pairs) + Replay(segments[1..]))
  }

  // --- The scripts that survive --------------------------------------------------------------------------

  // Every request directly followed by its completion, no failure directly after a tool call, stable codes.
  predicate Orderly(script: Script) {
    if script == [] then true
    else match script[0]
      case Delta(_) => Orderly(script[1..])
      case ToolRequested(call, _, _) =>
        |script| >= 2 && script[1].ToolCompleted? && script[1].call == call
        && (|script| >= 3 ==> !script[2].RunFailed?) && Orderly(script[2..])
      case ToolCompleted(_, _) => false
      case RunCompleted => true
      case RunFailed(code) => StableCode(code)
  }

  // --- Turns ---------------------------------------------------------------------------------------------

  // While the script is being read: turns but the last end on tool calls, turns but the first begin with text.
  predicate Growing(segments: seq<Segment>) {
    && (forall i :: 0 <= i < |segments| ==> segments[i].Assistant? && segments[i].error.None?)
    && (forall i :: 0 <= i < |segments| - 1 ==> segments[i].pairs != [])
    && (forall i :: 0 < i < |segments| ==> segments[i].deltas != [])
  }

  // A turn that is followed by another ends on tool calls; the last one does not, or fails.
  predicate Complete(segments: seq<Segment>) {
    && segments != []
    && (forall i :: 0 <= i < |segments| - 1 ==>
        segments[i].Assistant? && segments[i].error.None? && segments[i].pairs != [])
    && (Last(segments).Assistant? ==> Last(segments).error.Some? || Last(segments).pairs == [])
    && (forall i :: 0 < i < |segments| ==>
        segments[i].Assistant? && (segments[i].error.Some? ==> segments[i].deltas != []))
  }

  lemma FeedGrows(segments: seq<Segment>, e: Event)
    requires Growing(segments) && !e.RunFailed?
    ensures Growing(Feed(segments, e))
  {
  }

  lemma {:induction false} FeedAllCompletes(segments: seq<Segment>, script: Script, requested: set<string>,
                                            completed: set<string>)
    requires Growing(segments) && ValidFrom(script, requested, completed)
    ensures Complete(Finished(FeedAll(segments, script)))
    decreases |script|
  {
    var e := script[0];
    if e.RunCompleted? || e.RunFailed? {
      assert FeedAll(segments, script) == Feed(segments, e);
    } else {
      FeedGrows(segments, e);
      var requested' := if e.ToolRequested? then requested + {e.call} else requested;
      var completed' := if e.ToolCompleted? then completed + {e.call} else completed;
      FeedAllCompletes(Feed(segments, e), script[1..], requested', completed');
    }
  }

  // The turns of a valid script are never too few and never cut short.
  lemma TurnsSuffice(script: Script)
    requires Valid(script)
    ensures Complete(Compile(script))
  {
    FeedAllCompletes([], script, {}, {});
  }

  // --- Whatever is replayed is orderly ---------------------------------------------------------------------

  lemma {:induction false} DeltasOrderly(texts: seq<string>, rest: Script)
    requires Orderly(rest)
    ensures Orderly(Deltas(texts) + rest)
  {
    if texts == [] {
      assert Deltas(texts) + rest == rest;
    } else {
      DeltasOrderly(texts[1..], rest);
      assert (Deltas(texts) + rest)[1..] == Deltas(texts[1..]) + rest;
    }
  }

  lemma {:induction false} CallsOrderly(pairs: seq<Pair>, rest: Script)
    requires Orderly(rest) && (rest != [] ==> !rest[0].RunFailed?)
    ensures Orderly(Calls(pairs) + rest)
  {
    if pairs == [] {
      assert Calls(pairs) + rest == rest;
    } else {
      var last := pairs[|pairs| - 1];
      var request, done := ToolRequested(last.call, last.tool, last.input), ToolCompleted(last.call, last.output);
      var tail := [request, done] + rest;
      assert tail[2..] == rest && (|tail| >= 3 ==> tail[2] == rest[0]);
      CallsOrderly(pairs[..|pairs| - 1], tail);
      assert Calls(pairs) + rest == Calls(pairs[..|pairs| - 1]) + tail;
    }
  }

  lemma ReportedStable(code: string)
    ensures StableCode(Reported(code))
  {
    var fallback := "PI_AGENT_RUN_FAILED";
    assert forall i :: 0 <= i < |fallback| ==> CodeChar(fallback[i]);
  }

  lemma {:induction false} ReplayOrderly(segments: seq<Segment>)
    requires Complete(segments)
    ensures Orderly(Replay(segments))
  {
    var first := segments[0];
    if first.ErrorOnly? {
      ReportedStable(first.code);
    } else {
      var tail := if first.error.Some? then [RunFailed(Reported(first.error.value))]
                  else if first.pairs == [] then [RunCompleted] else Calls(first.pairs) + Replay(segments[1..]);
      if first.error.Some? {
        ReportedStable(first.error.value);
      } else if first.pairs != [] {
        ReplayOrderly(segments[1..]);
        NextTurnStarts(segments[1..]);
        CallsOrderly(first.pairs, Replay(segments[1..]));
      }
      DeltasOrderly(first.deltas, tail);
    }
  }

  lemma NextTurnStarts(segments: seq<Segment>)
    requires Complete(segments) && segments[0].Assistant? && (segments[0].error.Some? ==> segments[0].deltas != [])
    ensures Replay(segments) != [] && !Replay(segments)[0].RunFailed?
  {
    var first := segments[0];
    if first.deltas == [] && first.pairs != [] {
      CallsStart(first.pairs);
    }
  }

  lemma {:induction false} CallsStart(pairs: seq<Pair>)
    requires pairs != []
    ensures Calls(pairs) != [] && Calls(pairs)[0].ToolRequested?
  {
    if |pairs| > 1 {
      CallsStart(pairs[..|pairs| - 1]);
    }
  }

  // --- Orderly scripts are replayed as they are ------------------------------------------------------------

  function Emitted(segments: seq<Segment>): Script {
    if segments == [] then []
    else
      var before, last := Emitted(segments[..|segments| - 1]), Last(segments);
      if last.ErrorOnly? then before else before + Deltas(last.deltas) + Calls(last.pairs)
  }

  // The calls in the current turn have all been requested.
  predicate Known(segments: seq<Segment>, requested: set<string>) {
    HasCurrent(segments) ==> forall i :: 0 <= i < |Last(segments).pairs| ==> Last(segments).pairs[i].call in requested
  }

  lemma DeltaEmits(segments: seq<Segment>, text: string)
    requires Growing(segments)
    ensures Emitted(Feed(segments, Delta(text))) == Emitted(segments) + [Delta(text)]
  {
    var ready := Ready(segments);
    ReadyEmits(segments);
    var last, fed := Last(ready), Feed(segments, Delta(text));
    if last.pairs != [] {
      assert fed[..|ready|] == ready;
      assert Deltas([text]) == [Delta(text)];
      assert Emitted(fed) == Emitted(ready) + [Delta(text)] + [];
    } else {
      assert fed[..|ready| - 1] == ready[..|ready| - 1];
      assert Deltas(last.deltas + [text]) == Deltas(last.deltas) + [Delta(text)];
      var before := Emitted(ready[..|ready| - 1]);
      assert before + (Deltas(last.deltas) + [Delta(text)]) + [] == before + Deltas(last.deltas) + [] + [Delta(text)];
    }
  }

  lemma ReadyEmits(segments: seq<Segment>)
    requires Growing(segments)
    ensures Emitted(Ready(segments)) == Emitted(segments) && Growing(Ready(segments))
  {
    if segments == [] {
      assert [Assistant([], [], None)][..0] == [];
    }
  }

  lemma CallFeeds(segments: seq<Segment>, call: string, tool: string, input: string, output: string,
                  requested: set<string>)
    requires Growing(segments) && Known(segments, requested) && call !in requested
    ensures var ready := Ready(segments);
            Feed(Feed(segments, ToolRequested(call, tool, input)), ToolCompleted(call, output))
            == WithLast(ready, Last(ready).(pairs := Last(ready).pairs + [Pair(call, tool, input, output)]))
  {
    var ready := Ready(segments);
    var last, pending := Last(ready), Pair(call, tool, input, "");
    assert PutPair(last.pairs, pending) == last.pairs + [pending];
    assert FindPair(last.pairs + [pending], call) == |last.pairs|;
    assert SetOutput(last.pairs + [pending], call, output) == last.pairs + [Pair(call, tool, input, output)];
    hide PutPair, SetOutput;
  }

  lemma GrownTurnEmits(ready: seq<Segment>, pair: Pair)
    requires ready != [] && Last(ready).Assistant?
    ensures var grown := WithLast(ready, Last(ready).(pairs := Last(ready).pairs + [pair]));
            Emitted(grown) == Emitted(ready)
              + [ToolRequested(pair.call, pair.tool, pair.input), ToolCompleted(pair.call, pair.output)]
  {
    hide Deltas;
    var last := Last(ready);
    var grown := WithLast(ready, last.(pairs := last.pairs + [pair]));
    assert grown[..|ready| - 1] == ready[..|ready| - 1];
    assert (last.pairs + [pair])[..|last.pairs|] == last.pairs;
    var before := Emitted(ready[..|ready| - 1]);
    var done := [ToolRequested(pair.call, pair.tool, pair.input), ToolCompleted(pair.call, pair.output)];
    assert Calls(last.pairs + [pair]) == Calls(last.pairs) + done;
    hide Calls;
    assert before + Deltas(last.deltas) + (Calls(last.pairs) + done)
        == before + Deltas(last.deltas) + Calls(last.pairs) + done;
  }

  lemma GrownTurnGrows(ready: seq<Segment>, pair: Pair)
    requires ready != [] && Last(ready).Assistant? && Growing(ready)
    ensures var grown := WithLast(ready, Last(ready).(pairs := Last(ready).pairs + [pair]));
            Growing(grown) && Last(grown).pairs != []
  {
  }

  lemma GrownTurnKnown(segments: seq<Segment>, pair: Pair, requested: set<string>)
    requires Known(segments, requested) && Last(Ready(segments)).Assistant?
    ensures var ready := Ready(segments);
            Known(WithLast(ready, Last(ready).(pairs := Last(ready).pairs + [pair])), requested + {pair.call})
  {
  }

  lemma CallEmits(segments: seq<Segment>, call: string, tool: string, input: string, output: string,
                  requested: set<string>)
    requires Growing(segments) && Known(segments, requested) && call !in requested
    ensures var fed := Feed(Feed(segments, ToolRequested(call, tool, input)), ToolCompleted(call, output));
            && Growing(fed) && Known(fed, requested + {call}) && fed != [] && Last(fed).pairs != []
            && Emitted(fed) == Emitted(segments) + [ToolRequested(call, tool, input), ToolCompleted(call, output)]
  {
    hide Feed, Emitted, Growing, Known, Ready;
    var pair := Pair(call, tool, input, output);
    CallFeeds(segments, call, tool, input, output, requested);
    ReadyEmits(segments);
    GrownTurnEmits(Ready(segments), pair);
    GrownTurnGrows(Ready(segments), pair);
    GrownTurnKnown(segments, pair, requested);
  }

  lemma TurnReplays(turn: Segment, rest: seq<Segment>)
    requires turn.Assistant? && turn.error.None? && turn.pairs != []
    ensures Replay([turn] + rest) == Deltas(turn.deltas) + (Calls(turn.pairs) + Replay(rest))
  {
    assert ([turn] + rest)[1..] == rest;
  }

  // Turns that all end on tool calls replay as what they emit, followed by the turns after them.
  lemma {:induction false} ReplayEmits(segments: seq<Segment>, rest: seq<Segment>)
    requires forall i :: 0 <= i < |segments| ==>
        segments[i].Assistant? && segments[i].error.None? && segments[i].pairs != []
    ensures Replay(segments + rest) == Emitted(segments) + Replay(rest)
  {
    hide Replay, Deltas, Calls;
    if segments == [] {
      assert segments + rest == rest;
    } else {
      var front, last := segments[..|segments| - 1], Last(segments);
      ReplayEmits(front, [last] + rest);
      assert front + ([last] + rest) == segments + rest;
      TurnReplays(last, rest);
    }
  }

  lemma ReplayLast(segments: seq<Segment>, last: Segment, end: Event)
    requires last.Assistant? && Growing(segments + [last.(error := None)])
    requires Replay([last]) == Deltas(last.deltas) + [end] && last.pairs == []
    ensures Replay(segments + [last]) == Emitted(segments + [last.(error := None)]) + [end]
  {
    var growing := segments + [last.(error := None)];
    forall i | 0 <= i < |segments|
      ensures segments[i].Assistant? && segments[i].error.None? && segments[i].pairs != []
    {
      assert segments[i] == growing[i];
    }
    ReplayEmits(segments, [last]);
    assert growing[..|segments|] == segments;
    assert Emitted(growing) == Emitted(segments) + Deltas(last.deltas) + [];
  }

  lemma BlankReplays()
    ensures Replay([Assistant([], [], None)]) == [RunCompleted]
  {
  }

  lemma TextTurnReplays(last: Segment)
    requires last.Assistant? && last.error.None? && last.pairs == []
    ensures Replay([last]) == Deltas(last.deltas) + [RunCompleted]
  {
  }

  lemma FinishedReplays(segments: seq<Segment>)
    requires Growing(segments)
    ensures Replay(Finished(segments)) == Emitted(segments) + [RunCompleted]
  {
    BlankReplays();
    if segments != [] {
      var front, last := segments[..|segments| - 1], Last(segments);
      if last.pairs != [] {
        ReplayEmits(segments, [Assistant([], [], None)]);
      } else {
        TextTurnReplays(last);
        hide Replay, Deltas, Emitted;
        assert segments == front + [last] && last == last.(error := None);
        ReplayLast(front, last, RunCompleted);
      }
    }
  }

  lemma FailedReplays(segments: seq<Segment>, code: string)
    requires Growing(segments) && (segments != [] ==> Last(segments).pairs == []) && StableCode(code)
    ensures Replay(Finished(Feed(segments, RunFailed(code)))) == Emitted(segments) + [RunFailed(code)]
  {
    if segments != [] {
      var front, last := segments[..|segments| - 1], Last(segments).(error := Some(code));
      assert segments == front + [last.(error := None)];
      assert Feed(segments, RunFailed(code)) == front + [last];
      ReplayLast(front, last, RunFailed(code));
    }
  }

  lemma {:induction false} OrderlyReplays(segments: seq<Segment>, script: Script, requested: set<string>,
                                          completed: set<string>)
    requires Growing(segments) && Known(segments, requested)
    requires ValidFrom(script, requested, completed) && Orderly(script)
    requires segments != [] && segments[|segments| - 1].Assistant? && segments[|segments| - 1].pairs != [] ==>
        !script[0].RunFailed?
    ensures Replay(Finished(FeedAll(segments, script))) == Emitted(segments) + script
    decreases |script|
  {
    hide Replay, Emitted, Feed, Growing, Known, Finished;
    var e := script[0];
    match e
    case RunCompleted =>
      FinishedReplays(segments);
      assert script == [e];
      OnlyEnd(segments, e);
    case RunFailed(code) =>
      GrowingAssists(segments);
      FailedReplays(segments, code);
      assert script == [e];
    case Delta(text) =>
      DeltaEmits(segments, text);
      DeltaKnown(segments, text, requested);
      OrderlyReplays(Feed(segments, e), script[1..], requested, completed);
      Glue(Emitted(segments), [e], script[1..]);
      assert [e] + script[1..] == script;
    case ToolRequested(call, tool, input) =>
      var done := script[1];
      CallEmits(segments, call, tool, input, done.output, requested);
      assert script[1..][1..] == script[2..];
      assert FeedAll(segments, script) == FeedAll(Feed(segments, e), script[1..])
          == FeedAll(Feed(Feed(segments, e), done), script[2..]);
      OrderlyReplays(Feed(Feed(segments, e), done), script[2..], requested + {call}, completed + {call});
      Glue(Emitted(segments), [e, done], script[2..]);
      assert [e, done] + script[2..] == script;
  }

  lemma Glue(a: Script, b: Script, c: Script)
    ensures a + b + c == a + (b + c)
  {
  }

  lemma OnlyEnd(segments: seq<Segment>, e: Event)
    requires e.RunCompleted?
    ensures FeedAll(segments, [e]) == segments
  {
  }

  lemma GrowingAssists(segments: seq<Segment>)
    requires Growing(segments)
    ensures segments != [] ==> Last(segments).Assistant?
  {
  }

  // After text the current turn has no calls yet.
  lemma DeltaKnown(segments: seq<Segment>, text: string, requested: set<string>)
    requires Growing(segments) && Known(segments, requested)
    ensures var fed := Feed(segments, Delta(text));
            Growing(fed) && Known(fed, requested) && fed != [] && Last(fed).Assistant? && Last(fed).pairs == []
  {
  }

  // A valid script is replayed exactly as it was written if and only if it is orderly.
  lemma ReplayedExactly(script: Script)
    requires Valid(script)
    ensures Replay(Compile(script)) == script <==> Orderly(script)
  {
    hide Replay, Finished, FeedAll, Orderly, ValidFrom;
    if Orderly(script) {
      OrderlyReplays([], script, {}, {});
    } else {
      TurnsSuffice(script);
      ReplayOrderly(Compile(script));
    }
  }

  // --- Scripts that lose their calls -----------------------------------------------------------------------

  // A failure keeps the text of the turn it ends and drops every call of that turn.
  lemma FailureDropsCalls(segments: seq<Segment>, code: string)
    requires Growing(segments) && segments != []
    ensures Replay(Finished(Feed(segments, RunFailed(code)))) ==
            Emitted(segments[..|segments| - 1]) + (Deltas(Last(segments).deltas) + [RunFailed(Reported(code))])
  {
    GrowingAssists(segments);
    var front, failed := segments[..|segments| - 1], Last(segments).(error := Some(code));
    assert Feed(segments, RunFailed(code)) == front + [failed];
    assert Replay([failed]) == Deltas(failed.deltas) + [RunFailed(Reported(code))];
    ReplayEmits(front, [failed]);
  }

  function CallThenFailure(call: string, tool: string, input: string, output: string, code: string): Script {
    [ToolRequested(call, tool, input), ToolCompleted(call, output), RunFailed(code)]
  }

  lemma CallThenFailureValid(call: string, tool: string, input: string, output: string, code: string)
    requires CallId(call) && ToolName(tool) && Summary(input) && Summary(output) && Summary(code)
    ensures Valid(CallThenFailure(call, tool, input, output, code))
    ensures !Orderly(CallThenFailure(call, tool, input, output, code))
  {
    hide CallId, ToolName, Summary, StableCode;
    var script := CallThenFailure(call, tool, input, output, code);
    assert ValidFrom(script[2..], {call}, {call});
    assert script[1..][1..] == script[2..];
    var none: set<string> := {};
    assert none + {call} == {call};
    assert ValidFrom(script[1..], {call}, {});
  }

  lemma ThreeFeeds(segments: seq<Segment>, a: Event, b: Event, c: Event)
    ensures FeedAll(segments, [a, b, c]) == Feed(Feed(Feed(segments, a), b), c)
  {
    hide Feed;
    assert [a, b, c][1..] == [b, c] && [b, c][1..] == [c];
    var fed := Feed(segments, a);
    assert FeedAll(fed, [b, c]) == FeedAll(Feed(fed, b), [c]);
  }

  lemma FirstCallFeeds(call: string, tool: string, input: string, output: string)
    ensures Feed(Feed([], ToolRequested(call, tool, input)), ToolCompleted(call, output))
            == [Assistant([], [Pair(call, tool, input, output)], None)]
  {
    CallFeeds([], call, tool, input, output, {});
    hide Feed;
    assert [] + [Pair(call, tool, input, output)] == [Pair(call, tool, input, output)];
  }

  // The shortest such scripts: one call, completed, and then a failure. They are valid, and only the failure is left.
  lemma CallIsLost(call: string, tool: string, input: string, output: string, code: string)
    requires CallId(call) && ToolName(tool) && Summary(input) && Summary(output) && Summary(code)
    ensures var script := CallThenFailure(call, tool, input, output, code);
            Valid(script) && !Orderly(script) && Replay(Compile(script)) == [RunFailed(Reported(code))]
  {
    CallThenFailureValid(call, tool, input, output, code);
    ThreeFeeds([], ToolRequested(call, tool, input), ToolCompleted(call, output), RunFailed(code));
    FirstCallFeeds(call, tool, input, output);
    FailureDropsCalls([Assistant([], [Pair(call, tool, input, output)], None)], code);
    hide Valid, Orderly, Replay, Finished, FeedAll, Feed, Reported;
  }

  lemma CallThenFailureExists()
    ensures exists script :: Valid(script) && !Orderly(script) && Replay(Compile(script)) == [RunFailed("STOPPED")]
  {
    hide Replay, Compile, Orderly, ValidFrom;
    var code := "STOPPED";
    assert Summary("x") && Summary(code) by {
      assert "x"[0] in "x" && code[0] in code;
    }
    assert CallId("c") && ToolName("t");
    assert StableCode(code);
    CallIsLost("c", "t", "x", "x", code);
  }
}
