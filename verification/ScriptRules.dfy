/** The rules of an agent script, spelled out over its events and its characters. */
module ScriptRules {
  import opened FiniteSets
  import opened Numerals
  import opened ScriptSegments
  import opened Text

  // --- Words ----------------------------------------------------------------------------------------

  const LOWER := "abcdefghijklmnopqrstuvwxyz"
  const UPPER := "ABCDEFGHIJKLMNOPQRSTUVWXYZ"
  const DIGITS := "0123456789"

  // A first character from one alphabet and the rest from another.
  predicate Word(s: string, first: string, rest: string) {
    s != "" && s[0] in first && forall i :: 0 < i < |s| ==> s[i] in rest
  }

  lemma InRange(alphabet: string, low: char, c: char)
    requires |alphabet| > 0 && forall i :: 0 <= i < |alphabet| ==> alphabet[i] as int == low as int + i
    ensures c in alphabet <==> low <= c && c as int < low as int + |alphabet|
  {
    if low <= c && c as int < low as int + |alphabet| {
      assert alphabet[c as int - low as int] == c;
    }
  }

  lemma Alphabets(c: char)
    ensures c in LOWER <==> 'a' <= c <= 'z'
    ensures c in UPPER <==> 'A' <= c <= 'Z'
    ensures c in DIGITS <==> '0' <= c <= '9'
  {
    InRange(LOWER, 'a', c);
    InRange(UPPER, 'A', c);
    InRange(DIGITS, '0', c);
  }

  lemma InBoth(a: string, b: string, c: char)
    ensures c in a + b <==> c in a || c in b
  {
    if c in a {
      var i :| 0 <= i < |a| && a[i] == c;
      assert (a + b)[i] == c;
    }
    if c in b {
      var i :| 0 <= i < |b| && b[i] == c;
      assert (a + b)[|a| + i] == c;
    }
  }

  // The codes that survive, the names of tools, and the ids of calls.
  lemma WordsAre(s: string)
    ensures StableCode(s) <==> Word(s, UPPER, UPPER + DIGITS + "_")
    ensures ToolName(s) <==> Word(s, LOWER, LOWER + DIGITS + "-.") && |s| <= 100
    ensures CallId(s) <==> Word(s, LOWER, LOWER + DIGITS + "-_") && |s| <= 100
  {
    forall i | 0 <= i < |s|
      ensures s[i] in LOWER <==> LowerLetter(s[i])
      ensures s[i] in UPPER <==> 'A' <= s[i] <= 'Z'
      ensures s[i] in UPPER + DIGITS + "_" <==> CodeChar(s[i])
      ensures s[i] in LOWER + DIGITS + "-." <==> IdChar(s[i]) || s[i] == '.'
      ensures s[i] in LOWER + DIGITS + "-_" <==> IdChar(s[i]) || s[i] == '_'
    {
      var c := s[i];
      Alphabets(c);
      InBoth(UPPER, DIGITS, c);
      InBoth(UPPER + DIGITS, "_", c);
      InBoth(LOWER, DIGITS, c);
      InBoth(LOWER + DIGITS, "-.", c);
      InBoth(LOWER + DIGITS, "-_", c);
      hide LOWER, UPPER, DIGITS;
    }
    hide CodeChar, IdChar, LowerLetter;
  }

  // --- Scripts ----------------------------------------------------------------------------------------

  predicate Ending(e: Event) {
    e.RunCompleted? || e.RunFailed?
  }

  predicate Told(text: string) {
    !Blank(text) && |text| <= 2000
  }

  predicate RequestedBefore(script: Script, n: nat, call: string)
    requires n <= |script|
  {
    exists k :: 0 <= k < n && script[k].ToolRequested? && script[k].call == call
  }

  predicate CompletedBefore(script: Script, n: nat, call: string)
    requires n <= |script|
  {
    exists k :: 0 <= k < n && script[k].ToolCompleted? && script[k].call == call
  }

  predicate WellWritten(e: Event) {
    match e
    case Delta(text) => Told(text)
    case ToolRequested(call, tool, input) =>
      && Word(call, LOWER, LOWER + DIGITS + "-_") && |call| <= 100
      && Word(tool, LOWER, LOWER + DIGITS + "-.") && |tool| <= 100 && Told(input)
    case ToolCompleted(call, output) => Word(call, LOWER, LOWER + DIGITS + "-_") && |call| <= 100 && Told(output)
    case RunCompleted => true
    case RunFailed(code) => Told(code)
  }

  // Each request has a new id, each completion answers a request that was not yet answered, and the run completes
  // only when all are answered.
  predicate InPlace(script: Script, i: nat)
    requires i < |script|
  {
    match script[i]
    case ToolRequested(call, _, _) => !RequestedBefore(script, i, call)
    case ToolCompleted(call, _) => RequestedBefore(script, i, call) && !CompletedBefore(script, i, call)
    case RunCompleted =>
      forall k :: 0 <= k < i && script[k].ToolRequested? ==> CompletedBefore(script, i, script[k].call)
    case _ => true
  }

  ghost predicate Follows(script: Script, n: nat, requested: set<string>, completed: set<string>)
    requires n <= |script|
  {
    && (forall call :: call in requested <==> RequestedBefore(script, n, call))
    && (forall call :: call in completed <==> CompletedBefore(script, n, call))
    && completed <= requested
  }

  predicate RulesFrom(script: Script, n: nat)
    requires n <= |script|
  {
    && n < |script| && Ending(script[|script| - 1])
    && forall i :: n <= i < |script| ==>
         WellWritten(script[i]) && InPlace(script, i) && (Ending(script[i]) ==> i == |script| - 1)
  }

  lemma WrittenIs(e: Event)
    ensures WellWritten(e) <==>
            match e
            case Delta(text) => Summary(text)
            case ToolRequested(call, tool, input) => CallId(call) && ToolName(tool) && Summary(input)
            case ToolCompleted(call, output) => CallId(call) && Summary(output)
            case RunCompleted => true
            case RunFailed(code) => Summary(code)
  {
    match e
    case ToolRequested(call, tool, _) => WordsAre(call); WordsAre(tool); hide Word, CallId, ToolName;
    case ToolCompleted(call, _) => WordsAre(call); hide Word, CallId;
    case _ =>
  }

  lemma FollowsOn(script: Script, n: nat, requested: set<string>, completed: set<string>)
    requires n < |script| && Follows(script, n, requested, completed) && InPlace(script, n)
    ensures match script[n]
            case ToolRequested(call, _, _) => Follows(script, n + 1, requested + {call}, completed)
            case ToolCompleted(call, _) => Follows(script, n + 1, requested, completed + {call})
            case _ => Follows(script, n + 1, requested, completed)
  {
    forall call
      ensures RequestedBefore(script, n + 1, call)
         <==> RequestedBefore(script, n, call) || (script[n].ToolRequested? && script[n].call == call)
      ensures CompletedBefore(script, n + 1, call)
         <==> CompletedBefore(script, n, call) || (script[n].ToolCompleted? && script[n].call == call)
    {
      BeforeNext(script, n, call);
    }
    hide RequestedBefore, CompletedBefore;
  }

  lemma BeforeNext(script: Script, n: nat, call: string)
    requires n < |script|
    ensures RequestedBefore(script, n + 1, call)
       <==> RequestedBefore(script, n, call) || (script[n].ToolRequested? && script[n].call == call)
    ensures CompletedBefore(script, n + 1, call)
       <==> CompletedBefore(script, n, call) || (script[n].ToolCompleted? && script[n].call == call)
  {
  }

  // As many calls completed as requested: all of them.
  lemma AllAnswered(script: Script, n: nat, requested: set<string>, completed: set<string>)
    requires n < |script| && script[n].RunCompleted? && Follows(script, n, requested, completed)
    ensures |requested| == |completed| <==> InPlace(script, n)
  {
    SubsetSize(completed, requested);
    hide CompletedBefore;
    if InPlace(script, n) {
      forall call | call in requested ensures call in completed {
        assert RequestedBefore(script, n, call);
      }
      assert requested == completed;
    }
    if requested == completed {
      forall k | 0 <= k < n && script[k].ToolRequested? ensures CompletedBefore(script, n, script[k].call) {
        assert RequestedBefore(script, n, script[k].call);
      }
    }
  }

  lemma RulesStep(script: Script, n: nat)
    requires n < |script|
    ensures RulesFrom(script, n) <==>
            && WellWritten(script[n]) && InPlace(script, n)
            && if Ending(script[n]) then n == |script| - 1 else RulesFrom(script, n + 1)
  {
    hide WellWritten, InPlace;
  }

  lemma {:induction false} ValidFromExactly(script: Script, n: nat, requested: set<string>, completed: set<string>)
    requires n <= |script| && Follows(script, n, requested, completed)
    ensures ValidFrom(script[n..], requested, completed) <==> RulesFrom(script, n)
    decreases |script| - n
  {
    if n < |script| {
      var e := script[n];
      assert script[n..][0] == e && script[n..][1..] == script[n + 1..];
      WrittenIs(e);
      RulesStep(script, n);
      if InPlace(script, n) {
        FollowsOn(script, n, requested, completed);
      }
      hide WellWritten, RulesFrom, CallId, ToolName, Summary, Follows;
      match e
      case ToolRequested(call, _, _) =>
        InPlaceIs(script, n, requested, completed);
        if InPlace(script, n) {
          ValidFromExactly(script, n + 1, requested + {call}, completed);
        }
      case ToolCompleted(call, _) =>
        InPlaceIs(script, n, requested, completed);
        if InPlace(script, n) {
          ValidFromExactly(script, n + 1, requested, completed + {call});
        }
      case Delta(_) => ValidFromExactly(script, n + 1, requested, completed);
      case RunCompleted => AllAnswered(script, n, requested, completed);
      case RunFailed(_) =>
    }
  }

  lemma InPlaceIs(script: Script, n: nat, requested: set<string>, completed: set<string>)
    requires n < |script| && Follows(script, n, requested, completed)
    ensures script[n].ToolRequested? ==> (InPlace(script, n) <==> script[n].call !in requested)
    ensures script[n].ToolCompleted? ==>
              (InPlace(script, n) <==> script[n].call in requested && script[n].call !in completed)
  {
    hide RequestedBefore, CompletedBefore;
  }

  // A script is valid exactly if every event of it is well written and in its place, and its one ending is last.
  lemma ValidExactly(script: Script)
    ensures Valid(script) <==> RulesFrom(script, 0)
  {
    assert script[0..] == script;
    ValidFromExactly(script, 0, {}, {});
  }
}
