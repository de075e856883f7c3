/** The stack of open headings that gives every node of a parsed document its parent. */
module HeadingStack {
  import opened Numerals

  // A node as the stack sees it: headings have a level, other nodes have none.
  datatype Mark<T> = Mark(id: T, level: Option<nat>)

  datatype Frame<T> = Frame(id: T, level: nat)

  function Pop<T>(stack: seq<Frame<T>>, level: nat): seq<Frame<T>> {
    if stack != [] && stack[|stack| - 1].level >= level then Pop(stack[..|stack| - 1], level) else stack
  }

  // The stack before a node is filed: a heading closes the headings that are not above it.
  function Opened<T>(stack: seq<Frame<T>>, level: Option<nat>): seq<Frame<T>> {
    if level.Some? then Pop(stack, level.value) else stack
  }

  function Top<T>(stack: seq<Frame<T>>): Option<T> {
    if stack == [] then None else Some(stack[|stack| - 1].id)
  }

  function Filed<T>(stack: seq<Frame<T>>, mark: Mark<T>): seq<Frame<T>> {
    if mark.level.Some? then Pop(stack, mark.level.value) + [Frame(mark.id, mark.level.value)] else stack
  }

  function StackAfter<T>(marks: seq<Mark<T>>): seq<Frame<T>> {
    if marks == [] then [] else Filed(StackAfter(marks[..|marks| - 1]), marks[|marks| - 1])
  }

  // Can this mark be the parent of a node of that level?
  predicate Above<T>(mark: Mark<T>, level: Option<nat>) {
    mark.level.Some? && (level.Some? ==> mark.level.value < level.value)
  }

  // The nearest earlier heading above that level: any heading for a node without one. -1 if there is none.
  function Nearest<T>(marks: seq<Mark<T>>, level: Option<nat>): (at: int)
    ensures -1 <= at < |marks|
    ensures at >= 0 ==> Above(marks[at], level)
    ensures forall k :: at < k < |marks| ==> !Above(marks[k], level)
  {
    if marks == [] then -1
    else if Above(marks[|marks| - 1], level) then |marks| - 1
    else Nearest(marks[..|marks| - 1], level)
  }

  predicate StrictlyDeeper<T>(stack: seq<Frame<T>>) {
    forall i, k :: 0 <= i < k < |stack| ==> stack[i].level < stack[k].level
  }

  lemma {:induction false} PopKeeps<T>(stack: seq<Frame<T>>, level: nat)
    requires StrictlyDeeper(stack)
    ensures StrictlyDeeper(Pop(stack, level))
    ensures forall i :: 0 <= i < |Pop(stack, level)| ==> Pop(stack, level)[i].level < level
  {
    if stack != [] && stack[|stack| - 1].level >= level {
      PopKeeps(stack[..|stack| - 1], level);
    }
  }

  // From the bottom of the stack to its top the levels only grow.
  lemma {:induction false} StackDeepens<T>(marks: seq<Mark<T>>)
    ensures StrictlyDeeper(StackAfter(marks))
  {
    if marks != [] {
      var front, last := marks[..|marks| - 1], marks[|marks| - 1];
      StackDeepens(front);
      if last.level.Some? {
        PopKeeps(StackAfter(front), last.level.value);
      }
    }
  }

  lemma {:induction false} PopTwice<T>(stack: seq<Frame<T>>, level: nat, lower: nat)
    requires lower <= level
    ensures Pop(Pop(stack, level), lower) == Pop(stack, lower)
  {
    if stack != [] && stack[|stack| - 1].level >= level {
      PopTwice(stack[..|stack| - 1], level, lower);
    }
  }

  // The top of the stack is the nearest earlier heading of smaller level, or the latest heading of all.
  lemma {:induction false} TopIsNearest<T>(marks: seq<Mark<T>>, level: Option<nat>)
    ensures var at := Nearest(marks, level);
            Top(Opened(StackAfter(marks), level)) == if at < 0 then None else Some(marks[at].id)
  {
    if marks != [] {
      var front, last := marks[..|marks| - 1], marks[|marks| - 1];
      TopIsNearest(front, level);
      if last.level.Some? {
        var below := Pop(StackAfter(front), last.level.value);
        var stack := below + [Frame(last.id, last.level.value)];
        assert stack[..|stack| - 1] == below;
        if level.Some? && level.value <= last.level.value {
          PopTwice(StackAfter(front), last.level.value, level.value);
        }
      }
    }
  }
}
