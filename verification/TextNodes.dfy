/** Plain text and Markdown cut into heading and paragraph nodes, in one pass over the lines. */
module TextNodes {
  import opened HeadingStack
  import opened Numerals
  import opened Text

  const MAX_TEXT_LINES: nat := 100000
  const MAX_TEXT_NODES: nat := 10000
  const MAX_TEXT_NODE_BYTES: nat := 32 * 1024

  // --- Lines -------------------------------------------------------------------------------------

  function DropReturn(line: string): string {
    if line != [] && line[|line| - 1] == '\r' then line[..|line| - 1] else line
  }

  // Cut at every "\n", together with one "\r" before it.
  function Lines(content: string): (lines: seq<string>)
    ensures |lines| > 0
  {
    var pieces := Split(content, '\n');
    seq(|pieces|, i requires 0 <= i < |pieces| => if i < |pieces| - 1 then DropReturn(pieces[i]) else pieces[i])
  }

  // The terminators that "." does not match.
  predicate IsTerminator(c: char) {
    c == '\n' || c == '\r' || c as int == 0x2028 || c as int == 0x2029
  }

  function Hashes(line: string): (n: nat)
    ensures n <= |line| && (forall i :: 0 <= i < n ==> line[i] == '#') && (n < |line| ==> line[n] != '#')
  {
    if line == [] || line[0] != '#' then 0 else 1 + Hashes(line[1..])
  }

  function Spaces(line: string): (n: nat)
    ensures n <= |line| && (forall i :: 0 <= i < n ==> IsSpace(line[i])) && (n < |line| ==> !IsSpace(line[n]))
  {
    if line == [] || !IsSpace(line[0]) then 0 else 1 + Spaces(line[1..])
  }

  datatype Heading = Heading(level: nat, title: string)

  // One way to read a line as: up to six hashes, white space, and something up to the end of the line.
  predicate Matches(line: string, level: nat, spaces: nat) {
    && 1 <= level <= 6 && spaces >= 1 && level + spaces < |line|
    && (forall i :: 0 <= i < level ==> line[i] == '#')
    && (forall i :: level <= i < level + spaces ==> IsSpace(line[i]))
    && (forall i :: level + spaces <= i < |line| ==> !IsTerminator(line[i]))
  }

  // The reading the regular expression settles on: all hashes, then as much white space as leaves something.
  function SpacesTaken(line: string): int {
    var rest := line[Hashes(line)..];
    if Spaces(rest) == |rest| then Spaces(rest) - 1 else Spaces(rest)
  }

  function HeadingOf(line: string): Option<Heading> {
    var level, spaces := Hashes(line), SpacesTaken(line);
    if spaces >= 1 && Matches(line, level, spaces) then Some(Heading(level, Trim(line[level + spaces..]))) else None
  }

  // A line is a heading exactly when it can be read as one, and no other reading takes more white space.
  lemma HeadingIsGreediest(line: string)
    ensures HeadingOf(line).Some? <==> exists level: nat, spaces: nat :: Matches(line, level, spaces)
    ensures forall level: nat, spaces: nat :: Matches(line, level, spaces) ==>
              HeadingOf(line).Some? && HeadingOf(line).value.level == level && spaces <= SpacesTaken(line)
  {
    forall level: nat, spaces: nat | Matches(line, level, spaces)
      ensures HeadingOf(line).Some? && Hashes(line) == level && spaces <= SpacesTaken(line)
    {
      assert line[level] != '#' by {
        assert IsSpace(line[level]);
      }
      assert Hashes(line) == level;
      var rest := line[level..];
      var n := Spaces(rest);
      assert n < |rest| ==> !IsSpace(line[level + n]);
      forall i | level <= i < level + n ensures IsSpace(line[i]) {
        assert line[i] == rest[i - level];
      }
      assert Matches(line, level, SpacesTaken(line));
    }
  }

  // --- Nodes -------------------------------------------------------------------------------------

  datatype NodeId = HeadingId(n: nat) | ParagraphId(n: nat)

  // `level` is present for headings; line numbers start at 1 and both ends are included.
  datatype Node = Node(
    id: NodeId, level: Option<nat>, content: string, parent: Option<NodeId>,
    order: nat, lineStart: nat, lineEnd: nat
  )

  // What the pass has built so far, with the paragraph it is in the middle of.
  datatype State = State(
    nodes: seq<Node>, stack: seq<Frame<NodeId>>, headings: nat, paragraphs: nat,
    start: int, lines: seq<string>, bytes: nat
  )

  function Initial(): State {
    State([], [], 0, 0, -1, [], 0)
  }

  function JoinLines(lines: seq<string>): string {
    if lines == [] then "" else Join(lines, "\n")
  }

  // None: the document is over a limit.
  function Flush(st: State, lineEnd: nat): Option<State> {
    var paragraph := Trim(JoinLines(st.lines));
    if paragraph == "" then Some(st)
    else if |st.nodes| >= MAX_TEXT_NODES then None
    else
      var id := ParagraphId(st.paragraphs + 1);
      var lineStart := if st.start + 1 > 0 then st.start + 1 else 0;
      var node := Node(id, None, paragraph, Top(st.stack), |st.nodes|, lineStart, lineEnd);
      Some(st.(nodes := st.nodes + [node], paragraphs := st.paragraphs + 1, start := -1, lines := [], bytes := 0))
  }

  function FileHeading(st: State, heading: Heading, i: nat): Option<State> {
    if Utf8Length(heading.title) > MAX_TEXT_NODE_BYTES || |st.nodes| >= MAX_TEXT_NODES then None
    else
      var id := HeadingId(st.headings + 1);
      var stack := Pop(st.stack, heading.level);
      var node := Node(id, Some(heading.level), heading.title, Top(stack), |st.nodes|, i + 1, i + 1);
      Some(st.(nodes := st.nodes + [node], stack := stack + [Frame(id, heading.level)], headings := st.headings + 1))
  }

  function AddLine(st: State, line: string, i: nat): Option<State> {
    var bytes := st.bytes + Utf8Length(line) + if st.lines != [] then 1 else 0;
    if bytes > MAX_TEXT_NODE_BYTES then None
    else Some(st.(start := if st.start < 0 then i else st.start, bytes := bytes, lines := st.lines + [line]))
  }

  function HeadingIn(markdown: bool, line: string): Option<Heading> {
    if markdown then HeadingOf(line) else None
  }

  function Feed(st: State, markdown: bool, line: string, i: nat): Option<State> {
    var heading := HeadingIn(markdown, line);
    if heading.Some? then
      match Flush(st, i)
      case None => None
      case Some(flushed) => FileHeading(flushed, heading.value, i)
    else if Trim(line) != "" then AddLine(st, line, i)
    else Flush(st, i)
  }

  function After(lines: seq<string>, markdown: bool): Option<State> {
    if lines == [] then Some(Initial())
    else
      var n := |lines| - 1;
      match After(lines[..n], markdown)
      case None => None
      case Some(st) => Feed(st, markdown, lines[n], n)
  }

  datatype Outcome = Failed(code: string) | Parsed(nodes: seq<Node>)

  function Parse(content: string, markdown: bool): Outcome {
    if Trim(content) == "" then Failed("PARSER_EMPTY_RESULT")
    else if |Lines(content)| > MAX_TEXT_LINES then Failed("TEXT_NODE_LIMIT")
    else match After(Lines(content), markdown)
      case None => Failed("TEXT_NODE_LIMIT")
      case Some(st) =>
        match Flush(st, |Lines(content)|)
        case None => Failed("TEXT_NODE_LIMIT")
        case Some(final) => Parsed(final.nodes)
  }

  class TextParser {
    var nodes: seq<Node>
    var headingStack: seq<Frame<NodeId>>
    var headingCount: nat
    var paragraphCount: nat
    var paragraphStart: int
    var paragraphLines: seq<string>
    var paragraphBytes: nat

    ghost function Model(): State
      reads this
    {
      State(nodes, headingStack, headingCount, paragraphCount, paragraphStart, paragraphLines, paragraphBytes)
    }

    constructor ()
      ensures Model() == Initial()
    {
      nodes, headingStack, headingCount, paragraphCount := [], [], 0, 0;
      paragraphStart, paragraphLines, paragraphBytes := -1, [], 0;
    }

    method FlushParagraph(lineEnd: nat) returns (ok: bool)
      modifies this
      ensures ok == Flush(old(Model()), lineEnd).Some?
      ensures ok ==> Model() == Flush(old(Model()), lineEnd).value
    {
      var paragraph := Trim(JoinLines(paragraphLines));
      if paragraph == "" {
        return true;
      }
      if |nodes| >= MAX_TEXT_NODES {
        return false;
      }
      paragraphCount := paragraphCount + 1;
      var lineStart := if paragraphStart + 1 > 0 then paragraphStart + 1 else 0;
      var node := Node(ParagraphId(paragraphCount), None, paragraph, Top(headingStack), |nodes|, lineStart, lineEnd);
      nodes := nodes + [node];
      paragraphLines, paragraphStart, paragraphBytes := [], -1, 0;
      ok := true;
    }

    method PopTo(level: nat)
      modifies this`headingStack
      ensures headingStack == Pop(old(headingStack), level)
    {
      while headingStack != [] && headingStack[|headingStack| - 1].level >= level
        invariant Pop(headingStack, level) == Pop(old(headingStack), level)
        decreases |headingStack|
      {
        headingStack := headingStack[..|headingStack| - 1];
      }
    }

    method AddHeading(heading: Heading, i: nat) returns (ok: bool)
      modifies this
      ensures ok == FileHeading(old(Model()), heading, i).Some?
      ensures ok ==> Model() == FileHeading(old(Model()), heading, i).value
    {
      if Utf8Length(heading.title) > MAX_TEXT_NODE_BYTES || |nodes| >= MAX_TEXT_NODES {
        return false;
      }
      headingCount := headingCount + 1;
      var id := HeadingId(headingCount);
      PopTo(heading.level);
      nodes := nodes + [Node(id, Some(heading.level), heading.title, Top(headingStack), |nodes|, i + 1, i + 1)];
      headingStack := headingStack + [Frame(id, heading.level)];
      ok := true;
    }

    method ReadLine(markdown: bool, line: string, i: nat) returns (ok: bool)
      modifies this
      ensures ok == Feed(old(Model()), markdown, line, i).Some?
      ensures ok ==> Model() == Feed(old(Model()), markdown, line, i).value
    {
      hide Trim, HeadingIn, Flush, FileHeading;
      var heading := HeadingIn(markdown, line);
      if heading.Some? {
        ok := FlushParagraph(i);
        if ok {
          ok := AddHeading(heading.value, i);
        }
      } else if Trim(line) != "" {
        if paragraphStart < 0 {
          paragraphStart := i;
        }
        paragraphBytes := paragraphBytes + Utf8Length(line) + if paragraphLines != [] then 1 else 0;
        if paragraphBytes > MAX_TEXT_NODE_BYTES {
          return false;
        }
        paragraphLines := paragraphLines + [line];
        ok := true;
      } else {
        ok := FlushParagraph(i);
      }
    }

    method ReadText(content: string, markdown: bool) returns (r: Outcome)
      requires Model() == Initial()
      modifies this
      ensures r == Parse(content, markdown)
    {
      hide Trim, Lines, Feed, Flush;
      if Trim(content) == "" {
        return Failed("PARSER_EMPTY_RESULT");
      }
      var lines := Lines(content);
      if |lines| > MAX_TEXT_LINES {
        return Failed("TEXT_NODE_LIMIT");
      }
      for i := 0 to |lines|
        invariant After(lines[..i], markdown) == Some(Model())
      {
        assert lines[..i + 1][..i] == lines[..i];
        var read := ReadLine(markdown, lines[i], i);
        if !read {
          OverLimitStays(lines, markdown, i + 1);
          return Failed("TEXT_NODE_LIMIT");
        }
      }
      assert lines[..|lines|] == lines;
      var flushed := FlushParagraph(|lines|);
      r := if flushed then Parsed(nodes) else Failed("TEXT_NODE_LIMIT");
    }
  }

  lemma {:induction false} OverLimitStays(lines: seq<string>, markdown: bool, k: nat)
    requires k <= |lines| && After(lines[..k], markdown).None?
    ensures After(lines, markdown).None?
  {
    hide Feed;
    if k == |lines| {
      assert lines[..k] == lines;
    } else {
      assert lines[..|lines| - 1][..k] == lines[..k];
      OverLimitStays(lines[..|lines| - 1], markdown, k);
    }
  }
}
