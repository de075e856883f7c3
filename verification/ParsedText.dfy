/** What the text parser produces: no line lost, every parent the right one, always a structured document. */
module ParsedText {
  import opened CompiledDocument
  import opened HeadingStack
  import opened Numerals
  import opened ParsedLines
  import opened ParsedTree
  import opened Text
  import opened TextLines
  import opened TextNodes

  lemma {:induction false} AfterIsBounded(lines: seq<string>, markdown: bool)
    requires After(lines, markdown).Some?
    ensures |After(lines, markdown).value.nodes| <= MAX_TEXT_NODES
  {
    hide Trim, HeadingIn, JoinLines;
    if lines != [] {
      AfterIsBounded(lines[..|lines| - 1], markdown);
    }
  }

  // Every line that says anything is in exactly one node, in order; every node comes from its lines; the parents
  // and the numbering are right; and there is at least one node and no more than the limit.
  lemma ParsedFaithfully(content: string, markdown: bool)
    requires Parse(content, markdown).Parsed?
    ensures var nodes, lines := Parse(content, markdown).nodes, Lines(content);
            && 0 < |nodes| <= MAX_TEXT_NODES && Tree(nodes)
            && (forall n :: n in nodes ==> FromLines(n, lines, markdown))
            && SourceOf(nodes, lines) == Spoken(lines)
  {
    hide After, FromLines, Tree, Lines, Trim, HeadingIn;
    var lines := Lines(content);
    AfterInTree(lines, markdown);
    AfterKeeps(lines, markdown);
    AfterIsBounded(lines, markdown);
    var st := After(lines, markdown).value;
    FlushInTree(st, |lines|);
    FlushKeeps(st, lines, markdown);
    TrimBlank(content);
    SomethingSpoken(content);
    var nodes := Flush(st, |lines|).value.nodes;
    forall n | n in nodes ensures InLines(n, lines) {
      FromIsIn(n, lines, markdown);
    }
    assert SourceOf(nodes, lines) + [] == SourceOf(nodes, lines);
  }

  // Where a node stands in the text: from the start of its first line to the end of its last. A paragraph is that
  // stretch, trimmed and with its line ends unified; a heading is its line after the hashes, trimmed.
  lemma NodeStands(content: string, markdown: bool, node: Node) returns (from: nat, to: nat)
    requires Parse(content, markdown).Parsed? && node in Parse(content, markdown).nodes
    ensures Stands(content, node.lineStart, node.lineEnd, from, to)
    ensures var stretch := content[from..to];
            if node.level.None? then node.content == Trim(Unified(stretch))
            else && markdown && 1 <= node.level.value == Hashes(stretch) <= 6 && '\n' !in stretch
                 && node.content == Trim(stretch[Hashes(stretch)..])
  {
    ParsedFaithfully(content, markdown);
    var lines := Lines(content);
    assert FromLines(node, lines, markdown);
    var ends := LinesCut(content);
    var a, b := node.lineStart - 1, node.lineEnd - 1;
    hide Parse, Lines, Tree, SourceOf, Trim, HeadingOf, Stands, Unified, JoinLines;
    from, to := LinesStand(content, lines, ends, a, b);
    PartIsCut(content, lines, ends, a, b);
    if node.level.None? {
      UnifiedJoins(lines[a..b + 1], ends[a..b]);
    } else {
      assert lines[a..b + 1] == [lines[a]] && ends[a..b] == [] && content[from..to] == lines[a];
      TitleIs(lines[a]);
    }
  }

  lemma TitleIs(line: string)
    requires HeadingOf(line).Some?
    ensures HeadingOf(line).value == Heading(Hashes(line), Trim(line[Hashes(line)..])) && 1 <= Hashes(line) <= 6
  {
    var level, spaces := Hashes(line), SpacesTaken(line);
    TrimSkips(line[level..], spaces);
    assert line[level..][spaces..] == line[level + spaces..];
  }

  // Whatever the parser returns passes the structural checks: distinct ids and orders, every parent earlier.
  lemma ParsedIsStructured(content: string, markdown: bool, version: string)
    requires Parse(content, markdown).Parsed?
    ensures Issues(Entries(Parse(content, markdown).nodes, version), version) == []
  {
    ParsedFaithfully(content, markdown);
    var nodes := Parse(content, markdown).nodes;
    hide Parse, FromLines, SourceOf, IdText;
    TreeIsStructured(nodes, version);
  }

  // --- Nodes that say nothing ---------------------------------------------------------------------------

  predicate EmptyHeading(markdown: bool, line: string) {
    HeadingIn(markdown, line).Some? && HeadingIn(markdown, line).value.title == ""
  }

  lemma {:induction false} TrimmedIsBlank(s: string)
    ensures Blank(Trim(s)) ==> Trim(s) == ""
  {
    TrimStartHead(s);
    var t := TrimStart(s);
    TrimEndKeepsHead(t);
    if Trim(s) != [] {
      assert Trim(s)[0] in Trim(s);
    }
  }

  lemma {:induction false} TrimEndKeepsHead(s: string)
    ensures TrimEnd(s) != [] ==> s != [] && TrimEnd(s)[0] == s[0]
  {
    if s != [] && IsSpace(s[|s| - 1]) {
      TrimEndKeepsHead(s[..|s| - 1]);
    }
  }

  lemma BlankNodeIsHeading(node: Node, lines: seq<string>, markdown: bool)
    requires FromLines(node, lines, markdown) && Blank(node.content)
    ensures EmptyHeading(markdown, lines[node.lineStart - 1])
  {
    var source := lines[node.lineStart - 1..node.lineEnd];
    if node.level.None? {
      hide HeadingIn;
      JoinedIsBlank(source);
      TrimBlank(JoinLines(source));
      TrimmedIsBlank(JoinLines(source));
    } else {
      var line := source[0];
      TrimmedIsBlank(line[Hashes(line) + SpacesTaken(line)..]);
    }
  }

  lemma {:induction false} SourceHasNode(nodes: seq<Node>, lines: seq<string>, line: string)
    returns (node: Node)
    requires forall n :: n in nodes ==> InLines(n, lines)
    requires line in SourceOf(nodes, lines)
    ensures node in nodes && line in lines[node.lineStart - 1..node.lineEnd]
  {
    var last := nodes[|nodes| - 1];
    assert InLines(last, lines);
    if line in lines[last.lineStart - 1..last.lineEnd] {
      node := last;
    } else {
      node := SourceHasNode(nodes[..|nodes| - 1], lines, line);
    }
  }

  lemma {:induction false} SpokenHas(lines: seq<string>, i: nat)
    requires i < |lines| && !Blank(lines[i])
    ensures lines[i] in Spoken(lines)
  {
    if i < |lines| - 1 {
      SpokenHas(lines[..|lines| - 1], i);
    }
  }

  // The only nodes with nothing to say are headings with an empty title, so the content checks of the schema
  // pass exactly when the text has no heading line such as "#" followed by two spaces.
  lemma EmptyExactly(content: string, markdown: bool)
    requires Parse(content, markdown).Parsed?
    ensures (exists n :: n in Parse(content, markdown).nodes && Blank(n.content))
       <==> (exists i :: 0 <= i < |Lines(content)| && EmptyHeading(markdown, Lines(content)[i]))
  {
    ParsedFaithfully(content, markdown);
    var nodes, lines := Parse(content, markdown).nodes, Lines(content);
    hide Parse, Lines, Tree, HeadingOf;
    if n :| n in nodes && Blank(n.content) {
      BlankNodeIsHeading(n, lines, markdown);
    }
    forall n | n in nodes ensures InLines(n, lines) {
      FromIsIn(n, lines, markdown);
    }
    if i :| 0 <= i < |lines| && EmptyHeading(markdown, lines[i]) {
      EmptyHeadingHasNode(nodes, lines, markdown, i);
    }
  }

  lemma EmptyHeadingHasNode(nodes: seq<Node>, lines: seq<string>, markdown: bool, i: nat)
    requires forall n :: n in nodes ==> InLines(n, lines) && FromLines(n, lines, markdown)
    requires SourceOf(nodes, lines) == Spoken(lines)
    requires i < |lines| && EmptyHeading(markdown, lines[i])
    ensures exists n :: n in nodes && Blank(n.content)
  {
    HeadingSpeaks(markdown, lines[i]);
    hide HeadingIn;
    SpokenHas(lines, i);
    var node := SourceHasNode(nodes, lines, lines[i]);
    assert FromLines(node, lines, markdown);
  }

  lemma {:induction false} SpacesOfBlank(s: string)
    ensures Spaces(s) == |s| <==> Blank(s)
  {
    if s != [] {
      SpacesOfBlank(s[1..]);
      assert s == [s[0]] + s[1..];
    }
  }

  predicate HashesAndSpace(line: string) {
    var n := Hashes(line);
    1 <= n <= 6 && n + 2 <= |line| && Blank(line[n..]) && !IsTerminator(line[|line| - 1])
  }

  // Which lines these are: one to six hashes and then nothing but white space, two of it at least, the last of
  // it not a line terminator.
  lemma EmptyHeadingIs(line: string)
    ensures EmptyHeading(true, line) <==> HashesAndSpace(line)
  {
    hide EmptyHeading, HashesAndSpace;
    if EmptyHeading(true, line) {
      EmptyHeadingHasSpace(line);
    }
    if HashesAndSpace(line) {
      SpaceIsEmptyHeading(line);
    }
  }

  lemma SomethingAfterSpace(s: string)
    ensures Spaces(s) < |s| ==> !Blank(s[Spaces(s)..])
  {
    assert Spaces(s) < |s| ==> s[Spaces(s)..][0] == s[Spaces(s)];
  }

  lemma TakenIsRest(line: string)
    requires EmptyHeading(true, line)
    ensures 1 <= Hashes(line) <= 6 && Hashes(line) + 2 <= |line| && !IsTerminator(line[|line| - 1])
    ensures var rest, taken := line[Hashes(line)..], SpacesTaken(line);
            1 <= taken < |rest| && Blank(rest[taken..])
  {
    var n, taken := Hashes(line), SpacesTaken(line);
    TrimBlank(line[n + taken..]);
    assert line[n..][taken..] == line[n + taken..];
    hide IsSpace, IsTerminator, Trim, SpacesTaken, Blank;
  }

  lemma EmptyHeadingHasSpace(line: string)
    requires EmptyHeading(true, line)
    ensures HashesAndSpace(line)
  {
    TakenIsRest(line);
    var rest := line[Hashes(line)..];
    SomethingAfterSpace(rest);
    SpacesOfBlank(rest);
    hide EmptyHeading, Blank, IsTerminator;
  }

  lemma SpaceIsEmptyHeading(line: string)
    requires HashesAndSpace(line)
    ensures EmptyHeading(true, line)
  {
    var n := Hashes(line);
    SpacesOfBlank(line[n..]);
    hide IsSpace, IsTerminator, Trim;
    forall i | n <= i < |line| ensures IsSpace(line[i]) {
      assert line[i] in line[n..];
    }
    assert SpacesTaken(line) == |line| - n - 1;
    var last := line[|line| - 1..];
    assert last == [line[|line| - 1]];
    TrimBlank(last);
  }

  lemma NothingToFlush(st: State, lineEnd: nat)
    requires st.lines == []
    ensures Flush(st, lineEnd) == Some(st)
  {
    TrimBlank("");
  }

  lemma FirstHeading(level: nat)
    ensures FileHeading(Initial(), Heading(level, ""), 0) ==
            Some(State([Node(HeadingId(1), Some(level), "", None, 0, 1, 1)], [Frame(HeadingId(1), level)],
                       1, 0, -1, [], 0))
  {
    var node, frame := Node(HeadingId(1), Some(level), "", None, 0, 1, 1), Frame(HeadingId(1), level);
    assert [] + [node] == [node] && [] + [frame] == [frame];
  }

  lemma NotBlank(line: string)
    requires HashesAndSpace(line)
    ensures Trim(line) != ""
  {
    TrimBlank(line);
    hide Trim;
    assert line[0] == '#' && line[0] in line;
  }

  lemma FedFirst(line: string, heading: Heading)
    requires HeadingIn(true, line) == Some(heading) && Flush(Initial(), 0) == Some(Initial())
    ensures After([line], true) == FileHeading(Initial(), heading, 0)
  {
    hide HeadingIn, Flush, FileHeading;
    assert After([line][..0], true) == Some(Initial());
  }

  lemma ParsedLast(line: string, st: State)
    requires Trim(line) != "" && Lines(line) == [line]
    requires After([line], true) == Some(st) && Flush(st, 1) == Some(st)
    ensures Parse(line, true) == Parsed(st.nodes)
  {
    hide Trim, Lines, After, Flush;
  }

  // A document of one such line is a single node that says nothing.
  lemma OneEmptyHeading(line: string)
    requires '\n' !in line && HashesAndSpace(line)
    ensures Parse(line, true) == Parsed([Node(HeadingId(1), Some(Hashes(line)), "", None, 0, 1, 1)])
  {
    SplitWhole(line, '\n');
    assert Lines(line) == [line];
    SpaceIsEmptyHeading(line);
    assert HeadingIn(true, line) == Some(Heading(Hashes(line), ""));
    NotBlank(line);
    FirstHeading(Hashes(line));
    NothingToFlush(Initial(), 0);
    hide *;
    FedFirst(line, Heading(Hashes(line), ""));
    var st := FileHeading(Initial(), Heading(Hashes(line), ""), 0).value;
    NothingToFlush(st, 1);
    ParsedLast(line, st);
  }

  lemma HashAndTwoSpaces()
    ensures EmptyHeading(true, "#  ")
    ensures Parse("#  ", true) == Parsed([Node(HeadingId(1), Some(1), "", None, 0, 1, 1)])
  {
    var line := "#  ";
    assert Hashes(line) == 1;
    assert line[1..] == "  ";
    hide Parse, Hashes, EmptyHeading;
    EmptyHeadingIs(line);
    OneEmptyHeading(line);
  }
}
