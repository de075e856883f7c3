/** Where the text of the nodes comes from: the lines of the document, none lost and none repeated. */
module ParsedLines {
  import opened HeadingStack
  import opened Numerals
  import opened Text
  import opened TextNodes

  // The lines of the document that say anything, in order.
  function Spoken(lines: seq<string>): seq<string> {
    if lines == [] then []
    else Spoken(lines[..|lines| - 1]) + if Blank(lines[|lines| - 1]) then [] else [lines[|lines| - 1]]
  }

  ghost predicate InLines(node: Node, lines: seq<string>) {
    1 <= node.lineStart <= node.lineEnd <= |lines|
  }

  // A heading is the title of its line; a paragraph is the lines of its range, which hold no heading and no blank.
  ghost predicate FromLines(node: Node, lines: seq<string>, markdown: bool) {
    && InLines(node, lines)
    && var source := lines[node.lineStart - 1..node.lineEnd];
       if node.level.Some? then
         |source| == 1 && HeadingIn(markdown, source[0]) == Some(Heading(node.level.value, node.content))
       else node.content == Trim(JoinLines(source)) && BodyLines(source, markdown)
  }

  ghost predicate BodyLines(source: seq<string>, markdown: bool) {
    forall i :: 0 <= i < |source| ==> !Blank(source[i]) && HeadingIn(markdown, source[i]).None?
  }

  ghost function SourceOf(nodes: seq<Node>, lines: seq<string>): seq<string>
    requires forall n :: n in nodes ==> InLines(n, lines)
  {
    if nodes == [] then []
    else
      var last := nodes[|nodes| - 1];
      assert InLines(last, lines);
      SourceOf(nodes[..|nodes| - 1], lines) + lines[last.lineStart - 1..last.lineEnd]
  }

  // After these lines: the nodes hold the lines before the open paragraph, which holds the rest.
  ghost predicate Keeps(st: State, lines: seq<string>, markdown: bool) {
    && (forall n :: n in st.nodes ==> FromLines(n, lines, markdown))
    && SourceOf(st.nodes, lines) + st.lines == Spoken(lines)
    && BodyLines(st.lines, markdown)
    && (st.lines != [] ==> 0 <= st.start && st.start + |st.lines| == |lines| && lines[st.start..] == st.lines)
    && (st.lines == [] ==> st.start < 0)
  }

  lemma {:induction false} SourceExtends(nodes: seq<Node>, lines: seq<string>, line: string)
    requires forall n :: n in nodes ==> InLines(n, lines)
    ensures forall n :: n in nodes ==> InLines(n, lines + [line])
    ensures SourceOf(nodes, lines + [line]) == SourceOf(nodes, lines)
  {
    if nodes != [] {
      SourceExtends(nodes[..|nodes| - 1], lines, line);
      var last := nodes[|nodes| - 1];
      assert last in nodes;
      assert (lines + [line])[last.lineStart - 1..last.lineEnd] == lines[last.lineStart - 1..last.lineEnd];
    }
  }

  lemma FromExtends(node: Node, lines: seq<string>, line: string, markdown: bool)
    requires FromLines(node, lines, markdown)
    ensures FromLines(node, lines + [line], markdown)
  {
    hide HeadingIn, Trim, JoinLines;
    assert (lines + [line])[node.lineStart - 1..node.lineEnd] == lines[node.lineStart - 1..node.lineEnd];
  }

  lemma SourceAppends(nodes: seq<Node>, node: Node, lines: seq<string>)
    requires InLines(node, lines) && forall n :: n in nodes ==> InLines(n, lines)
    ensures SourceOf(nodes + [node], lines) == SourceOf(nodes, lines) + lines[node.lineStart - 1..node.lineEnd]
  {
    assert (nodes + [node])[..|nodes|] == nodes;
  }

  lemma JoinedIsBlank(lines: seq<string>)
    requires lines != [] && !Blank(lines[0])
    ensures !Blank(JoinLines(lines))
  {
    var c :| c in lines[0] && !IsSpace(c);
    assert c in JoinLines(lines);
  }

  // Closing the paragraph moves its lines into a node; nothing else moves.
  lemma FlushKeeps(st: State, lines: seq<string>, markdown: bool)
    requires Keeps(st, lines, markdown) && Flush(st, |lines|).Some?
    ensures Keeps(Flush(st, |lines|).value, lines, markdown) && Flush(st, |lines|).value.lines == []
  {
    hide Trim, HeadingIn, Spoken, SourceOf, JoinLines;
    TrimBlank(JoinLines(st.lines));
    if st.lines == [] {
      NothingJoined();
    } else {
      JoinedIsBlank(st.lines);
      var final := Flush(st, |lines|).value;
      var node := final.nodes[|st.nodes|];
      assert lines[node.lineStart - 1..node.lineEnd] == st.lines;
      SourceAppends(st.nodes, node, lines);
      assert SourceOf(final.nodes, lines) + [] == Spoken(lines);
    }
  }

  lemma NothingJoined()
    ensures Trim(JoinLines([])) == ""
  {
  }

  lemma Extends(st: State, lines: seq<string>, line: string, markdown: bool)
    requires Keeps(st, lines, markdown)
    ensures forall n :: n in st.nodes ==> FromLines(n, lines + [line], markdown)
    ensures SourceOf(st.nodes, lines + [line]) == SourceOf(st.nodes, lines)
  {
    forall n | n in st.nodes ensures FromLines(n, lines + [line], markdown) {
      FromExtends(n, lines, line, markdown);
    }
    SourceExtends(st.nodes, lines, line);
  }

  lemma SpokenGrows(lines: seq<string>, line: string)
    ensures Spoken(lines + [line]) == Spoken(lines) + if Blank(line) then [] else [line]
  {
    assert (lines + [line])[..|lines|] == lines;
  }

  lemma HeadingKeeps(st: State, lines: seq<string>, line: string, markdown: bool)
    requires Keeps(st, lines, markdown) && st.lines == [] && HeadingIn(markdown, line).Some?
    requires FileHeading(st, HeadingIn(markdown, line).value, |lines|).Some?
    ensures Keeps(FileHeading(st, HeadingIn(markdown, line).value, |lines|).value, lines + [line], markdown)
  {
    HeadingSpeaks(markdown, line);
    hide HeadingIn, Keeps;
    var final := FileHeading(st, HeadingIn(markdown, line).value, |lines|).value;
    var node := final.nodes[|st.nodes|];
    assert (lines + [line])[node.lineStart - 1..node.lineEnd] == [line];
    NodeKeeps(st, lines, line, markdown, final, node);
  }

  lemma NodeKeeps(st: State, lines: seq<string>, line: string, markdown: bool, final: State, node: Node)
    requires Keeps(st, lines, markdown) && st.lines == [] && !Blank(line)
    requires FromLines(node, lines + [line], markdown) && (lines + [line])[node.lineStart - 1..node.lineEnd] == [line]
    requires final.nodes == st.nodes + [node] && final.lines == [] && final.start == st.start
    ensures Keeps(final, lines + [line], markdown)
  {
    Extends(st, lines, line, markdown);
    SpokenGrows(lines, line);
    hide Spoken, SourceOf, Blank, FromLines;
    assert FromLines(node, lines + [line], markdown) ==> InLines(node, lines + [line]) by {
      FromIsIn(node, lines + [line], markdown);
    }
    forall n | n in st.nodes ensures InLines(n, lines + [line]) {
      FromIsIn(n, lines + [line], markdown);
    }
    SourceAppends(st.nodes, node, lines + [line]);
    assert SourceOf(st.nodes, lines) + [] == SourceOf(st.nodes, lines);
    assert SourceOf(final.nodes, lines + [line]) + [] == Spoken(lines + [line]);
  }

  lemma FromIsIn(node: Node, lines: seq<string>, markdown: bool)
    requires FromLines(node, lines, markdown)
    ensures InLines(node, lines)
  {
  }

  lemma HeadingSpeaks(markdown: bool, line: string)
    requires HeadingIn(markdown, line).Some?
    ensures !Blank(line)
  {
    assert line[0] == '#' && line[0] in line;
  }

  lemma LineKeeps(st: State, lines: seq<string>, line: string, markdown: bool)
    requires Keeps(st, lines, markdown) && !Blank(line) && HeadingIn(markdown, line).None?
    requires AddLine(st, line, |lines|).Some?
    ensures Keeps(AddLine(st, line, |lines|).value, lines + [line], markdown)
  {
    hide HeadingIn, Spoken, SourceOf, Blank;
    Extends(st, lines, line, markdown);
    SpokenGrows(lines, line);
    var final := AddLine(st, line, |lines|).value;
    assert (lines + [line])[final.start..] == final.lines;
  }

  lemma BlankKeeps(st: State, lines: seq<string>, line: string, markdown: bool)
    requires Keeps(st, lines, markdown) && st.lines == [] && Blank(line)
    ensures Keeps(st, lines + [line], markdown)
  {
    hide Blank, Spoken, SourceOf;
    Extends(st, lines, line, markdown);
    SpokenGrows(lines, line);
  }

  lemma FeedKeeps(st: State, lines: seq<string>, line: string, markdown: bool)
    requires Keeps(st, lines, markdown) && Feed(st, markdown, line, |lines|).Some?
    ensures Keeps(Feed(st, markdown, line, |lines|).value, lines + [line], markdown)
  {
    hide Keeps, HeadingIn, Flush, FileHeading, AddLine, Trim, Blank;
    TrimBlank(line);
    if HeadingIn(markdown, line).Some? {
      FlushKeeps(st, lines, markdown);
      HeadingKeeps(Flush(st, |lines|).value, lines, line, markdown);
    } else if Trim(line) != "" {
      LineKeeps(st, lines, line, markdown);
    } else {
      FlushKeeps(st, lines, markdown);
      BlankKeeps(Flush(st, |lines|).value, lines, line, markdown);
    }
  }

  lemma {:induction false} AfterKeeps(lines: seq<string>, markdown: bool)
    requires After(lines, markdown).Some?
    ensures Keeps(After(lines, markdown).value, lines, markdown)
  {
    hide Feed;
    if lines != [] {
      var front, last := lines[..|lines| - 1], lines[|lines| - 1];
      hide Keeps;
      AfterKeeps(front, markdown);
      FeedKeeps(After(front, markdown).value, front, last, markdown);
      assert lines == front + [last];
    }
  }

  lemma {:induction false} SpokenIsBlank(lines: seq<string>)
    ensures Spoken(lines) == [] <==> forall i :: 0 <= i < |lines| ==> Blank(lines[i])
  {
    hide Blank;
    if lines != [] {
      var front, last := lines[..|lines| - 1], lines[|lines| - 1];
      SpokenIsBlank(front);
      assert |Spoken(lines)| == |Spoken(front)| + if Blank(last) then 0 else 1;
      assert (forall i :: 0 <= i < |lines| ==> Blank(lines[i])) <==>
          Blank(last) && forall i :: 0 <= i < |front| ==> Blank(front[i]);
    }
  }

  lemma {:induction false} JoinBlank(parts: seq<string>)
    requires |parts| > 0 && forall part :: part in parts ==> Blank(part)
    ensures Blank(Join(parts, "\n"))
  {
    if |parts| > 1 {
      JoinBlank(parts[1..]);
      var rest := Join(parts[1..], "\n");
      assert Blank(parts[0]) && Blank("\n");
      assert Join(parts, "\n") == parts[0] + "\n" + rest;
    } else {
      assert parts[0] in parts;
    }
  }

  lemma SomethingSpoken(content: string)
    requires !Blank(content)
    ensures Spoken(Lines(content)) != []
  {
    SpokenIsBlank(Lines(content));
    var pieces := Split(content, '\n');
    SplitJoins(content, '\n');
    if forall i :: 0 <= i < |Lines(content)| ==> Blank(Lines(content)[i]) {
      forall piece | piece in pieces ensures Blank(piece) {
        var i :| 0 <= i < |pieces| && pieces[i] == piece;
        assert Blank(Lines(content)[i]);
        ReturnIsBlank(piece);
      }
      JoinBlank(pieces);
    }
  }

  lemma ReturnIsBlank(piece: string)
    ensures Blank(DropReturn(piece)) ==> Blank(piece)
  {
    if piece != [] {
      assert piece == piece[..|piece| - 1] + [piece[|piece| - 1]];
    }
  }
}
