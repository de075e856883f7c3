/** Exactly which texts are parsed, and how many nodes they give. */
module ParsedLimits {
  import opened Numerals
  import opened ParsedLines
  import opened Text
  import opened TextLines
  import opened TextNodes

  predicate IsHeading(markdown: bool, line: string) {
    HeadingIn(markdown, line).Some?
  }

  predicate IsBody(markdown: bool, line: string) {
    !Blank(line) && HeadingIn(markdown, line).None?
  }

  // The body lines in a row at the end.
  function Body(lines: seq<string>, markdown: bool): seq<string> {
    if lines == [] || !IsBody(markdown, lines[|lines| - 1]) then []
    else Body(lines[..|lines| - 1], markdown) + [lines[|lines| - 1]]
  }

  // The headings, and the stretches of body lines between headings, blank lines and the ends.
  function Blocks(lines: seq<string>, markdown: bool): nat {
    if lines == [] then 0
    else
      var front, last := lines[..|lines| - 1], lines[|lines| - 1];
      Blocks(front, markdown)
      + if IsHeading(markdown, last) || (IsBody(markdown, last) && Body(front, markdown) == []) then 1 else 0
  }

  // The blocks that are complete: a stretch at the very end may go on.
  function Closed(lines: seq<string>, markdown: bool): int {
    Blocks(lines, markdown) - if Body(lines, markdown) == [] then 0 else 1
  }

  // The title, or the stretch of body lines up to here, is not too long.
  predicate ShortAt(lines: seq<string>, i: nat, markdown: bool)
    requires i < |lines|
  {
    && (IsHeading(markdown, lines[i]) ==> Utf8Length(HeadingIn(markdown, lines[i]).value.title) <= 32_768)
    && (IsBody(markdown, lines[i]) ==> Utf8Length(JoinLines(Body(lines[..i + 1], markdown))) <= 32_768)
  }

  predicate AllShort(lines: seq<string>, markdown: bool) {
    forall i :: 0 <= i < |lines| ==> ShortAt(lines, i, markdown)
  }

  lemma JoinedBytes(lines: seq<string>, line: string)
    ensures Utf8Length(JoinLines(lines + [line]))
         == Utf8Length(JoinLines(lines)) + Utf8Length(line) + if lines != [] then 1 else 0
  {
    if lines == [] {
      assert lines + [line] == [line];
    } else {
      JoinSnoc(lines, "\n", line);
      Utf8Add(Join(lines, "\n") + "\n", line);
      Utf8Add(Join(lines, "\n"), "\n");
      assert "\n"[..0] == "";
    }
  }

  ghost predicate Mirrors(st: State, lines: seq<string>, markdown: bool) {
    && st.lines == Body(lines, markdown) && st.bytes == Utf8Length(JoinLines(st.lines))
    && |st.nodes| == Closed(lines, markdown)
  }

  lemma {:induction false} BodyIsSpoken(lines: seq<string>, markdown: bool)
    ensures Body(lines, markdown) != [] ==> !Blank(JoinLines(Body(lines, markdown)))
  {
    if lines != [] && IsBody(markdown, lines[|lines| - 1]) {
      var front, last := Body(lines[..|lines| - 1], markdown), lines[|lines| - 1];
      var c :| c in last && !IsSpace(c);
      if front == [] {
        assert front + [last] == [last];
      } else {
        JoinSnoc(front, "\n", last);
      }
      assert c in JoinLines(front + [last]);
    }
  }

  lemma BodySnoc(lines: seq<string>, line: string, markdown: bool)
    ensures Body(lines + [line], markdown) == if IsBody(markdown, line) then Body(lines, markdown) + [line] else []
    ensures Blocks(lines + [line], markdown) == Blocks(lines, markdown)
              + if IsHeading(markdown, line) || (IsBody(markdown, line) && Body(lines, markdown) == []) then 1 else 0
  {
    assert (lines + [line])[..|lines|] == lines;
  }

  // Closing the open stretch: refused only if there is one and no node is left for it.
  lemma FlushMirrors(st: State, lines: seq<string>, markdown: bool, lineEnd: nat)
    requires Mirrors(st, lines, markdown)
    ensures var flushed := Flush(st, lineEnd);
            && (flushed.None? <==> Body(lines, markdown) != [] && Closed(lines, markdown) >= MAX_TEXT_NODES)
            && (flushed.Some? ==> flushed.value.lines == [] && flushed.value.bytes == 0
                                  && |flushed.value.nodes| == Blocks(lines, markdown))
  {
    BodyIsSpoken(lines, markdown);
    TrimBlank(JoinLines(st.lines));
    hide Trim, Body, Blocks;
  }

  lemma FilingFits(st: State, heading: Heading, i: nat)
    ensures var filed := FileHeading(st, heading, i);
            && (filed.Some? <==> Utf8Length(heading.title) <= 32_768 && |st.nodes| < MAX_TEXT_NODES)
            && (filed.Some? ==> filed.value.lines == st.lines && filed.value.bytes == st.bytes
                                && |filed.value.nodes| == |st.nodes| + 1)
  {
  }

  lemma HeadingMirrors(st: State, lines: seq<string>, line: string, markdown: bool)
    requires Mirrors(st, lines, markdown) && Closed(lines, markdown) <= MAX_TEXT_NODES && IsHeading(markdown, line)
    ensures var fed := Feed(st, markdown, line, |lines|);
            && (fed.Some? <==> ShortAt(lines + [line], |lines|, markdown)
                               && Closed(lines + [line], markdown) <= MAX_TEXT_NODES)
            && (fed.Some? ==> Mirrors(fed.value, lines + [line], markdown))
  {
    hide Flush, HeadingIn, Body, Blocks, Utf8Length, FileHeading, JoinLines, Blank;
    FlushMirrors(st, lines, markdown, |lines|);
    BodySnoc(lines, line, markdown);
    if Flush(st, |lines|).Some? {
      FilingFits(Flush(st, |lines|).value, HeadingIn(markdown, line).value, |lines|);
    }
    assert !IsBody(markdown, line) && (lines + [line])[|lines|] == line;
    NothingJoined();
  }

  lemma NothingJoined()
    ensures Utf8Length(JoinLines([])) == 0
  {
  }

  lemma BodyMirrors(st: State, lines: seq<string>, line: string, markdown: bool)
    requires Mirrors(st, lines, markdown) && Closed(lines, markdown) <= MAX_TEXT_NODES && IsBody(markdown, line)
    ensures var fed := Feed(st, markdown, line, |lines|);
            && (fed.Some? <==> ShortAt(lines + [line], |lines|, markdown)
                               && Closed(lines + [line], markdown) <= MAX_TEXT_NODES)
            && (fed.Some? ==> Mirrors(fed.value, lines + [line], markdown))
  {
    TrimBlank(line);
    BodySnoc(lines, line, markdown);
    JoinedBytes(st.lines, line);
    assert (lines + [line])[..|lines| + 1] == lines + [line];
    hide Flush, HeadingIn, Body, Blocks, Utf8Length, Trim, JoinLines, Blank;
  }

  lemma BlankMirrors(st: State, lines: seq<string>, line: string, markdown: bool)
    requires Mirrors(st, lines, markdown) && Closed(lines, markdown) <= MAX_TEXT_NODES && Blank(line)
    ensures var fed := Feed(st, markdown, line, |lines|);
            && (fed.Some? <==> ShortAt(lines + [line], |lines|, markdown)
                               && Closed(lines + [line], markdown) <= MAX_TEXT_NODES)
            && (fed.Some? ==> Mirrors(fed.value, lines + [line], markdown))
  {
    TrimBlank(line);
    if HeadingIn(markdown, line).Some? {
      HeadingSpeaks(markdown, line);
    }
    FlushMirrors(st, lines, markdown, |lines|);
    BodySnoc(lines, line, markdown);
    hide Flush, HeadingIn, Body, Blocks, Trim, Blank;
  }

  lemma FeedMirrors(st: State, lines: seq<string>, line: string, markdown: bool)
    requires Mirrors(st, lines, markdown) && Closed(lines, markdown) <= MAX_TEXT_NODES
    ensures var fed := Feed(st, markdown, line, |lines|);
            && (fed.Some? <==> ShortAt(lines + [line], |lines|, markdown)
                               && Closed(lines + [line], markdown) <= MAX_TEXT_NODES)
            && (fed.Some? ==> Mirrors(fed.value, lines + [line], markdown))
  {
    hide Mirrors, Closed, ShortAt, Feed, HeadingIn;
    if IsHeading(markdown, line) {
      HeadingMirrors(st, lines, line, markdown);
    } else if Blank(line) {
      BlankMirrors(st, lines, line, markdown);
    } else {
      BodyMirrors(st, lines, line, markdown);
    }
  }

  lemma ClosedGrows(lines: seq<string>, line: string, markdown: bool)
    ensures Closed(lines, markdown) <= Closed(lines + [line], markdown)
    ensures AllShort(lines + [line], markdown) <==>
            AllShort(lines, markdown) && ShortAt(lines + [line], |lines|, markdown)
  {
    BodySnoc(lines, line, markdown);
    hide Body, Blocks, HeadingIn, ShortAt;
    forall i | 0 <= i < |lines| ensures ShortAt(lines + [line], i, markdown) <==> ShortAt(lines, i, markdown) {
      ShortBefore(lines, line, i, markdown);
    }
  }

  lemma ShortBefore(lines: seq<string>, line: string, i: nat, markdown: bool)
    requires i < |lines|
    ensures ShortAt(lines + [line], i, markdown) <==> ShortAt(lines, i, markdown)
  {
    assert (lines + [line])[..i + 1] == lines[..i + 1];
  }

  lemma {:induction false} AfterExactly(lines: seq<string>, markdown: bool)
    ensures After(lines, markdown).Some? <==>
            AllShort(lines, markdown) && Closed(lines, markdown) <= MAX_TEXT_NODES
    ensures After(lines, markdown).Some? ==> Mirrors(After(lines, markdown).value, lines, markdown)
  {
    if lines != [] {
      var front, last := lines[..|lines| - 1], lines[|lines| - 1];
      assert lines == front + [last];
      hide Mirrors, Closed, AllShort, ShortAt, Feed;
      AfterExactly(front, markdown);
      ClosedGrows(front, last, markdown);
      if After(front, markdown).Some? {
        FeedMirrors(After(front, markdown).value, front, last, markdown);
      }
    }
  }

  // A text is refused as empty exactly if it is all white space, and as too large exactly if it has more than 100000
  // lines or 10000 blocks, or a heading or a stretch of body lines of more than 32 KiB. Otherwise every block gives
  // one node.
  lemma ParsedExactly(content: string, markdown: bool)
    ensures Parse(content, markdown) == Failed("PARSER_EMPTY_RESULT") <==> Blank(content)
    ensures Parse(content, markdown) == Failed("TEXT_NODE_LIMIT") <==>
            !Blank(content) && !(|Lines(content)| <= 100_000 && AllShort(Lines(content), markdown)
                                 && Blocks(Lines(content), markdown) <= 10_000)
    ensures Parse(content, markdown).Parsed? ==>
            |Parse(content, markdown).nodes| == Blocks(Lines(content), markdown)
  {
    var lines := Lines(content);
    TrimBlank(content);
    AfterExactly(lines, markdown);
    if After(lines, markdown).Some? {
      FlushMirrors(After(lines, markdown).value, lines, markdown, |lines|);
    }
    hide Trim, Lines, After, Flush, AllShort, Blocks, Body, Blank;
  }
}
