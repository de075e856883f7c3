/** The lines of a text: the one way to cut it at its line ends, and where in the text each of them stands. */
module TextLines {
  import opened Numerals
  import opened Text
  import opened TextNodes

  // --- Cutting ------------------------------------------------------------------------------------------

  // Lines put back together, each but the last with its line end.
  function Glue(lines: seq<string>, ends: seq<string>): string
    requires |lines| == |ends| + 1
  {
    if ends == [] then lines[0] else lines[0] + ends[0] + Glue(lines[1..], ends[1..])
  }

  // The text is these lines and line ends, and every line end is taken whole.
  predicate CutInto(content: string, lines: seq<string>, ends: seq<string>) {
    && |lines| == |ends| + 1 && content == Glue(lines, ends)
    && (forall i :: 0 <= i < |lines| ==> '\n' !in lines[i])
    && forall i :: 0 <= i < |ends| ==> ends[i] == "\r\n" || (ends[i] == "\n" && !EndsInReturn(lines[i]))
  }

  predicate EndsInReturn(line: string) {
    line != [] && line[|line| - 1] == '\r'
  }

  // A piece that ends at a line feed, as a line and its line end.
  function EndOf(piece: string): string {
    if EndsInReturn(piece) then "\r\n" else "\n"
  }

  lemma PieceIsLine(piece: string)
    ensures DropReturn(piece) + EndOf(piece) == piece + "\n"
    ensures EndOf(piece) == "\n" ==> !EndsInReturn(DropReturn(piece))
  {
  }

  function Ends(pieces: seq<string>): seq<string>
    requires |pieces| > 0
  {
    seq(|pieces| - 1, i requires 0 <= i < |pieces| - 1 => EndOf(pieces[i]))
  }

  function LinesOf(pieces: seq<string>): seq<string>
    requires |pieces| > 0
  {
    seq(|pieces|, i requires 0 <= i < |pieces| => if i < |pieces| - 1 then DropReturn(pieces[i]) else pieces[i])
  }

  lemma {:induction false} PiecesGlue(pieces: seq<string>)
    requires |pieces| > 0
    ensures Glue(LinesOf(pieces), Ends(pieces)) == Join(pieces, "\n")
  {
    if |pieces| > 1 {
      PiecesGlue(pieces[1..]);
      assert LinesOf(pieces)[1..] == LinesOf(pieces[1..]) && Ends(pieces)[1..] == Ends(pieces[1..]);
      PieceIsLine(pieces[0]);
    }
  }

  // The program's lines are such a cut.
  lemma LinesCut(content: string) returns (ends: seq<string>)
    ensures CutInto(content, Lines(content), ends)
  {
    var pieces := Split(content, '\n');
    ends := Ends(pieces);
    SplitJoins(content, '\n');
    PiecesGlue(pieces);
    assert Lines(content) == LinesOf(pieces);
    forall i | 0 <= i < |pieces| ensures '\n' !in LinesOf(pieces)[i] {
      assert pieces[i] in pieces;
    }
    forall i | 0 <= i < |ends| ensures ends[i] == "\r\n" || (ends[i] == "\n" && !EndsInReturn(Lines(content)[i])) {
      PieceIsLine(pieces[i]);
    }
  }

  lemma FirstLine(piece: string, rest: string)
    requires '\n' !in piece
    ensures Lines(piece + "\n" + rest) == [DropReturn(piece)] + Lines(rest)
  {
    SplitHead(piece, '\n', rest);
    hide Split, DropReturn;
  }

  lemma CutRest(content: string, lines: seq<string>, ends: seq<string>) returns (piece: string, rest: string)
    requires CutInto(content, lines, ends) && ends != []
    ensures '\n' !in piece && DropReturn(piece) == lines[0] && content == piece + "\n" + rest
    ensures CutInto(rest, lines[1..], ends[1..])
  {
    piece, rest := if ends[0] == "\r\n" then lines[0] + "\r" else lines[0], Glue(lines[1..], ends[1..]);
    assert lines[0] + ends[0] == piece + "\n";
    assert '\n' !in lines[0];
  }

  // And it is the only one.
  lemma {:induction false} CutIsLines(content: string, lines: seq<string>, ends: seq<string>)
    requires CutInto(content, lines, ends)
    ensures lines == Lines(content)
    decreases |ends|
  {
    if ends == [] {
      SplitWhole(content, '\n');
    } else {
      hide CutInto, DropReturn, Lines;
      var piece, rest := CutRest(content, lines, ends);
      CutIsLines(rest, lines[1..], ends[1..]);
      FirstLine(piece, rest);
      SameLength(content, lines, ends);
    }
  }

  lemma SameLength(content: string, lines: seq<string>, ends: seq<string>)
    requires CutInto(content, lines, ends)
    ensures |lines| == |ends| + 1
  {
  }

  // --- Where the lines stand ------------------------------------------------------------------------------

  // How many line feeds a text holds.
  function Breaks(s: string): nat {
    if s == [] then 0 else Breaks(s[..|s| - 1]) + if s[|s| - 1] == '\n' then 1 else 0
  }

  lemma {:induction false} BreaksAdd(a: string, b: string)
    ensures Breaks(a + b) == Breaks(a) + Breaks(b)
  {
    if b == [] {
      assert a + b == a;
    } else {
      BreaksAdd(a, b[..|b| - 1]);
      assert (a + b)[..|a + b| - 1] == a + b[..|b| - 1];
    }
  }

  lemma {:induction false} NoBreaks(s: string)
    requires '\n' !in s
    ensures Breaks(s) == 0
  {
    if s != [] {
      assert s == s[..|s| - 1] + [s[|s| - 1]];
      NoBreaks(s[..|s| - 1]);
    }
  }

  lemma {:induction false} GlueBreaks(lines: seq<string>, ends: seq<string>)
    requires |lines| == |ends| + 1 && CutInto(Glue(lines, ends), lines, ends)
    ensures Breaks(Glue(lines, ends)) == |ends|
  {
    NoBreaks(lines[0]);
    if ends != [] {
      GlueBreaks(lines[1..], ends[1..]);
      BreaksAdd(lines[0] + ends[0], Glue(lines[1..], ends[1..]));
      BreaksAdd(lines[0], ends[0]);
      OneBreak(ends[0]);
    }
  }

  lemma OneBreak(end: string)
    requires end == "\n" || end == "\r\n"
    ensures Breaks(end) == 1
  {
    assert end[..|end| - 1] == if end == "\n" then "" else "\r";
    NoBreaks(end[..|end| - 1]);
  }

  lemma {:induction false} GlueSplits(lines: seq<string>, ends: seq<string>, i: nat)
    requires |lines| == |ends| + 1 && 0 < i <= |ends|
    ensures Glue(lines, ends) == Glue(lines[..i], ends[..i - 1]) + ends[i - 1] + Glue(lines[i..], ends[i..])
  {
    if i > 1 {
      GlueSplits(lines[1..], ends[1..], i - 1);
      assert lines[1..][..i - 1] == lines[..i][1..] && ends[1..][..i - 2] == ends[..i - 1][1..];
      assert lines[1..][i - 1..] == lines[i..] && ends[1..][i - 1..] == ends[i..];
    }
  }

  // The lines from first to last, counted from 1, are this stretch of the text.
  predicate Stands(content: string, first: nat, last: nat, from: nat, to: nat) {
    && from <= to <= |content|
    && Breaks(content[..from]) + 1 == first && Breaks(content[..to]) + 1 == last
    && (from > 0 ==> content[from - 1] == '\n')
    && (to < |content| ==> content[to] == '\n' || (to + 1 < |content| && content[to..to + 2] == "\r\n"))
  }

  lemma PartIsCut(content: string, lines: seq<string>, ends: seq<string>, a: nat, b: nat)
    requires CutInto(content, lines, ends) && a <= b <= |ends|
    ensures CutInto(Glue(lines[a..b + 1], ends[a..b]), lines[a..b + 1], ends[a..b])
  {
    hide Glue;
  }

  lemma GlueUpTo(content: string, lines: seq<string>, ends: seq<string>, b: nat)
    requires CutInto(content, lines, ends) && b <= |ends|
    ensures var head := Glue(lines[..b + 1], ends[..b]);
            && |head| <= |content| && content[..|head|] == head && Breaks(head) == b
            && (|head| < |content| ==> b < |ends| && ends[b] <= content[|head|..])
  {
    PartIsCut(content, lines, ends, 0, b);
    var head := Glue(lines[..b + 1], ends[..b]);
    assert lines[0..b + 1] == lines[..b + 1] && ends[0..b] == ends[..b];
    GlueBreaks(lines[..b + 1], ends[..b]);
    if b < |ends| {
      GlueSplits(lines, ends, b + 1);
      var rest := Glue(lines[b + 1..], ends[b + 1..]);
      hide Glue;
      assert content == head + (ends[b] + rest);
    } else {
      assert lines[..b + 1] == lines && ends[..b] == ends;
    }
  }

  lemma LinesStand(content: string, lines: seq<string>, ends: seq<string>, a: nat, b: nat) returns (from: nat, to: nat)
    requires CutInto(content, lines, ends) && a <= b <= |ends|
    ensures Stands(content, a + 1, b + 1, from, to)
    ensures content[from..to] == Glue(lines[a..b + 1], ends[a..b])
  {
    GlueUpTo(content, lines, ends, b);
    to := |Glue(lines[..b + 1], ends[..b])|;
    if a == 0 {
      from := 0;
      assert lines[0..b + 1] == lines[..b + 1] && ends[0..b] == ends[..b];
    } else {
      PartIsCut(content, lines, ends, 0, b);
      assert lines[0..b + 1] == lines[..b + 1] && ends[0..b] == ends[..b];
      from := LaterLinesStand(content[..to], lines[..b + 1], ends[..b], a);
      TakeThenDrop(content, from, to);
      TakeThenDrop(lines, a, b + 1);
      TakeThenDrop(ends, a, b);
    }
    hide Glue;
  }

  lemma TakeThenDrop<T>(s: seq<T>, a: nat, b: nat)
    requires a <= b <= |s|
    ensures s[..b][a..] == s[a..b] && s[..b][..a] == s[..a]
  {
  }

  lemma LaterLinesStand(content: string, lines: seq<string>, ends: seq<string>, a: nat) returns (from: nat)
    requires CutInto(content, lines, ends) && 0 < a <= |ends|
    ensures 0 < from <= |content| && Breaks(content[..from]) == a && content[from - 1] == '\n'
    ensures content[from..] == Glue(lines[a..], ends[a..])
  {
    GlueUpTo(content, lines, ends, a - 1);
    GlueSplits(lines, ends, a);
    var head, end := Glue(lines[..a], ends[..a - 1]), ends[a - 1];
    from := |head + end|;
    assert content[..from] == head + end;
    BreaksAdd(head, end);
    OneBreak(end);
    hide Glue;
  }

  // --- One line end -----------------------------------------------------------------------------------------

  // The text with every line end written as a single line feed.
  function Unified(s: string): string {
    if |s| >= 2 && s[0] == '\r' && s[1] == '\n' then "\n" + Unified(s[2..])
    else if s == [] then [] else [s[0]] + Unified(s[1..])
  }

  lemma {:induction false} UnifiedLine(line: string, end: string, rest: string)
    requires '\n' !in line && (end == "\r\n" || (end == "\n" && !EndsInReturn(line)))
    ensures Unified(line + end + rest) == line + "\n" + Unified(rest)
  {
    var s := line + end + rest;
    if line == [] {
      assert s[|end|..] == rest;
    } else {
      assert line[0] in line && (|line| > 1 ==> line[1] in line);
      UnifiedLine(line[1..], end, rest);
      assert s[1..] == line[1..] + end + rest;
      assert s[0] == line[0] && s[1] == if |line| > 1 then line[1] else end[0];
    }
  }

  lemma {:induction false} UnifiedLast(line: string)
    requires '\n' !in line
    ensures Unified(line) == line
  {
    if line != [] {
      assert line[0] in line && (|line| > 1 ==> line[1] in line);
      UnifiedLast(line[1..]);
    }
  }

  lemma {:induction false} UnifiedJoins(lines: seq<string>, ends: seq<string>)
    requires |lines| == |ends| + 1 && CutInto(Glue(lines, ends), lines, ends)
    ensures Unified(Glue(lines, ends)) == JoinLines(lines)
  {
    if ends == [] {
      UnifiedLast(lines[0]);
    } else {
      UnifiedJoins(lines[1..], ends[1..]);
      UnifiedLine(lines[0], ends[0], Glue(lines[1..], ends[1..]));
    }
  }
}
