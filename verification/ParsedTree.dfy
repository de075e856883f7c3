/** The tree the text parser builds: numbering, parents, and the structure every document must have. */
module ParsedTree {
  import opened CompiledDocument
  import opened HeadingStack
  import opened Numerals
  import opened Text
  import opened TextNodes

  function Marks(nodes: seq<Node>): seq<Mark<NodeId>> {
    seq(|nodes|, i requires 0 <= i < |nodes| => Mark(nodes[i].id, nodes[i].level))
  }

  function HeadingCount(nodes: seq<Node>): (n: nat)
    ensures n <= |nodes|
  {
    if nodes == [] then 0
    else HeadingCount(nodes[..|nodes| - 1]) + if nodes[|nodes| - 1].level.Some? then 1 else 0
  }

  // Headings and paragraphs are numbered separately, each in document order.
  ghost predicate Numbered(nodes: seq<Node>, k: nat)
    requires k < |nodes|
  {
    var headings := HeadingCount(nodes[..k]);
    && nodes[k].order == k
    && nodes[k].id == if nodes[k].level.Some? then HeadingId(headings + 1) else ParagraphId(k - headings + 1)
  }

  // The parent is the nearest earlier heading of smaller level; for a paragraph, the latest heading.
  ghost predicate RightParent(nodes: seq<Node>, k: nat)
    requires k < |nodes|
  {
    var at := Nearest(Marks(nodes[..k]), nodes[k].level);
    nodes[k].parent == if at < 0 then None else Some(nodes[at].id)
  }

  ghost predicate Tree(nodes: seq<Node>) {
    forall k :: 0 <= k < |nodes| ==> Numbered(nodes, k) && RightParent(nodes, k)
  }

  ghost predicate InTree(st: State) {
    && Tree(st.nodes) && st.stack == StackAfter(Marks(st.nodes))
    && st.headings == HeadingCount(st.nodes) && st.paragraphs == |st.nodes| - HeadingCount(st.nodes)
  }

  lemma AppendKeepsTree(nodes: seq<Node>, node: Node)
    requires Tree(nodes) && node.order == |nodes|
    requires node.id == if node.level.Some? then HeadingId(HeadingCount(nodes) + 1)
        else ParagraphId(|nodes| - HeadingCount(nodes) + 1)
    requires node.parent == Top(Opened(StackAfter(Marks(nodes)), node.level))
    ensures Tree(nodes + [node])
  {
    NewInTree(nodes, node);
    hide Numbered, RightParent;
    forall k | 0 <= k < |nodes| ensures Numbered(nodes + [node], k) && RightParent(nodes + [node], k) {
      OldInTree(nodes, node, k);
    }
  }

  lemma AppendFiles(nodes: seq<Node>, node: Node)
    ensures StackAfter(Marks(nodes + [node])) == Filed(StackAfter(Marks(nodes)), Mark(node.id, node.level))
    ensures HeadingCount(nodes + [node]) == HeadingCount(nodes) + if node.level.Some? then 1 else 0
  {
    hide Filed;
    assert (nodes + [node])[..|nodes|] == nodes;
    assert Marks(nodes + [node]) == Marks(nodes) + [Mark(node.id, node.level)];
    assert Marks(nodes + [node])[..|nodes|] == Marks(nodes);
  }

  lemma NewInTree(nodes: seq<Node>, node: Node)
    requires node.order == |nodes|
    requires node.id == if node.level.Some? then HeadingId(HeadingCount(nodes) + 1)
        else ParagraphId(|nodes| - HeadingCount(nodes) + 1)
    requires node.parent == Top(Opened(StackAfter(Marks(nodes)), node.level))
    ensures Numbered(nodes + [node], |nodes|) && RightParent(nodes + [node], |nodes|)
  {
    hide Opened, StackAfter;
    assert (nodes + [node])[..|nodes|] == nodes;
    TopIsNearest(Marks(nodes), node.level);
  }

  lemma OldInTree(nodes: seq<Node>, node: Node, k: nat)
    requires k < |nodes| && Numbered(nodes, k) && RightParent(nodes, k)
    ensures Numbered(nodes + [node], k) && RightParent(nodes + [node], k)
  {
    assert (nodes + [node])[..k] == nodes[..k];
  }

  lemma FlushInTree(st: State, lineEnd: nat)
    requires InTree(st) && Flush(st, lineEnd).Some?
    ensures InTree(Flush(st, lineEnd).value)
  {
    hide Trim, JoinLines, StackAfter, Tree;
    var final := Flush(st, lineEnd).value;
    if final != st {
      AppendKeepsTree(st.nodes, final.nodes[|st.nodes|]);
      AppendFiles(st.nodes, final.nodes[|st.nodes|]);
    }
  }

  // Filing a heading: the node that is appended, with the number, the order and the parent it must have.
  lemma FiledNode(st: State, heading: Heading, i: nat)
    requires FileHeading(st, heading, i).Some?
    ensures var final := FileHeading(st, heading, i).value;
            var node := Node(HeadingId(st.headings + 1), Some(heading.level), heading.title,
                             Top(Opened(st.stack, Some(heading.level))), |st.nodes|, i + 1, i + 1);
            && final.nodes == st.nodes + [node] && final.stack == Filed(st.stack, Mark(node.id, node.level))
            && final.headings == st.headings + 1 && final.paragraphs == st.paragraphs
  {
    hide Pop;
  }

  lemma FileInTree(st: State, heading: Heading, i: nat)
    requires InTree(st) && FileHeading(st, heading, i).Some?
    ensures InTree(FileHeading(st, heading, i).value)
  {
    FiledNode(st, heading, i);
    hide StackAfter, Tree, Opened, Filed, FileHeading, HeadingCount, Marks, Top;
    var node := Node(HeadingId(st.headings + 1), Some(heading.level), heading.title,
                     Top(Opened(st.stack, Some(heading.level))), |st.nodes|, i + 1, i + 1);
    AppendKeepsTree(st.nodes, node);
    AppendFiles(st.nodes, node);
  }

  lemma {:induction false} AfterInTree(lines: seq<string>, markdown: bool)
    requires After(lines, markdown).Some?
    ensures InTree(After(lines, markdown).value)
  {
    hide Trim, InTree, Flush, FileHeading, HeadingIn;
    if lines == [] {
      EmptyInTree();
    } else {
      var n := |lines| - 1;
      AfterInTree(lines[..n], markdown);
      var st := After(lines[..n], markdown).value;
      if HeadingIn(markdown, lines[n]).Some? {
        FlushInTree(st, n);
        FileInTree(Flush(st, n).value, HeadingIn(markdown, lines[n]).value, n);
      } else if Trim(lines[n]) != "" {
        LineInTree(st, lines[n], n);
      } else {
        FlushInTree(st, n);
      }
    }
  }

  lemma EmptyInTree()
    ensures InTree(Initial())
  {
  }

  lemma LineInTree(st: State, line: string, i: nat)
    requires InTree(st) && AddLine(st, line, i).Some?
    ensures InTree(AddLine(st, line, i).value)
  {
  }

  // --- As a compiled document ------------------------------------------------------------------------

  function IdText(id: NodeId): string {
    match id
    case HeadingId(n) => "heading-" + Decimal(n)
    case ParagraphId(n) => "paragraph-" + Decimal(n)
  }

  lemma IdTextInjective(a: NodeId, b: NodeId)
    requires IdText(a) == IdText(b)
    ensures a == b
  {
    assert IdText(a)[0] == IdText(b)[0];
    if a.HeadingId? {
      assert Decimal(a.n) == IdText(a)[8..] && Decimal(b.n) == IdText(b)[8..];
    } else {
      assert Decimal(a.n) == IdText(a)[10..] && Decimal(b.n) == IdText(b)[10..];
    }
    DecimalInjective(a.n, b.n);
  }

  function Entries(nodes: seq<Node>, version: string): seq<Entry> {
    seq(|nodes|, i requires 0 <= i < |nodes| =>
      Entry(IdText(nodes[i].id), nodes[i].order,
            if nodes[i].parent.Some? then Some(IdText(nodes[i].parent.value)) else None, version))
  }

  lemma {:induction false} HeadingCountGrows(nodes: seq<Node>, i: nat, k: nat)
    requires i < k <= |nodes|
    ensures HeadingCount(nodes[..i]) + (if nodes[i].level.Some? then 1 else 0) <= HeadingCount(nodes[..k])
    ensures HeadingCount(nodes[..k]) - HeadingCount(nodes[..i]) <= k - i - if nodes[i].level.Some? then 0 else 1
  {
    assert nodes[..k][..k - 1] == nodes[..k - 1];
    if i < k - 1 {
      HeadingCountGrows(nodes, i, k - 1);
    }
  }

  lemma NodesDistinct(nodes: seq<Node>, i: nat, k: nat)
    requires Tree(nodes) && i < k < |nodes|
    ensures nodes[i].id != nodes[k].id
  {
    assert Numbered(nodes, i) && Numbered(nodes, k);
    HeadingCountGrows(nodes, i, k);
  }

  lemma TreeIsStructured(nodes: seq<Node>, version: string)
    requires Tree(nodes)
    ensures Issues(Entries(nodes, version), version) == []
  {
    hide IdText, Issues;
    var entries := Entries(nodes, version);
    forall i, k | 0 <= i < k < |entries|
      ensures entries[i].id != entries[k].id && entries[i].order != entries[k].order
    {
      NodesDistinct(nodes, i, k);
      assert Numbered(nodes, i) && Numbered(nodes, k);
      if entries[i].id == entries[k].id {
        IdTextInjective(nodes[i].id, nodes[k].id);
      }
    }
    forall i | 0 <= i < |entries| ensures HasParentBefore(entries, i) {
      if entries[i].parent.Some? {
        assert RightParent(nodes, i);
        var at := Nearest(Marks(nodes[..i]), nodes[i].level);
        assert Numbered(nodes, i) && Numbered(nodes, at);
        assert Fathers(entries, at, i);
      }
    }
    NoIssuesExactly(entries, version);
  }
}
