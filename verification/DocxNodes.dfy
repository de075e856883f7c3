/** Word documents: one node per paragraph that says something, filed under the same stack of headings. */
module DocxNodes {
  import opened CompiledDocument
  import opened HeadingStack
  import opened Numerals

  const MAX_DOCX_PARAGRAPHS: nat := 10000
  const MAX_DOCX_NODES: nat := 10000

  // The stripped text, and the level if the style is a heading style.
  datatype Paragraph = Paragraph(text: string, level: Option<nat>)

  // `id` is the number of the paragraph.
  datatype Node = Node(id: nat, level: Option<nat>, content: string, parent: Option<nat>, order: nat)

  function Marks(nodes: seq<Node>): seq<Mark<nat>> {
    seq(|nodes|, i requires 0 <= i < |nodes| => Mark(nodes[i].id, nodes[i].level))
  }

  // The numbers of the paragraphs with any text, in order.
  function Spoken(paragraphs: seq<Paragraph>, k: nat): (numbers: seq<nat>)
    requires k <= |paragraphs|
    ensures forall i :: 0 <= i < |numbers| ==> 1 <= numbers[i] <= k
    ensures forall n :: 1 <= n <= k ==> (n in numbers <==> paragraphs[n - 1].text != "")
    ensures forall i, j :: 0 <= i < j < |numbers| ==> numbers[i] < numbers[j]
  {
    if k == 0 then [] else Spoken(paragraphs, k - 1) + if paragraphs[k - 1].text == "" then [] else [k]
  }

  ghost predicate RightNode(nodes: seq<Node>, i: nat, paragraphs: seq<Paragraph>, shorten: string -> string)
    requires i < |nodes|
  {
    var node := nodes[i];
    && 1 <= node.id <= |paragraphs| && node.order == i
    && node.level == paragraphs[node.id - 1].level && node.content == shorten(paragraphs[node.id - 1].text)
    && var at := Nearest(Marks(nodes[..i]), node.level);
       node.parent == if at < 0 then None else Some(nodes[at].id)
  }

  ghost predicate RightNodes(nodes: seq<Node>, paragraphs: seq<Paragraph>, shorten: string -> string) {
    forall i :: 0 <= i < |nodes| ==> RightNode(nodes, i, paragraphs, shorten)
  }

  function Ids(nodes: seq<Node>): seq<nat> {
    seq(|nodes|, i requires 0 <= i < |nodes| => nodes[i].id)
  }

  method PopTo(stack: seq<Frame<nat>>, level: nat) returns (popped: seq<Frame<nat>>)
    ensures popped == Pop(stack, level)
  {
    popped := stack;
    while popped != [] && popped[|popped| - 1].level >= level
      invariant Pop(popped, level) == Pop(stack, level)
      decreases |popped|
    {
      popped := popped[..|popped| - 1];
    }
  }

  // Only the number of paragraphs can be over a limit; otherwise every paragraph with text becomes one node, in
  // order, under the nearest earlier heading of smaller level.
  method Nodes(paragraphs: seq<Paragraph>, shorten: string -> string) returns (r: Option<seq<Node>>)
    ensures r.None? <==> |paragraphs| > MAX_DOCX_PARAGRAPHS
    ensures r.Some? ==> RightNodes(r.value, paragraphs, shorten) && Ids(r.value) == Spoken(paragraphs, |paragraphs|)
  {
    hide RightNode, Pop;
    var nodes: seq<Node>, stack: seq<Frame<nat>> := [], [];
    for index := 0 to |paragraphs|
      invariant index <= MAX_DOCX_PARAGRAPHS && |nodes| <= index
      invariant stack == StackAfter(Marks(nodes)) && Ids(nodes) == Spoken(paragraphs, index)
      invariant RightNodes(nodes, paragraphs, shorten)
    {
      if index >= MAX_DOCX_PARAGRAPHS {
        return None;
      }
      var p := paragraphs[index];
      if p.text != "" {
        if |nodes| >= MAX_DOCX_NODES {
          return None;
        }
        if p.level.Some? {
          stack := PopTo(stack, p.level.value);
        }
        var node := Node(index + 1, p.level, shorten(p.text), Top(stack), |nodes|);
        AppendNode(nodes, node, paragraphs, shorten);
        nodes := nodes + [node];
        if p.level.Some? {
          stack := stack + [Frame(index + 1, p.level.value)];
        }
      }
    }
    r := Some(nodes);
  }

  lemma AppendNode(nodes: seq<Node>, node: Node, paragraphs: seq<Paragraph>, shorten: string -> string)
    requires RightNodes(nodes, paragraphs, shorten)
    requires 1 <= node.id <= |paragraphs| && node.order == |nodes|
    requires node.level == paragraphs[node.id - 1].level && node.content == shorten(paragraphs[node.id - 1].text)
    requires node.parent == Top(Opened(StackAfter(Marks(nodes)), node.level))
    ensures RightNodes(nodes + [node], paragraphs, shorten) && Ids(nodes + [node]) == Ids(nodes) + [node.id]
    ensures StackAfter(Marks(nodes + [node])) == Filed(StackAfter(Marks(nodes)), Mark(node.id, node.level))
  {
    AppendFiles(nodes, node);
    NewNodeRight(nodes, node, paragraphs, shorten);
    hide RightNode, StackAfter, Filed, Opened, Top, Marks;
    forall i | 0 <= i < |nodes| + 1 ensures RightNode(nodes + [node], i, paragraphs, shorten) {
      if i < |nodes| {
        OldNodeRight(nodes, node, i, paragraphs, shorten);
      }
    }
  }

  lemma AppendFiles(nodes: seq<Node>, node: Node)
    ensures StackAfter(Marks(nodes + [node])) == Filed(StackAfter(Marks(nodes)), Mark(node.id, node.level))
  {
    hide Filed;
    assert Marks(nodes + [node]) == Marks(nodes) + [Mark(node.id, node.level)];
    assert Marks(nodes + [node])[..|nodes|] == Marks(nodes);
  }

  lemma NewNodeRight(nodes: seq<Node>, node: Node, paragraphs: seq<Paragraph>, shorten: string -> string)
    requires 1 <= node.id <= |paragraphs| && node.order == |nodes|
    requires node.level == paragraphs[node.id - 1].level && node.content == shorten(paragraphs[node.id - 1].text)
    requires node.parent == Top(Opened(StackAfter(Marks(nodes)), node.level))
    ensures RightNode(nodes + [node], |nodes|, paragraphs, shorten)
  {
    hide Opened, StackAfter;
    assert (nodes + [node])[..|nodes|] == nodes;
    TopIsNearest(Marks(nodes), node.level);
  }

  lemma OldNodeRight(nodes: seq<Node>, node: Node, i: nat, paragraphs: seq<Paragraph>, shorten: string -> string)
    requires i < |nodes| && RightNode(nodes, i, paragraphs, shorten)
    ensures RightNode(nodes + [node], i, paragraphs, shorten)
  {
    assert (nodes + [node])[..i] == nodes[..i];
  }

  // --- As a compiled document ------------------------------------------------------------------------

  function NodeId(n: nat): string {
    "paragraph-" + Decimal(n)
  }

  lemma NodeIdInjective(a: nat, b: nat)
    requires NodeId(a) == NodeId(b)
    ensures a == b
  {
    assert Decimal(a) == NodeId(a)[10..] && Decimal(b) == NodeId(b)[10..];
    DecimalInjective(a, b);
  }

  function Entries(nodes: seq<Node>, version: string): seq<Entry> {
    seq(|nodes|, i requires 0 <= i < |nodes| =>
      Entry(NodeId(nodes[i].id), nodes[i].order,
            if nodes[i].parent.Some? then Some(NodeId(nodes[i].parent.value)) else None, version))
  }

  // Whatever is returned passes the structural checks of a compiled document.
  lemma NodesAreStructured(nodes: seq<Node>, paragraphs: seq<Paragraph>, shorten: string -> string, version: string)
    requires RightNodes(nodes, paragraphs, shorten) && Ids(nodes) == Spoken(paragraphs, |paragraphs|)
    ensures Issues(Entries(nodes, version), version) == []
  {
    hide NodeId, Issues, Spoken;
    var entries := Entries(nodes, version);
    forall i, k | 0 <= i < k < |entries|
      ensures entries[i].id != entries[k].id && entries[i].order != entries[k].order
    {
      assert Ids(nodes)[i] < Ids(nodes)[k];
      assert RightNode(nodes, i, paragraphs, shorten) && RightNode(nodes, k, paragraphs, shorten);
      if entries[i].id == entries[k].id {
        NodeIdInjective(nodes[i].id, nodes[k].id);
      }
    }
    forall i | 0 <= i < |entries| ensures HasParentBefore(entries, i) {
      if entries[i].parent.Some? {
        assert RightNode(nodes, i, paragraphs, shorten);
        var at := Nearest(Marks(nodes[..i]), nodes[i].level);
        assert RightNode(nodes, at, paragraphs, shorten);
        assert Fathers(entries, at, i);
      }
    }
    NoIssuesExactly(entries, version);
  }
}
