/** The structural checks every compiled document passes before it is stored. */
module CompiledDocument {
  import opened Numerals

  datatype Entry = Entry(id: string, order: nat, parent: Option<string>, source: string)

  datatype Issue =
    | DuplicateId(at: nat, first: nat)
    | DuplicateOrder(at: nat, first: nat)
    | SourceMismatch(at: nat)
    | ParentNotFound(at: nat)
    | ParentSelf(at: nat)
    | ParentNotBefore(at: nat)

  // --- What the checks are for -------------------------------------------------------------------

  predicate DistinctIds(nodes: seq<Entry>) {
    forall i, k :: 0 <= i < k < |nodes| ==> nodes[i].id != nodes[k].id
  }

  predicate DistinctOrders(nodes: seq<Entry>) {
    forall i, k :: 0 <= i < k < |nodes| ==> nodes[i].order != nodes[k].order
  }

  predicate Fathers(nodes: seq<Entry>, p: nat, i: nat) {
    p < |nodes| && i < |nodes| && nodes[i].parent == Some(nodes[p].id) && nodes[p].order < nodes[i].order
  }

  ghost predicate HasParentBefore(nodes: seq<Entry>, i: nat)
    requires i < |nodes|
  {
    nodes[i].parent.Some? ==> exists p :: Fathers(nodes, p, i)
  }

  ghost predicate Structured(nodes: seq<Entry>, source: string) {
    && DistinctIds(nodes) && DistinctOrders(nodes)
    && (forall i :: 0 <= i < |nodes| ==> nodes[i].source == source)
    && (forall i :: 0 <= i < |nodes| ==> HasParentBefore(nodes, i))
  }

  // --- The checks as they run --------------------------------------------------------------------

  // The first node with this id.
  function FirstId(nodes: seq<Entry>, id: string): Option<nat> {
    if nodes == [] then None
    else
      var rest := FirstId(nodes[..|nodes| - 1], id);
      if rest.Some? then rest else if nodes[|nodes| - 1].id == id then Some(|nodes| - 1) else None
  }

  function FirstOrder(nodes: seq<Entry>, order: nat): Option<nat> {
    if nodes == [] then None
    else
      var rest := FirstOrder(nodes[..|nodes| - 1], order);
      if rest.Some? then rest else if nodes[|nodes| - 1].order == order then Some(|nodes| - 1) else None
  }

  function NodeIssues(nodes: seq<Entry>, i: nat, source: string): seq<Issue>
    requires i < |nodes|
  {
    var first, earlier := FirstId(nodes[..i], nodes[i].id), FirstOrder(nodes[..i], nodes[i].order);
    (if first.Some? then [DuplicateId(i, first.value)] else [])
    + (if earlier.Some? then [DuplicateOrder(i, earlier.value)] else [])
    + (if nodes[i].source != source then [SourceMismatch(i)] else [])
  }

  function ParentIssues(nodes: seq<Entry>, i: nat): seq<Issue>
    requires i < |nodes|
  {
    if nodes[i].parent.None? then []
    else match FirstId(nodes, nodes[i].parent.value)
      case None => [ParentNotFound(i)]
      case Some(p) =>
        if p == i then [ParentSelf(i)]
        else if p < |nodes| && nodes[p].order >= nodes[i].order then [ParentNotBefore(i)]
        else []
  }

  function IssuesOfNodes(nodes: seq<Entry>, k: nat, source: string): seq<Issue>
    requires k <= |nodes|
  {
    if k == 0 then [] else IssuesOfNodes(nodes, k - 1, source) + NodeIssues(nodes, k - 1, source)
  }

  function IssuesOfParents(nodes: seq<Entry>, k: nat): seq<Issue>
    requires k <= |nodes|
  {
    if k == 0 then [] else IssuesOfParents(nodes, k - 1) + ParentIssues(nodes, k - 1)
  }

  function Issues(nodes: seq<Entry>, source: string): seq<Issue> {
    IssuesOfNodes(nodes, |nodes|, source) + IssuesOfParents(nodes, |nodes|)
  }

  ghost predicate IdsIndexed(nodes: seq<Entry>, k: nat, indexes: map<string, nat>)
    requires k <= |nodes|
  {
    forall id :: FirstId(nodes[..k], id) == if id in indexes then Some(indexes[id]) else None
  }

  ghost predicate OrdersIndexed(nodes: seq<Entry>, k: nat, orders: map<nat, nat>)
    requires k <= |nodes|
  {
    forall order :: FirstOrder(nodes[..k], order) == if order in orders then Some(orders[order]) else None
  }

  method CheckNodes(nodes: seq<Entry>, source: string) returns (issues: seq<Issue>, indexes: map<string, nat>)
    ensures issues == IssuesOfNodes(nodes, |nodes|, source)
    ensures IdsIndexed(nodes, |nodes|, indexes)
  {
    issues, indexes := [], map[];
    var orders: map<nat, nat> := map[];
    for i := 0 to |nodes|
      invariant issues == IssuesOfNodes(nodes, i, source)
      invariant IdsIndexed(nodes, i, indexes) && OrdersIndexed(nodes, i, orders)
    {
      var node := nodes[i];
      assert nodes[..i + 1][..i] == nodes[..i];
      if node.id in indexes {
        issues := issues + [DuplicateId(i, indexes[node.id])];
      } else {
        indexes := indexes[node.id := i];
      }
      if node.order in orders {
        issues := issues + [DuplicateOrder(i, orders[node.order])];
      } else {
        orders := orders[node.order := i];
      }
      if node.source != source {
        issues := issues + [SourceMismatch(i)];
      }
    }
  }

  method Check(nodes: seq<Entry>, source: string) returns (issues: seq<Issue>)
    ensures issues == Issues(nodes, source)
  {
    hide IssuesOfNodes, FirstId;
    var indexes;
    issues, indexes := CheckNodes(nodes, source);
    assert nodes[..|nodes|] == nodes;
    for i := 0 to |nodes|
      invariant issues == IssuesOfNodes(nodes, |nodes|, source) + IssuesOfParents(nodes, i)
    {
      if nodes[i].parent.Some? {
        var parent := nodes[i].parent.value;
        FirstIdFinds(nodes, parent);
        assert FirstId(nodes, parent) == if parent in indexes then Some(indexes[parent]) else None;
        if parent !in indexes {
          issues := issues + [ParentNotFound(i)];
        } else if indexes[parent] == i {
          issues := issues + [ParentSelf(i)];
        } else if nodes[indexes[parent]].order >= nodes[i].order {
          issues := issues + [ParentNotBefore(i)];
        }
      }
    }
  }

  // --- The checks find no fault exactly in structured documents -----------------------------------

  lemma {:induction false} FirstIdFinds(nodes: seq<Entry>, id: string)
    ensures match FirstId(nodes, id)
            case Some(p) => p < |nodes| && nodes[p].id == id && forall j :: 0 <= j < p ==> nodes[j].id != id
            case None => forall j :: 0 <= j < |nodes| ==> nodes[j].id != id
  {
    if nodes != [] {
      FirstIdFinds(nodes[..|nodes| - 1], id);
    }
  }

  lemma {:induction false} FirstOrderFinds(nodes: seq<Entry>, order: nat)
    ensures match FirstOrder(nodes, order)
            case Some(p) => p < |nodes| && nodes[p].order == order && forall j :: 0 <= j < p ==> nodes[j].order != order
            case None => forall j :: 0 <= j < |nodes| ==> nodes[j].order != order
  {
    if nodes != [] {
      FirstOrderFinds(nodes[..|nodes| - 1], order);
    }
  }

  lemma {:induction false} NoNodeIssues(nodes: seq<Entry>, k: nat, source: string)
    requires k <= |nodes|
    ensures IssuesOfNodes(nodes, k, source) == [] <==>
            && DistinctIds(nodes[..k]) && DistinctOrders(nodes[..k])
            && forall i :: 0 <= i < k ==> nodes[i].source == source
  {
    hide FirstId, FirstOrder;
    if k > 0 {
      NoNodeIssues(nodes, k - 1, source);
      FirstIdFinds(nodes[..k - 1], nodes[k - 1].id);
      FirstOrderFinds(nodes[..k - 1], nodes[k - 1].order);
      assert nodes[..k] == nodes[..k - 1] + [nodes[k - 1]];
    }
  }

  lemma ParentIssuesExactly(nodes: seq<Entry>, i: nat)
    requires DistinctIds(nodes) && i < |nodes|
    ensures ParentIssues(nodes, i) == [] <==> HasParentBefore(nodes, i)
  {
    if nodes[i].parent.Some? {
      var first := FirstId(nodes, nodes[i].parent.value);
      FirstIdFinds(nodes, nodes[i].parent.value);
      if p: nat :| Fathers(nodes, p, i) {
        assert nodes[p].id == nodes[first.value].id;
      } else if first.Some? {
        assert !Fathers(nodes, first.value, i);
      }
    }
  }

  lemma {:induction false} NoParentIssues(nodes: seq<Entry>, k: nat)
    requires k <= |nodes| && DistinctIds(nodes)
    ensures IssuesOfParents(nodes, k) == [] <==> forall i :: 0 <= i < k ==> HasParentBefore(nodes, i)
  {
    hide ParentIssues, DistinctIds;
    if k > 0 {
      NoParentIssues(nodes, k - 1);
      ParentIssuesExactly(nodes, k - 1);
    }
  }

  lemma NoIssuesExactly(nodes: seq<Entry>, source: string)
    ensures Issues(nodes, source) == [] <==> Structured(nodes, source)
  {
    NoNodeIssues(nodes, |nodes|, source);
    assert nodes[..|nodes|] == nodes;
    if DistinctIds(nodes) {
      NoParentIssues(nodes, |nodes|);
    }
  }

  // --- Each issue says what is wrong -----------------------------------------------------------------

  predicate FirstWithId(nodes: seq<Entry>, p: nat, id: string) {
    p < |nodes| && nodes[p].id == id && forall j :: 0 <= j < p ==> nodes[j].id != id
  }

  predicate FirstWithOrder(nodes: seq<Entry>, p: nat, order: nat) {
    p < |nodes| && nodes[p].order == order && forall j :: 0 <= j < p ==> nodes[j].order != order
  }

  ghost predicate IsTrue(nodes: seq<Entry>, source: string, issue: Issue) {
    && issue.at < |nodes|
    && var node := nodes[issue.at];
       match issue
       case DuplicateId(at, first) => first < at && FirstWithId(nodes, first, node.id)
       case DuplicateOrder(at, first) => first < at && FirstWithOrder(nodes, first, node.order)
       case SourceMismatch(_) => node.source != source
       case ParentNotFound(_) => node.parent.Some? && forall p :: 0 <= p < |nodes| ==> nodes[p].id != node.parent.value
       case ParentSelf(at) => node.parent == Some(node.id) && FirstWithId(nodes, at, node.id)
       case ParentNotBefore(at) =>
         && node.parent.Some?
         && exists p: nat :: p != at && FirstWithId(nodes, p, node.parent.value) && nodes[p].order >= node.order
  }

  predicate OfParent(issue: Issue) {
    issue.ParentNotFound? || issue.ParentSelf? || issue.ParentNotBefore?
  }

  lemma DuplicatesAre(nodes: seq<Entry>, i: nat, first: nat)
    requires i < |nodes|
    ensures FirstId(nodes[..i], nodes[i].id) == Some(first) <==> first < i && FirstWithId(nodes, first, nodes[i].id)
    ensures FirstOrder(nodes[..i], nodes[i].order) == Some(first) <==>
        first < i && FirstWithOrder(nodes, first, nodes[i].order)
  {
    FirstIdFinds(nodes[..i], nodes[i].id);
    FirstOrderFinds(nodes[..i], nodes[i].order);
    hide FirstId, FirstOrder;
  }

  lemma NodeIssueIs(nodes: seq<Entry>, i: nat, source: string, issue: Issue)
    requires i < |nodes|
    ensures issue in NodeIssues(nodes, i, source) <==> !OfParent(issue) && issue.at == i && IsTrue(nodes, source, issue)
  {
    if issue.DuplicateId? || issue.DuplicateOrder? {
      DuplicatesAre(nodes, i, issue.first);
    }
    hide FirstId, FirstOrder, FirstWithId, FirstWithOrder;
  }

  lemma {:induction false} NodeIssuesAre(nodes: seq<Entry>, k: nat, source: string, issue: Issue)
    requires k <= |nodes|
    ensures issue in IssuesOfNodes(nodes, k, source) <==>
        !OfParent(issue) && issue.at < k && IsTrue(nodes, source, issue)
  {
    hide NodeIssues, IsTrue, OfParent;
    if k > 0 {
      NodeIssuesAre(nodes, k - 1, source, issue);
      NodeIssueIs(nodes, k - 1, source, issue);
    }
  }

  lemma ParentIs(nodes: seq<Entry>, id: string, p: nat)
    ensures FirstId(nodes, id) == Some(p) <==> FirstWithId(nodes, p, id)
    ensures FirstId(nodes, id).None? <==> forall j :: 0 <= j < |nodes| ==> nodes[j].id != id
  {
    FirstIdFinds(nodes, id);
  }

  lemma ParentIssueIs(nodes: seq<Entry>, i: nat, source: string, issue: Issue)
    requires i < |nodes|
    ensures issue in ParentIssues(nodes, i) <==> OfParent(issue) && issue.at == i && IsTrue(nodes, source, issue)
  {
    if nodes[i].parent.Some? {
      var id := nodes[i].parent.value;
      forall p: nat
        ensures FirstId(nodes, id) == Some(p) <==> FirstWithId(nodes, p, id)
        ensures FirstId(nodes, id).None? <==> forall j :: 0 <= j < |nodes| ==> nodes[j].id != id
      {
        ParentIs(nodes, id, p);
      }
      ParentIs(nodes, id, i);
      hide FirstId;
      if FirstId(nodes, id).Some? {
        assert FirstWithId(nodes, FirstId(nodes, id).value, id);
      }
    }
  }

  lemma {:induction false} ParentIssuesAre(nodes: seq<Entry>, k: nat, source: string, issue: Issue)
    requires k <= |nodes|
    ensures issue in IssuesOfParents(nodes, k) <==> OfParent(issue) && issue.at < k && IsTrue(nodes, source, issue)
  {
    hide ParentIssues, IsTrue, OfParent;
    if k > 0 {
      ParentIssuesAre(nodes, k - 1, source, issue);
      ParentIssueIs(nodes, k - 1, source, issue);
    }
  }

  // An issue is reported if and only if it is true of the document.
  lemma ReportedExactly(nodes: seq<Entry>, source: string, issue: Issue)
    ensures issue in Issues(nodes, source) <==> IsTrue(nodes, source, issue)
  {
    NodeIssuesAre(nodes, |nodes|, source, issue);
    ParentIssuesAre(nodes, |nodes|, source, issue);
    hide IssuesOfNodes, IssuesOfParents, IsTrue, OfParent;
    assert IsTrue(nodes, source, issue) ==> issue.at < |nodes| by {
      TrueIsInside(nodes, source, issue);
    }
  }

  lemma TrueIsInside(nodes: seq<Entry>, source: string, issue: Issue)
    ensures IsTrue(nodes, source, issue) ==> issue.at < |nodes|
  {
  }

  // Following parents, whose order is ever smaller, ends at a node without one.
  ghost function Lineage(nodes: seq<Entry>, i: nat): (path: seq<nat>)
    requires i < |nodes| && forall k :: 0 <= k < |nodes| ==> HasParentBefore(nodes, k)
    ensures |path| > 0 && path[0] == i
    ensures path[|path| - 1] < |nodes| && nodes[path[|path| - 1]].parent.None?
    ensures forall k :: 0 <= k < |path| - 1 ==> Fathers(nodes, path[k + 1], path[k])
    decreases nodes[i].order
  {
    if nodes[i].parent.None? then [i]
    else
      assert HasParentBefore(nodes, i);
      var p :| Fathers(nodes, p, i);
      [i] + Lineage(nodes, p)
  }
}
