/** The editor's list operations on the node and edge lists: each builds a new list
    with `map` or `filter` and hands it to React, so each is a function from the old
    lists to the new ones. */
module GraphEdits {
  import opened Wrappers
  import opened Json
  import opened Workflow

  /** `s.filter(p)`. */
  function Filter<T(!new)>(s: seq<T>, p: T -> bool): (r: seq<T>)
    ensures |r| <= |s|
    ensures forall k :: 0 <= k < |r| ==> p(r[k])
    ensures forall x :: multiset(r)[x] == if p(x) then multiset(s)[x] else 0
  {
    if s == [] then []
    else
      assert s == [s[0]] + s[1..];
      var rest := Filter(s[1..], p);
      if p(s[0]) then [s[0]] + rest else rest
  }

  /** Filtering keeps the order: it distributes over concatenation. */
  lemma {:induction false} FilterAppend<T(!new)>(s: seq<T>, t: seq<T>, p: T -> bool)
    ensures Filter(s + t, p) == Filter(s, p) + Filter(t, p)
  {
    if s == [] {
      assert s + t == t;
    } else {
      assert (s + t)[1..] == s[1..] + t;
      FilterAppend(s[1..], t, p);
    }
  }

  /** `deleteNode(nodeId)`: refused when the first node with that id is the Start node;
      otherwise every node with that id and every edge touching it is removed. */
  function DeleteNode(nodes: seq<Node>, edges: seq<Edge>, id: string): (r: Option<(seq<Node>, seq<Edge>)>)
    ensures r.None? <==> FindById(nodes, id).Some? && FindById(nodes, id).value.data.nodeType == START
    ensures r.Some? ==>
      && (forall x :: multiset(r.value.0)[x] == if x.id != id then multiset(nodes)[x] else 0)
      && (forall e :: multiset(r.value.1)[e] == if e.source != id && e.target != id then multiset(edges)[e] else 0)
  {
    var found := FindById(nodes, id);
    if found.Some? && found.value.data.nodeType == START then None
    else Some((Filter(nodes, (n: Node) => n.id != id), Filter(edges, (e: Edge) => e.source != id && e.target != id)))
  }

  /** Replaces the node data of every node with the given id, leaving the others. */
  function MapNodes(nodes: seq<Node>, f: Node -> Node): (r: seq<Node>)
    ensures |r| == |nodes| && forall k :: 0 <= k < |r| ==> r[k] == f(nodes[k])
  {
    seq(|nodes|, k requires 0 <= k < |nodes| => f(nodes[k]))
  }

  /** `onUpdateNodeConfig(nodeId, newConfig)`. */
  function UpdateConfig(nodes: seq<Node>, id: string, config: Value): (r: seq<Node>)
    ensures |r| == |nodes|
    ensures forall k :: 0 <= k < |r| ==>
      if nodes[k].id == id then r[k] == nodes[k].(data := nodes[k].data.(config := config)) else r[k] == nodes[k]
  {
    MapNodes(nodes, (n: Node) => if n.id == id then n.(data := n.data.(config := config)) else n)
  }

  /** `onUpdateNodeLabel(nodeId, newLabel)`: the Start node keeps its label. */
  function UpdateLabel(nodes: seq<Node>, id: string, lbl: string): (r: seq<Node>)
    ensures |r| == |nodes|
    ensures forall k :: 0 <= k < |r| ==>
      if nodes[k].id == id && nodes[k].data.nodeType != START then r[k] == nodes[k].(data := nodes[k].data.(nodeLabel := lbl))
      else r[k] == nodes[k]
  {
    MapNodes(nodes, (n: Node) => if n.id == id && n.data.nodeType != START then n.(data := n.data.(nodeLabel := lbl)) else n)
  }

  /** A node's runtime fields cleared: status idle, no output, no error. The input it
      last received is kept. */
  function ResetNode(n: Node): (r: Node)
    ensures r.id == n.id && r.kind == n.kind && r.position == n.position
    ensures r.data == n.data.(status := Idle, output := Undefined, error := None)
  {
    n.(data := n.data.(status := Idle, output := Undefined, error := None))
  }

  /** A node with every runtime field cleared: the part of a node a run does not touch
      and the part an exported file keeps. */
  function Fixed(n: Node): Node {
    n.(data := n.data.(status := Idle, input := Undefined, output := Undefined, error := None))
  }

  /** `resetWorkflowStatus` on the node list. */
  function Reset(nodes: seq<Node>): (r: seq<Node>)
    ensures |r| == |nodes| && forall k :: 0 <= k < |r| ==> r[k] == ResetNode(nodes[k])
  {
    MapNodes(nodes, ResetNode)
  }

  /** `resetWorkflowStatus` on the edge list: no edge is marked active. */
  function ResetEdges(edges: seq<Edge>): (r: seq<Edge>)
    ensures |r| == |edges| && forall k :: 0 <= k < |r| ==> r[k] == edges[k].(animated := false)
  {
    seq(|edges|, k requires 0 <= k < |edges| => edges[k].(animated := false))
  }

  /** Resetting twice is resetting once. */
  lemma ResetIdempotent(nodes: seq<Node>, edges: seq<Edge>)
    ensures Reset(Reset(nodes)) == Reset(nodes)
    ensures ResetEdges(ResetEdges(edges)) == ResetEdges(edges)
  {
  }

  /** Updating a label changes neither the set of ids nor which node is the Start
      node. */
  lemma UpdateLabelKeepsIds(nodes: seq<Node>, id: string, lbl: string)
    ensures NodeIds(UpdateLabel(nodes, id, lbl)) == NodeIds(nodes)
    ensures FindStart(UpdateLabel(nodes, id, lbl)) == FindStart(nodes)
  {
    var r := UpdateLabel(nodes, id, lbl);
    assert forall k :: 0 <= k < |r| ==> r[k].id == nodes[k].id && r[k].data.nodeType == nodes[k].data.nodeType;
    StartOfSameTypes(nodes, r);
  }

  lemma {:induction false} StartOfSameTypes(a: seq<Node>, b: seq<Node>)
    requires |a| == |b|
    requires forall k :: 0 <= k < |a| ==> b[k].data.nodeType == a[k].data.nodeType
    requires forall k :: 0 <= k < |a| ==> a[k].data.nodeType == START ==> b[k] == a[k]
    ensures FindStart(b) == FindStart(a)
  {
    if a != [] {
      StartOfSameTypes(a[1..], b[1..]);
    }
  }
}
