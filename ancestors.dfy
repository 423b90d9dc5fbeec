/** `findAncestors`: the backward breadth-first search the data picker uses to offer
    only upstream nodes as data sources. */
module Ancestors {
  import opened Wrappers
  import opened Workflow
  import opened GraphEdits

  /** `a` is a listed node with an edge into `b`: `a` is a parent of `b`. */
  ghost predicate Step(nodes: seq<Node>, edges: seq<Edge>, a: string, b: string) {
    a in NodeIds(nodes) && exists e :: e in edges && e.source == a && e.target == b
  }

  /** Consecutive ids of `p` are joined by parent steps. */
  ghost predicate Chain(nodes: seq<Node>, edges: seq<Edge>, p: seq<string>) {
    forall i :: 0 <= i < |p| - 1 ==> Step(nodes, edges, p[i], p[i + 1])
  }

  /** A directed path of at least one edge leads from `a` to `b`, through listed
      nodes. */
  ghost predicate Reaches(nodes: seq<Node>, edges: seq<Edge>, a: string, b: string) {
    exists p :: |p| >= 2 && p[0] == a && p[|p| - 1] == b && Chain(nodes, edges, p)
  }

  /** A parent of a node that reaches `c` reaches `c`. */
  lemma StepThenReaches(nodes: seq<Node>, edges: seq<Edge>, a: string, b: string, c: string)
    requires Step(nodes, edges, a, b)
    requires b == c || Reaches(nodes, edges, b, c)
    ensures Reaches(nodes, edges, a, c)
  {
    if b == c {
      assert Chain(nodes, edges, [a, c]);
    } else {
      var p :| |p| >= 2 && p[0] == b && p[|p| - 1] == c && Chain(nodes, edges, p);
      var q := [a] + p;
      assert forall i :: 1 <= i < |q| ==> q[i] == p[i - 1];
      assert Chain(nodes, edges, q);
    }
  }

  /** Every id of a chain ending in a closed set, except the last, is found. */
  lemma {:induction false} ChainFound(nodes: seq<Node>, edges: seq<Edge>, visited: set<string>, found: set<string>, p: seq<string>)
    requires |p| >= 1 && p[|p| - 1] in visited && Chain(nodes, edges, p)
    requires found <= visited
    requires forall v, a :: v in visited && Step(nodes, edges, a, v) ==> a in found
    ensures forall i :: 0 <= i < |p| - 1 ==> p[i] in found
  {
    if |p| >= 2 {
      var q := p[..|p| - 1];
      assert Step(nodes, edges, p[|p| - 2], p[|p| - 1]);
      assert Chain(nodes, edges, q);
      ChainFound(nodes, edges, visited, found, q);
    }
  }

  predicate DistinctIds(s: seq<Node>) {
    forall i, j :: 0 <= i < j < |s| ==> s[i].id != s[j].id
  }

  predicate DistinctStrings(s: seq<string>) {
    forall i, j :: 0 <= i < j < |s| ==> s[i] != s[j]
  }

  // ---------------------------------------------------------------------------
  // The search state
  // ---------------------------------------------------------------------------

  /** What is known of the nodes found so far: listed nodes, distinct ids, each a
      proper ancestor of `start`. */
  ghost predicate Sound(nodes: seq<Node>, edges: seq<Edge>, start: string, found: seq<Node>) {
    && (forall n :: n in found ==> n in nodes)
    && DistinctIds(found)
    && NodeIds(found) <= NodeIds(nodes)
    && forall n :: n in found ==> Reaches(nodes, edges, n.id, start)
  }

  /** The queue holds `start` and found ids, and every found id (and `start`) is either
      expanded or still waiting. */
  ghost predicate Pending(start: string, queue: seq<string>, visited: set<string>, found: seq<Node>) {
    && (forall x :: x in queue ==> x == start || x in NodeIds(found))
    && visited <= NodeIds(found) + {start}
    && (start in visited || start in queue)
    && forall k :: k in NodeIds(found) ==> k in visited || k in queue
  }

  /** Every parent of an expanded id other than `skip` is found. */
  ghost predicate ClosedBut(nodes: seq<Node>, edges: seq<Edge>, visited: set<string>, found: seq<Node>, skip: Option<string>) {
    forall v, a :: v in visited && Some(v) != skip && Step(nodes, edges, a, v) ==> a in NodeIds(found)
  }

  ghost predicate Expanded(visited: set<string>, expanded: seq<string>) {
    DistinctStrings(expanded) && forall x :: x in expanded <==> x in visited
  }

  /** The invariant of the outer loop. */
  ghost predicate Outer(nodes: seq<Node>, edges: seq<Edge>, start: string,
                        queue: seq<string>, visited: set<string>, found: seq<Node>, expanded: seq<string>) {
    && Sound(nodes, edges, start, found)
    && Pending(start, queue, visited, found)
    && ClosedBut(nodes, edges, visited, found, None)
    && Expanded(visited, expanded)
  }

  /** The invariant of the loop over the parent edges of `current`: the first `j` of
      them have been handled. */
  ghost predicate Inner(nodes: seq<Node>, edges: seq<Edge>, start: string,
                        queue: seq<string>, visited: set<string>, found: seq<Node>,
                        current: string, parentEdges: seq<Edge>, j: nat) {
    && Sound(nodes, edges, start, found)
    && Pending(start, queue, visited, found)
    && ClosedBut(nodes, edges, visited, found, Some(current))
    && current in visited
    && (current == start || current in NodeIds(found))
    && (forall e :: e in parentEdges <==> e in edges && e.target == current)
    && j <= |parentEdges|
    && forall k :: 0 <= k < j && parentEdges[k].source in NodeIds(nodes) ==> parentEdges[k].source in NodeIds(found)
  }

  lemma OuterInit(nodes: seq<Node>, edges: seq<Edge>, start: string)
    ensures Outer(nodes, edges, start, [start], {}, [], [])
  {
  }

  /** Dequeuing an id already expanded keeps the invariant. */
  lemma OuterSkip(nodes: seq<Node>, edges: seq<Edge>, start: string,
                  queue: seq<string>, visited: set<string>, found: seq<Node>, expanded: seq<string>)
    requires Outer(nodes, edges, start, queue, visited, found, expanded)
    requires queue != [] && queue[0] in visited
    ensures Outer(nodes, edges, start, queue[1..], visited, found, expanded)
  {
    assert forall x :: x in queue ==> x == queue[0] || x in queue[1..];
  }

  /** Dequeuing a new id starts its expansion. */
  lemma OuterExpand(nodes: seq<Node>, edges: seq<Edge>, start: string,
                    queue: seq<string>, visited: set<string>, found: seq<Node>, expanded: seq<string>,
                    parentEdges: seq<Edge>)
    requires Outer(nodes, edges, start, queue, visited, found, expanded)
    requires queue != [] && queue[0] !in visited
    requires forall e :: e in parentEdges <==> e in edges && e.target == queue[0]
    ensures Inner(nodes, edges, start, queue[1..], visited + {queue[0]}, found, queue[0], parentEdges, 0)
    ensures Expanded(visited + {queue[0]}, expanded + [queue[0]])
    ensures queue[0] in NodeIds(nodes) + {start}
  {
    assert forall x :: x in queue ==> x == queue[0] || x in queue[1..];
    assert queue[0] in queue;
  }

  lemma NodeIdsSnoc(found: seq<Node>, n: Node)
    ensures NodeIds(found + [n]) == NodeIds(found) + {n.id}
  {
    var s := found + [n];
    forall id | id in NodeIds(found)
      ensures id in NodeIds(s)
    {
      var i :| 0 <= i < |found| && found[i].id == id;
      assert s[i] == found[i];
    }
    assert s[|found|] == n;
  }

  /** A newly found proper ancestor keeps the found list sound. */
  lemma SoundAdd(nodes: seq<Node>, edges: seq<Edge>, start: string, found: seq<Node>, parent: Node)
    requires Sound(nodes, edges, start, found)
    requires parent in nodes && parent.id !in NodeIds(found) && Reaches(nodes, edges, parent.id, start)
    ensures Sound(nodes, edges, start, found + [parent])
  {
    NodeIdsSnoc(found, parent);
    var s := found + [parent];
    assert forall n :: n in s ==> n in found || n == parent;
    assert parent.id in NodeIds(nodes);
    forall i, j | 0 <= i < j < |s|
      ensures s[i].id != s[j].id
    {
      if j == |found| {
        assert s[i] == found[i];
      }
    }
  }

  /** Finding one more node keeps every expanded id closed. */
  lemma ClosedAdd(nodes: seq<Node>, edges: seq<Edge>, visited: set<string>, found: seq<Node>,
                  skip: Option<string>, parent: Node)
    requires ClosedBut(nodes, edges, visited, found, skip)
    ensures ClosedBut(nodes, edges, visited, found + [parent], skip)
  {
    NodeIdsSnoc(found, parent);
  }

  /** Finding a node and queueing its id keeps every found id pending. */
  lemma PendingAdd(start: string, queue: seq<string>, visited: set<string>, found: seq<Node>, parent: Node)
    requires Pending(start, queue, visited, found)
    ensures Pending(start, queue + [parent.id], visited, found + [parent])
  {
    NodeIdsSnoc(found, parent);
  }

  /** The source of a parent edge of `current` is a parent of `current`, and so a
      proper ancestor of `start`. */
  lemma ParentReaches(nodes: seq<Node>, edges: seq<Edge>, start: string, found: seq<Node>,
                      current: string, parentEdges: seq<Edge>, edge: Edge, parent: Node)
    requires Sound(nodes, edges, start, found)
    requires current == start || current in NodeIds(found)
    requires forall e :: e in parentEdges <==> e in edges && e.target == current
    requires edge in parentEdges
    requires parent in nodes && parent.id == edge.source
    ensures Reaches(nodes, edges, parent.id, start)
  {
    assert parent.id in NodeIds(nodes);
    assert Step(nodes, edges, parent.id, current);
    if current != start {
      var n :| n in found && n.id == current;
    }
    StepThenReaches(nodes, edges, parent.id, current, start);
  }

  lemma InnerAdd(nodes: seq<Node>, edges: seq<Edge>, start: string,
                 queue: seq<string>, visited: set<string>, found: seq<Node>,
                 current: string, parentEdges: seq<Edge>, j: nat, parent: Node)
    requires Inner(nodes, edges, start, queue, visited, found, current, parentEdges, j)
    requires j < |parentEdges| && parent in nodes && parent.id == parentEdges[j].source
    requires parent.id !in NodeIds(found)
    ensures Inner(nodes, edges, start, queue + [parent.id], visited, found + [parent], current, parentEdges, j + 1)
  {
    assert parentEdges[j] in parentEdges;
    ParentReaches(nodes, edges, start, found, current, parentEdges, parentEdges[j], parent);
    SoundAdd(nodes, edges, start, found, parent);
    PendingAdd(start, queue, visited, found, parent);
    ClosedAdd(nodes, edges, visited, found, Some(current), parent);
    NodeIdsSnoc(found, parent);
  }

  lemma InnerKeep(nodes: seq<Node>, edges: seq<Edge>, start: string,
                  queue: seq<string>, visited: set<string>, found: seq<Node>,
                  current: string, parentEdges: seq<Edge>, j: nat)
    requires Inner(nodes, edges, start, queue, visited, found, current, parentEdges, j)
    requires j < |parentEdges|
    requires parentEdges[j].source in NodeIds(nodes) ==> parentEdges[j].source in NodeIds(found)
    ensures Inner(nodes, edges, start, queue, visited, found, current, parentEdges, j + 1)
  {
  }

  /** Once every parent edge is handled, the expanded id is closed. */
  lemma InnerDone(nodes: seq<Node>, edges: seq<Edge>, start: string,
                  queue: seq<string>, visited: set<string>, found: seq<Node>, expanded: seq<string>,
                  current: string, parentEdges: seq<Edge>)
    requires Inner(nodes, edges, start, queue, visited, found, current, parentEdges, |parentEdges|)
    requires Expanded(visited, expanded)
    ensures Outer(nodes, edges, start, queue, visited, found, expanded)
  {
    forall v, a | v in visited && Step(nodes, edges, a, v)
      ensures a in NodeIds(found)
    {
      if v == current {
        var e :| e in edges && e.source == a && e.target == current;
        assert e in parentEdges;
        var k :| 0 <= k < |parentEdges| && parentEdges[k] == e;
      }
    }
  }

  /** With the queue empty, the found ids are exactly the proper ancestors of
      `start`. */
  lemma OuterDone(nodes: seq<Node>, edges: seq<Edge>, start: string,
                  visited: set<string>, found: seq<Node>, expanded: seq<string>)
    requires Outer(nodes, edges, start, [], visited, found, expanded)
    ensures forall id :: id in NodeIds(found) <==> Reaches(nodes, edges, id, start)
  {
    forall id | Reaches(nodes, edges, id, start)
      ensures id in NodeIds(found)
    {
      var p :| |p| >= 2 && p[0] == id && p[|p| - 1] == start && Chain(nodes, edges, p);
      ChainFound(nodes, edges, visited, NodeIds(found), p);
    }
    forall id | id in NodeIds(found)
      ensures Reaches(nodes, edges, id, start)
    {
      var n :| n in found && n.id == id;
    }
  }

  /** Only `startNodeId` can be anything other than a found id in the queue, so an
      expanded id is `start` or a listed node: the search expands each of them at most
      once. */
  lemma ExpandedBound(nodes: seq<Node>, start: string, found: seq<Node>, visited: set<string>, expanded: seq<string>)
    requires visited <= NodeIds(found) + {start} && NodeIds(found) <= NodeIds(nodes)
    requires Expanded(visited, expanded)
    ensures forall x :: x in expanded ==> x == start || x in NodeIds(nodes)
  {
  }

  // ---------------------------------------------------------------------------
  // The search
  // ---------------------------------------------------------------------------

  /** `findAncestors(startNodeId, nodes, edges)`. `found` is the `ancestors` map: its
      values in insertion order, its keys their ids. `expanded` records the ids whose
      parents were queued, in order. */
  method FindAncestors(start: string, nodes: seq<Node>, edges: seq<Edge>)
    returns (found: seq<Node>, ghost expanded: seq<string>)
    ensures forall n :: n in found ==> n in nodes
    ensures DistinctIds(found)
    ensures forall id :: id in NodeIds(found) <==> Reaches(nodes, edges, id, start)
    ensures start in NodeIds(found) <==> Reaches(nodes, edges, start, start)
    ensures DistinctStrings(expanded) && forall x :: x in expanded ==> x == start || x in NodeIds(nodes)
  {
    ghost var universe := NodeIds(nodes) + {start};
    var queue := [start];
    var visited: set<string> := {};
    found := [];
    expanded := [];
    OuterInit(nodes, edges, start);
    while queue != []
      invariant Outer(nodes, edges, start, queue, visited, found, expanded)
      invariant visited <= universe
      decreases universe - visited, |queue|
    {
      if queue[0] in visited {
        OuterSkip(nodes, edges, start, queue, visited, found, expanded);
        queue := queue[1..];
        continue;
      }
      var current := queue[0];
      var parentEdges := Filter(edges, (e: Edge) => e.target == current);
      assert forall e :: e in parentEdges <==> multiset(parentEdges)[e] > 0;
      OuterExpand(nodes, edges, start, queue, visited, found, expanded, parentEdges);
      queue := queue[1..];
      visited := visited + {current};
      expanded := expanded + [current];
      var j := 0;
      while j < |parentEdges|
        invariant Inner(nodes, edges, start, queue, visited, found, current, parentEdges, j)
      {
        var parentNode := FindById(nodes, parentEdges[j].source);
        if parentNode.Some? && parentNode.value.id !in NodeIds(found) {
          InnerAdd(nodes, edges, start, queue, visited, found, current, parentEdges, j, parentNode.value);
          found := found + [parentNode.value];
          queue := queue + [parentNode.value.id];
        } else {
          InnerKeep(nodes, edges, start, queue, visited, found, current, parentEdges, j);
        }
        j := j + 1;
      }
      InnerDone(nodes, edges, start, queue, visited, found, expanded, current, parentEdges);
    }
    OuterDone(nodes, edges, start, visited, found, expanded);
    ExpandedBound(nodes, start, found, visited, expanded);
  }
}
