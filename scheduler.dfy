/** The run loop of the workflow engine as a state machine: a FIFO queue of
    (node, input) items, the set of executed ids, the output recorded for each, and
    the canvas state the run updates (node runtime fields, edge activation).
    The executor is a parameter: the engine plugs in the node dispatch. */
module Scheduler {
  import opened Wrappers
  import opened Json
  import opened Workflow
  import opened GraphEdits

  /** A queue entry: the node to run and the input it receives. */
  datatype Item = Item(node: Node, input: Value)

  /** Runs one node with its input and the outputs recorded so far. */
  type Exec = (Node, Value, map<string, Value>) -> Result<Value>

  /** The run's state.
      - queue, executed, outputs: `executionQueue`, `executedNodeIds`, `nodeOutputs`;
      - trace: the nodes handed to the executor, in order;
      - failure: the message of the failure that ended the run;
      - live, liveEdges: the canvas node and edge lists as the run leaves them. */
  datatype Sched = Sched(
    queue: seq<Item>,
    executed: set<string>,
    outputs: map<string, Value>,
    trace: seq<Node>,
    failure: Option<string>,
    live: seq<Node>,
    liveEdges: seq<Edge>)

  function ItemIds(q: seq<Item>): set<string> {
    set k | 0 <= k < |q| :: q[k].node.id
  }

  function TraceIds(t: seq<Node>): set<string> {
    set k | 0 <= k < |t| :: t[k].id
  }

  function EdgeIds(edges: seq<Edge>): set<string> {
    set k | 0 <= k < |edges| :: edges[k].id
  }

  /** Ids of the edges that leave one of the given nodes. */
  function LeavingIds(edges: seq<Edge>, from: set<string>): set<string> {
    set k | 0 <= k < |edges| && edges[k].source in from :: edges[k].id
  }

  /** Whether the run follows `e` after `n` produced `out`: every outgoing edge, except
      after an If node, where only the edge whose handle is `String(out)`. */
  predicate Follows(c: Codec, n: Node, out: Value, e: Edge) {
    e.source == n.id && (n.data.nodeType == IF ==> e.sourceHandle == Some(ToText(c, out)))
  }

  /** `nextEdges`: the followed edges, in edge-list order. */
  function NextEdges(c: Codec, edges: seq<Edge>, n: Node, out: Value): (r: seq<Edge>)
    ensures forall e :: e in r <==> e in edges && Follows(c, n, out, e)
  {
    var r := Filter(edges, (e: Edge) => Follows(c, n, out, e));
    assert forall e :: e in r <==> multiset(r)[e] > 0;
    assert forall e :: e in edges <==> multiset(edges)[e] > 0;
    r
  }

  /** The queue items for the followed edges: each edge's target node (the first with
      that id), carrying `out` as input; an edge whose target names no node adds none. */
  function Targets(snap: seq<Node>, next: seq<Edge>, out: Value): (r: seq<Item>)
    ensures ItemIds(r) <= NodeIds(snap)
    ensures forall k :: 0 <= k < |r| ==> r[k].input == out
  {
    if next == [] then []
    else
      var rest := Targets(snap, next[1..], out);
      match FindById(snap, next[0].target)
      case None => rest
      case Some(n) =>
        assert ItemIds([Item(n, out)] + rest) == {n.id} + ItemIds(rest) by {
          ItemIdsAppend([Item(n, out)], rest);
          assert ItemIds([Item(n, out)]) == {n.id} by {
            assert [Item(n, out)][0].node.id == n.id;
          }
        }
        [Item(n, out)] + rest
  }

  lemma ItemIdsAppend(a: seq<Item>, b: seq<Item>)
    ensures ItemIds(a + b) == ItemIds(a) + ItemIds(b)
  {
    var ab := a + b;
    forall id | id in ItemIds(ab) ensures id in ItemIds(a) + ItemIds(b) {
      var k :| 0 <= k < |ab| && ab[k].node.id == id;
      if k < |a| { assert a[k] == ab[k]; } else { assert b[k - |a|] == ab[k]; }
    }
    forall id | id in ItemIds(a) + ItemIds(b) ensures id in ItemIds(ab) {
      if id in ItemIds(a) {
        var k :| 0 <= k < |a| && a[k].node.id == id;
        assert ab[k] == a[k];
      } else {
        var k :| 0 <= k < |b| && b[k].node.id == id;
        assert ab[|a| + k] == b[k];
      }
    }
  }

  /** Successors are queued in edge-list order: the items of a concatenation of edge
      lists are the concatenation of their items. */
  lemma {:induction false} TargetsAppend(snap: seq<Node>, a: seq<Edge>, b: seq<Edge>, out: Value)
    ensures Targets(snap, a + b, out) == Targets(snap, a, out) + Targets(snap, b, out)
  {
    if a == [] {
      assert a + b == b;
    } else {
      assert (a + b)[0] == a[0];
      assert (a + b)[1..] == a[1..] + b;
      TargetsAppend(snap, a[1..], b, out);
    }
  }

  /** One edge adds its target node when some node has that id, and nothing otherwise. */
  lemma TargetsOfOne(snap: seq<Node>, e: Edge, out: Value)
    ensures Targets(snap, [e], out) == match FindById(snap, e.target) case Some(n) => [Item(n, out)] case None => []
  {
    assert [e][1..] == [];
  }

  /** Every followed edge whose target names a node puts that node on the queue. */
  lemma {:induction false} TargetsCover(snap: seq<Node>, next: seq<Edge>, out: Value, e: Edge)
    requires e in next && e.target in NodeIds(snap)
    ensures e.target in ItemIds(Targets(snap, next, out))
  {
    var rest := Targets(snap, next[1..], out);
    if next[0] == e {
      var n := FindById(snap, e.target).value;
      assert Targets(snap, next, out)[0] == Item(n, out);
    } else {
      TargetsCover(snap, next[1..], out, e);
      match FindById(snap, next[0].target)
      case None =>
      case Some(n) =>
        ItemIdsAppend([Item(n, out)], rest);
    }
  }

  /** `executeNode`'s first update: the node is running and records its input. */
  function MarkRunning(live: seq<Node>, id: string, input: Value): (r: seq<Node>)
    ensures |r| == |live|
    ensures forall k :: 0 <= k < |r| ==>
      r[k] == if live[k].id == id then live[k].(data := live[k].data.(status := Running, input := input)) else live[k]
  {
    MapNodes(live, (n: Node) => if n.id == id then n.(data := n.data.(status := Running, input := input)) else n)
  }

  /** `executeNode`'s last update: success with the output, or error with the message. */
  function Settle(live: seq<Node>, id: string, result: Result<Value>): (r: seq<Node>)
    ensures |r| == |live|
    ensures forall k :: 0 <= k < |r| ==>
      r[k] == if live[k].id != id then live[k]
              else match result
                case Ok(out) => live[k].(data := live[k].data.(status := Success, output := out))
                case Err(m) => live[k].(data := live[k].data.(status := Error, error := Some(m)))
  {
    match result
    case Ok(out) =>
      MapNodes(live, (n: Node) => if n.id == id then n.(data := n.data.(status := Success, output := out)) else n)
    case Err(m) =>
      MapNodes(live, (n: Node) => if n.id == id then n.(data := n.data.(status := Error, error := Some(m))) else n)
  }

  /** The edge update after a success: the followed edges (by id) are marked active. */
  function Activate(liveEdges: seq<Edge>, next: seq<Edge>): (r: seq<Edge>)
    ensures |r| == |liveEdges|
    ensures forall k :: 0 <= k < |r| ==>
      r[k] == if liveEdges[k].id in EdgeIds(next) then liveEdges[k].(animated := true) else liveEdges[k]
  {
    var ids := EdgeIds(next);
    seq(|liveEdges|, k requires 0 <= k < |liveEdges| =>
      if liveEdges[k].id in ids then liveEdges[k].(animated := true) else liveEdges[k])
  }

  /** One iteration of the run loop: take the head item; skip it when its node already
      ran; otherwise run it, and on success record the output, queue the targets of
      the followed edges and mark those edges, on failure record the message. */
  function Step(c: Codec, snap: seq<Node>, edges: seq<Edge>, exec: Exec, s: Sched): (r: Sched)
    requires s.queue != []
  {
    var item := s.queue[0];
    var id := item.node.id;
    if id in s.executed then s.(queue := s.queue[1..])
    else
      var result := exec(item.node, item.input, s.outputs);
      var live := Settle(MarkRunning(s.live, id, item.input), id, result);
      match result
      case Err(m) =>
        s.(queue := s.queue[1..], trace := s.trace + [item.node], failure := Some(m), live := live)
      case Ok(out) =>
        var next := NextEdges(c, edges, item.node, out);
        s.(queue := s.queue[1..] + Targets(snap, next, out), executed := s.executed + {id},
           outputs := s.outputs[id := out], trace := s.trace + [item.node], live := live,
           liveEdges := Activate(s.liveEdges, next))
  }

  /** A step keeps the queue within the snapshot and makes progress: either a node
      that had not run is now executed, or the queue is shorter. */
  lemma StepProgress(c: Codec, snap: seq<Node>, edges: seq<Edge>, exec: Exec, s: Sched)
    requires s.queue != [] && ItemIds(s.queue) <= NodeIds(snap)
    ensures var r := Step(c, snap, edges, exec, s);
      && ItemIds(r.queue) <= NodeIds(snap)
      && ((r.executed == s.executed && |r.queue| < |s.queue|)
          || (s.executed < r.executed && r.executed - s.executed <= NodeIds(snap)))
  {
    var r := Step(c, snap, edges, exec, s);
    ItemIdsAppend(s.queue[..1], s.queue[1..]);
    assert s.queue == s.queue[..1] + s.queue[1..];
    assert s.queue[0].node.id in NodeIds(snap);
    if s.queue[0].node.id !in s.executed && exec(s.queue[0].node, s.queue[0].input, s.outputs).Ok? {
      var out := exec(s.queue[0].node, s.queue[0].input, s.outputs).value;
      ItemIdsAppend(s.queue[1..], Targets(snap, NextEdges(c, edges, s.queue[0].node, out), out));
    }
  }

  /** `while (item = executionQueue.shift())`, ended by an empty queue or a failure. */
  function Run(c: Codec, snap: seq<Node>, edges: seq<Edge>, exec: Exec, s: Sched): (r: Sched)
    requires ItemIds(s.queue) <= NodeIds(snap)
    decreases NodeIds(snap) - s.executed, |s.queue|
  {
    if s.queue == [] || s.failure.Some? then s
    else
      StepProgress(c, snap, edges, exec, s);
      Run(c, snap, edges, exec, Step(c, snap, edges, exec, s))
  }

  /** An iteration with work to do is the step followed by the rest of the run. */
  lemma RunUnfolds(c: Codec, snap: seq<Node>, edges: seq<Edge>, exec: Exec, s: Sched)
    requires ItemIds(s.queue) <= NodeIds(snap) && s.queue != [] && s.failure.None?
    ensures ItemIds(Step(c, snap, edges, exec, s).queue) <= NodeIds(snap)
    ensures Run(c, snap, edges, exec, s) == Run(c, snap, edges, exec, Step(c, snap, edges, exec, s))
  {
    StepProgress(c, snap, edges, exec, s);
  }

  /** A failure ends the run where it is. */
  lemma RunStops(c: Codec, snap: seq<Node>, edges: seq<Edge>, exec: Exec, s: Sched)
    requires ItemIds(s.queue) <= NodeIds(snap) && s.failure.Some?
    ensures Run(c, snap, edges, exec, s) == s
  {
  }

  /** The state after a node fails, field by field. */
  lemma StepFails(c: Codec, snap: seq<Node>, edges: seq<Edge>, exec: Exec, s: Sched, m: string)
    requires s.queue != [] && s.queue[0].node.id !in s.executed
    requires exec(s.queue[0].node, s.queue[0].input, s.outputs) == Err(m)
    ensures var item := s.queue[0];
      Step(c, snap, edges, exec, s) ==
        s.(queue := s.queue[1..], trace := s.trace + [item.node], failure := Some(m),
           live := Settle(MarkRunning(s.live, item.node.id, item.input), item.node.id, Err(m)))
  {
  }

  /** The state `runWorkflow` starts from: the canvas reset, and the queue holding the
      first Start node with an `undefined` input, or nothing when there is none. */
  function Initial(snap: seq<Node>, edges: seq<Edge>): (r: Sched)
    ensures ItemIds(r.queue) <= NodeIds(snap)
  {
    var queue := match FindStart(snap) case Some(n) => [Item(n, Undefined)] case None => [];
    Sched(queue, {}, map[], [], None, Reset(snap), ResetEdges(edges))
  }

  /** `runWorkflow` on the snapshot of nodes and edges taken when it starts. */
  function Execution(c: Codec, snap: seq<Node>, edges: seq<Edge>, exec: Exec): Sched {
    Run(c, snap, edges, exec, Initial(snap, edges))
  }

  // ---------------------------------------------------------------------------
  // Invariants of the run
  // ---------------------------------------------------------------------------

  /** No node id is handed to the executor twice. */
  predicate Distinct(t: seq<Node>) {
    forall i, j :: 0 <= i < j < |t| ==> t[i].id != t[j].id
  }

  /** What the canvas shows for snapshot node `n` as `l`: its fixed part is kept; it is
      a success with its recorded output once executed, the error with the message when
      it is the node that failed, and reset otherwise. */
  predicate Shown(s: Sched, n: Node, l: Node) {
    && Fixed(l) == Fixed(n)
    && if n.id in s.executed then
         n.id in s.outputs && l.data.status == Success && l.data.output == s.outputs[n.id] && l.data.error.None?
       else if s.failure.Some? && s.trace != [] && n.id == s.trace[|s.trace| - 1].id then
         l.data.status == Error && l.data.error == s.failure && l.data.output.Undefined?
       else l == ResetNode(n)
  }

  /** What holds of every state the run passes through. */
  predicate Consistent(snap: seq<Node>, edges: seq<Edge>, s: Sched) {
    && Distinct(s.trace)
    && s.outputs.Keys == s.executed
    && (s.failure.None? ==> s.executed == TraceIds(s.trace))
    && (s.failure.Some? ==> s.trace != [] && s.executed == TraceIds(s.trace[..|s.trace| - 1]))
    && |s.live| == |snap|
    && (forall k :: 0 <= k < |snap| ==> Shown(s, snap[k], s.live[k]))
    && |s.liveEdges| == |edges|
    && (forall k :: 0 <= k < |edges| ==> s.liveEdges[k] == edges[k].(animated := s.liveEdges[k].animated))
    && (forall k :: 0 <= k < |edges| && s.liveEdges[k].animated ==> edges[k].id in LeavingIds(edges, s.executed))
  }

  /** Nothing is left behind: every edge followed out of an executed node leads to an
      executed node, a queued one, or no node at all. */
  predicate Closed(c: Codec, snap: seq<Node>, edges: seq<Edge>, s: Sched) {
    forall i, e ::
      && 0 <= i < |s.trace| && s.trace[i].id in s.outputs
      && e in edges && Follows(c, s.trace[i], s.outputs[s.trace[i].id], e)
      && e.target in NodeIds(snap)
      ==> e.target in s.executed || e.target in ItemIds(s.queue)
  }

  lemma InitialConsistent(c: Codec, snap: seq<Node>, edges: seq<Edge>)
    ensures Consistent(snap, edges, Initial(snap, edges))
    ensures Closed(c, snap, edges, Initial(snap, edges))
  {
    var s := Initial(snap, edges);
    assert s.executed == TraceIds(s.trace);
    assert forall k :: 0 <= k < |edges| ==> !s.liveEdges[k].animated;
  }

  lemma TraceIdsSnoc(t: seq<Node>, n: Node)
    ensures TraceIds(t + [n]) == TraceIds(t) + {n.id}
    ensures (t + [n])[..|t|] == t
  {
    var tn := t + [n];
    assert forall k :: 0 <= k < |t| ==> tn[k] == t[k];
    assert tn[|t|] == n;
  }

  /** A dequeued item whose node already ran changes nothing but the queue. */
  lemma SkipsExecuted(c: Codec, snap: seq<Node>, edges: seq<Edge>, exec: Exec, s: Sched)
    requires s.queue != [] && s.queue[0].node.id in s.executed
    ensures Step(c, snap, edges, exec, s) == s.(queue := s.queue[1..])
  {
  }

  lemma SkipKeeps(c: Codec, snap: seq<Node>, edges: seq<Edge>, exec: Exec, s: Sched)
    requires s.queue != [] && s.queue[0].node.id in s.executed && s.failure.None?
    requires Consistent(snap, edges, s) && Closed(c, snap, edges, s)
    ensures Consistent(snap, edges, Step(c, snap, edges, exec, s))
    ensures Closed(c, snap, edges, Step(c, snap, edges, exec, s))
  {
    var r := Step(c, snap, edges, exec, s);
    ItemIdsAppend(s.queue[..1], s.queue[1..]);
    assert s.queue == s.queue[..1] + s.queue[1..];
    assert ItemIds(s.queue[..1]) == {s.queue[0].node.id};
    assert ItemIds(s.queue) == {s.queue[0].node.id} + ItemIds(r.queue);
  }

  lemma FailKeeps(c: Codec, snap: seq<Node>, edges: seq<Edge>, exec: Exec, s: Sched)
    requires s.queue != [] && s.queue[0].node.id !in s.executed && s.failure.None?
    requires exec(s.queue[0].node, s.queue[0].input, s.outputs).Err?
    requires Consistent(snap, edges, s)
    ensures Consistent(snap, edges, Step(c, snap, edges, exec, s))
    ensures Step(c, snap, edges, exec, s).failure == Some(exec(s.queue[0].node, s.queue[0].input, s.outputs).msg)
  {
    var item := s.queue[0];
    var r := Step(c, snap, edges, exec, s);
    TraceIdsSnoc(s.trace, item.node);
    assert r.trace[|r.trace| - 1] == item.node;
    forall k | 0 <= k < |snap| ensures Shown(r, snap[k], r.live[k]) {
      assert Shown(s, snap[k], s.live[k]);
    }
  }

  /** The state after a node succeeds, field by field. */
  lemma StepSucceeds(c: Codec, snap: seq<Node>, edges: seq<Edge>, exec: Exec, s: Sched, out: Value)
    requires s.queue != [] && s.queue[0].node.id !in s.executed
    requires exec(s.queue[0].node, s.queue[0].input, s.outputs) == Ok(out)
    ensures var r := Step(c, snap, edges, exec, s);
      var item := s.queue[0];
      var next := NextEdges(c, edges, item.node, out);
      && r.queue == s.queue[1..] + Targets(snap, next, out)
      && r.executed == s.executed + {item.node.id}
      && r.outputs == s.outputs[item.node.id := out]
      && r.trace == s.trace + [item.node]
      && r.failure == s.failure
      && r.live == Settle(MarkRunning(s.live, item.node.id, item.input), item.node.id, Ok(out))
      && r.liveEdges == Activate(s.liveEdges, next)
  {
  }

  /** How one canvas node looks after another node, or itself, succeeds. */
  lemma ShownAfterSuccess(s: Sched, r: Sched, n: Node, l: Node, l': Node, item: Item, out: Value)
    requires Shown(s, n, l) && s.failure.None? && r.failure.None?
    requires item.node.id !in s.executed && s.outputs.Keys == s.executed
    requires r.executed == s.executed + {item.node.id} && r.outputs == s.outputs[item.node.id := out]
    requires l' == if l.id == item.node.id then l.(data := l.data.(status := Success, input := item.input, output := out)) else l
    ensures Shown(r, n, l')
  {
  }

  lemma SucceedNodes(snap: seq<Node>, edges: seq<Edge>, s: Sched, r: Sched, out: Value)
    requires s.queue != [] && s.queue[0].node.id !in s.executed && s.failure.None?
    requires Consistent(snap, edges, s)
    requires var item := s.queue[0];
      && r.executed == s.executed + {item.node.id}
      && r.outputs == s.outputs[item.node.id := out]
      && r.trace == s.trace + [item.node]
      && r.failure.None?
      && r.live == Settle(MarkRunning(s.live, item.node.id, item.input), item.node.id, Ok(out))
    ensures Distinct(r.trace) && r.outputs.Keys == r.executed && r.executed == TraceIds(r.trace)
    ensures |r.live| == |snap| && forall k :: 0 <= k < |snap| ==> Shown(r, snap[k], r.live[k])
  {
    var item := s.queue[0];
    TraceIdsSnoc(s.trace, item.node);
    var running := MarkRunning(s.live, item.node.id, item.input);
    forall k | 0 <= k < |snap| ensures Shown(r, snap[k], r.live[k]) {
      assert Shown(s, snap[k], s.live[k]);
      assert r.live[k] == Settle(running, item.node.id, Ok(out))[k];
      ShownAfterSuccess(s, r, snap[k], s.live[k], r.live[k], item, out);
    }
  }

  lemma SucceedEdges(c: Codec, snap: seq<Node>, edges: seq<Edge>, exec: Exec, s: Sched, out: Value)
    requires s.queue != [] && s.queue[0].node.id !in s.executed && s.failure.None?
    requires exec(s.queue[0].node, s.queue[0].input, s.outputs) == Ok(out)
    requires Consistent(snap, edges, s)
    ensures var r := Step(c, snap, edges, exec, s);
      && |r.liveEdges| == |edges|
      && (forall k :: 0 <= k < |edges| ==> r.liveEdges[k] == edges[k].(animated := r.liveEdges[k].animated))
      && (forall k :: 0 <= k < |edges| && r.liveEdges[k].animated ==> edges[k].id in LeavingIds(edges, r.executed))
  {
    var item := s.queue[0];
    var r := Step(c, snap, edges, exec, s);
    var next := NextEdges(c, edges, item.node, out);
    StepSucceeds(c, snap, edges, exec, s, out);
    ActivateLeaving(edges, s.liveEdges, next, s.executed, item.node.id);
  }

  /** Marking the edges followed out of node `id` keeps every active edge among those
      leaving the nodes that ran, once `id` is one of them. */
  lemma ActivateLeaving(edges: seq<Edge>, liveEdges: seq<Edge>, next: seq<Edge>, ran: set<string>, id: string)
    requires |liveEdges| == |edges|
    requires forall k :: 0 <= k < |edges| ==> liveEdges[k] == edges[k].(animated := liveEdges[k].animated)
    requires forall k :: 0 <= k < |edges| && liveEdges[k].animated ==> edges[k].id in LeavingIds(edges, ran)
    requires forall e :: e in next ==> e in edges && e.source == id
    ensures var r := Activate(liveEdges, next);
      && |r| == |edges|
      && (forall k :: 0 <= k < |edges| ==> r[k] == edges[k].(animated := r[k].animated))
      && (forall k :: 0 <= k < |edges| && r[k].animated ==> edges[k].id in LeavingIds(edges, ran + {id}))
  {
    var r := Activate(liveEdges, next);
    forall k | 0 <= k < |edges| && r[k].animated
      ensures edges[k].id in LeavingIds(edges, ran + {id})
    {
      if liveEdges[k].animated {
        assert edges[k].id in LeavingIds(edges, ran);
      } else {
        assert liveEdges[k].id in EdgeIds(next);
        var j :| 0 <= j < |next| && next[j].id == liveEdges[k].id;
        assert next[j] in next;
        var i :| 0 <= i < |edges| && edges[i] == next[j];
        assert edges[i].id in LeavingIds(edges, ran + {id});
      }
    }
  }

  lemma SucceedClosed(c: Codec, snap: seq<Node>, edges: seq<Edge>, s: Sched, r: Sched, out: Value)
    requires s.queue != [] && s.queue[0].node.id !in s.executed && s.failure.None?
    requires Consistent(snap, edges, s) && Closed(c, snap, edges, s)
    requires var item := s.queue[0];
      && r.queue == s.queue[1..] + Targets(snap, NextEdges(c, edges, item.node, out), out)
      && r.executed == s.executed + {item.node.id}
      && r.outputs == s.outputs[item.node.id := out]
      && r.trace == s.trace + [item.node]
    ensures Closed(c, snap, edges, r)
  {
    var item := s.queue[0];
    var id := item.node.id;
    var next := NextEdges(c, edges, item.node, out);
    var added := Targets(snap, next, out);
    ItemIdsAppend(s.queue[1..], added);
    ItemIdsAppend(s.queue[..1], s.queue[1..]);
    assert s.queue == s.queue[..1] + s.queue[1..];
    assert ItemIds(s.queue[..1]) == {id};
    assert ItemIds(s.queue) <= {id} + ItemIds(r.queue);
    TraceIdsSnoc(s.trace, item.node);
    forall i, e |
      && 0 <= i < |r.trace| && r.trace[i].id in r.outputs
      && e in edges && Follows(c, r.trace[i], r.outputs[r.trace[i].id], e)
      && e.target in NodeIds(snap)
      ensures e.target in r.executed || e.target in ItemIds(r.queue)
    {
      if i < |s.trace| {
        assert r.trace[i] == s.trace[i];
        assert s.trace[i].id in TraceIds(s.trace);
      } else {
        assert r.trace[i] == item.node;
        assert e in next;
        TargetsCover(snap, next, out, e);
      }
    }
  }

  /** Every state the run reaches is consistent, and closed until a failure. */
  lemma {:induction false} RunKeeps(c: Codec, snap: seq<Node>, edges: seq<Edge>, exec: Exec, s: Sched)
    requires ItemIds(s.queue) <= NodeIds(snap)
    requires Consistent(snap, edges, s)
    requires s.failure.None? ==> Closed(c, snap, edges, s)
    ensures var r := Run(c, snap, edges, exec, s);
      && Consistent(snap, edges, r)
      && (r.failure.None? ==> r.queue == [] && Closed(c, snap, edges, r))
    decreases NodeIds(snap) - s.executed, |s.queue|
  {
    if s.queue != [] && s.failure.None? {
      StepProgress(c, snap, edges, exec, s);
      var item := s.queue[0];
      if item.node.id in s.executed {
        SkipKeeps(c, snap, edges, exec, s);
      } else {
        match exec(item.node, item.input, s.outputs)
        case Err(m) =>
          FailKeeps(c, snap, edges, exec, s);
        case Ok(out) =>
          var r := Step(c, snap, edges, exec, s);
          StepSucceeds(c, snap, edges, exec, s, out);
          SucceedNodes(snap, edges, s, r, out);
          SucceedEdges(c, snap, edges, exec, s, out);
          SucceedClosed(c, snap, edges, s, r, out);
      }
      RunKeeps(c, snap, edges, exec, Step(c, snap, edges, exec, s));
    }
  }

  /** The run only appends to its trace. */
  lemma {:induction false} RunExtends(c: Codec, snap: seq<Node>, edges: seq<Edge>, exec: Exec, s: Sched)
    requires ItemIds(s.queue) <= NodeIds(snap)
    ensures s.trace <= Run(c, snap, edges, exec, s).trace
    decreases NodeIds(snap) - s.executed, |s.queue|
  {
    if s.queue != [] && s.failure.None? {
      StepProgress(c, snap, edges, exec, s);
      var t := Step(c, snap, edges, exec, s);
      RunExtends(c, snap, edges, exec, t);
    }
  }

  // ---------------------------------------------------------------------------
  // What a run guarantees
  // ---------------------------------------------------------------------------

  /** Without a Start node nothing runs: the canvas is only reset. */
  lemma NoStartNoRun(c: Codec, snap: seq<Node>, edges: seq<Edge>, exec: Exec)
    requires FindStart(snap).None?
    ensures var r := Execution(c, snap, edges, exec);
      r.trace == [] && r.executed == {} && r.live == Reset(snap) && r.liveEdges == ResetEdges(edges)
  {
  }

  /** The run starts with the first Start node. */
  lemma StartRunsFirst(c: Codec, snap: seq<Node>, edges: seq<Edge>, exec: Exec)
    requires FindStart(snap).Some?
    ensures var r := Execution(c, snap, edges, exec);
      r.trace != [] && r.trace[0] == FindStart(snap).value
  {
    var s := Initial(snap, edges);
    StepProgress(c, snap, edges, exec, s);
    var t := Step(c, snap, edges, exec, s);
    assert t.trace == [FindStart(snap).value];
    RunExtends(c, snap, edges, exec, t);
  }

  /** Every run ends in a consistent state (see `Consistent`: each node runs at most
      once, a node that ran shows success and its recorded output, the node that failed
      shows the error, every other node is left reset, and only edges leaving nodes
      that ran are marked active); when no node failed it also ends closed with an
      empty queue. */
  lemma ExecutionEnds(c: Codec, snap: seq<Node>, edges: seq<Edge>, exec: Exec, r: Sched)
    requires r == Execution(c, snap, edges, exec)
    ensures Consistent(snap, edges, r)
    ensures r.failure.None? ==> r.queue == [] && Closed(c, snap, edges, r)
  {
    InitialConsistent(c, snap, edges);
    RunKeeps(c, snap, edges, exec, Initial(snap, edges));
  }

  /** The first failure ends the run: the failing node is the last one handed to the
      executor, it is not among the executed ones, and every node with its id shows the
      error message. */
  lemma FailureIsLast(snap: seq<Node>, edges: seq<Edge>, r: Sched)
    requires Consistent(snap, edges, r) && r.failure.Some?
    ensures r.trace != []
    ensures r.trace[|r.trace| - 1].id !in r.executed
    ensures forall k :: 0 <= k < |snap| && snap[k].id == r.trace[|r.trace| - 1].id ==>
      r.live[k].data.status == Error && r.live[k].data.error == r.failure
  {
    var t := r.trace;
    var last := t[|t| - 1].id;
    assert forall k :: 0 <= k < |t| - 1 ==> t[..|t| - 1][k].id == t[k].id != last;
    assert last !in TraceIds(t[..|t| - 1]);
    forall k | 0 <= k < |snap| && snap[k].id == last
      ensures r.live[k].data.status == Error && r.live[k].data.error == r.failure
    {
      assert Shown(r, snap[k], r.live[k]);
    }
  }

  /** A node that ran shows success and its output; a node that was never handed to
      the executor is left reset. */
  lemma RanOrReset(snap: seq<Node>, edges: seq<Edge>, r: Sched, k: nat)
    requires Consistent(snap, edges, r) && k < |snap|
    ensures snap[k].id in r.executed ==>
      r.live[k].data.status == Success && r.live[k].data.output == r.outputs[snap[k].id]
    ensures snap[k].id !in TraceIds(r.trace) ==> r.live[k] == ResetNode(snap[k])
  {
    assert Shown(r, snap[k], r.live[k]);
    if r.failure.Some? && snap[k].id == r.trace[|r.trace| - 1].id {
      assert snap[k].id in TraceIds(r.trace);
    }
  }

  /** A run that ends without failure leaves nothing behind: every edge followed out of
      a node that ran leads to a node that ran, unless its target names no node. */
  lemma CompleteWithoutFailure(c: Codec, snap: seq<Node>, edges: seq<Edge>, r: Sched)
    requires Consistent(snap, edges, r) && Closed(c, snap, edges, r)
    requires r.failure.None? && r.queue == []
    ensures forall i :: 0 <= i < |r.trace| ==> r.trace[i].id in r.outputs
    ensures forall i, e ::
      && 0 <= i < |r.trace| && e in edges && Follows(c, r.trace[i], r.outputs[r.trace[i].id], e)
      && e.target in NodeIds(snap)
      ==> e.target in r.executed
  {
    assert forall i :: 0 <= i < |r.trace| ==> r.trace[i].id in TraceIds(r.trace);
  }

  /** After an If node only the edges whose handle is the output's text are followed;
      with none, that branch ends. */
  lemma IfBranch(c: Codec, edges: seq<Edge>, n: Node, out: Value)
    requires n.data.nodeType == IF
    ensures forall e :: e in NextEdges(c, edges, n, out) <==>
      e in edges && e.source == n.id && e.sourceHandle == Some(ToText(c, out))
    ensures (forall e :: e in edges && e.source == n.id ==> e.sourceHandle != Some(ToText(c, out)))
      ==> NextEdges(c, edges, n, out) == []
  {
    var r := NextEdges(c, edges, n, out);
    if r != [] {
      assert r[0] in r;
    }
  }
}
