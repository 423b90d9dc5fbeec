/** The workflow graph: nodes with their per-run state, and edges. */
module Workflow {
  import opened Wrappers
  import opened Json

  /** The node type tags. They are compared as strings: a document can carry any tag. */
  const START := "start"
  const API_REQUEST := "apiRequest"
  const LOG_OUTPUT := "logOutput"
  const IF := "if"
  const SET_DATA := "setData"
  const GEMINI_TEXT := "geminiText"
  const AI_AGENT := "aiAgent"

  datatype Status = Idle | Running | Success | Error

  datatype Position = Position(x: real, y: real)

  /** `config` is whatever object the node carries: the engine reads it field by field,
      so a missing field reads as `undefined`. `input`, `output` and `error` are the
      runtime fields, `Undefined` / `None` when absent. */
  datatype NodeData = NodeData(
    nodeType: string,
    nodeLabel: string,
    config: Value,
    status: Status,
    input: Value,
    output: Value,
    error: Option<string>)

  /** `kind` is the canvas component type (`type` in the document). */
  datatype Node = Node(id: string, kind: string, position: Position, data: NodeData)

  /** `animated` is the activation marker the engine sets on the edges it follows. */
  datatype Edge = Edge(id: string, source: string, target: string, sourceHandle: Option<string>, animated: bool)

  function NodeIds(nodes: seq<Node>): (r: set<string>)
    ensures forall id :: id in r <==> exists i :: 0 <= i < |nodes| && nodes[i].id == id
  {
    set i | 0 <= i < |nodes| :: nodes[i].id
  }

  /** `nodes.find(n => n.id === id)`. */
  function FindById(nodes: seq<Node>, id: string): (r: Option<Node>)
    ensures r.None? <==> id !in NodeIds(nodes)
    ensures r.Some? ==> exists i :: 0 <= i < |nodes| && nodes[i] == r.value && r.value.id == id
                                   && forall j :: 0 <= j < i ==> nodes[j].id != id
  {
    if nodes == [] then None
    else if nodes[0].id == id then Some(nodes[0])
    else
      var r := FindById(nodes[1..], id);
      assert forall i :: 1 <= i < |nodes| ==> nodes[i] == nodes[1..][i - 1];
      r
  }

  /** `nodes.find(n => n.data.label === lbl)`: the first node carrying that label. */
  function FindByLabel(nodes: seq<Node>, lbl: string): (r: Option<Node>)
    ensures r.None? <==> forall i :: 0 <= i < |nodes| ==> nodes[i].data.nodeLabel != lbl
    ensures r.Some? ==> exists i :: 0 <= i < |nodes| && nodes[i] == r.value && r.value.data.nodeLabel == lbl
                                   && forall j :: 0 <= j < i ==> nodes[j].data.nodeLabel != lbl
  {
    if nodes == [] then None
    else if nodes[0].data.nodeLabel == lbl then Some(nodes[0])
    else
      var r := FindByLabel(nodes[1..], lbl);
      assert forall i :: 1 <= i < |nodes| ==> nodes[i] == nodes[1..][i - 1];
      r
  }

  /** `nodes.find(n => n.data.nodeType === NodeType.START)`. */
  function FindStart(nodes: seq<Node>): (r: Option<Node>)
    ensures r.None? <==> forall i :: 0 <= i < |nodes| ==> nodes[i].data.nodeType != START
    ensures r.Some? ==> exists i :: 0 <= i < |nodes| && nodes[i] == r.value && r.value.data.nodeType == START
                                   && forall j :: 0 <= j < i ==> nodes[j].data.nodeType != START
  {
    if nodes == [] then None
    else if nodes[0].data.nodeType == START then Some(nodes[0])
    else
      var r := FindStart(nodes[1..]);
      assert forall i :: 1 <= i < |nodes| ==> nodes[i] == nodes[1..][i - 1];
      r
  }
}
