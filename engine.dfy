/** The canvas state the editor keeps and the two methods that run a workflow on it:
    `executeNode` and `runWorkflow`. */
module Engine {
  import opened Wrappers
  import opened Json
  import opened Workflow
  import opened Expressions
  import opened GraphEdits
  import opened Executor
  import opened Scheduler
  import Agent

  /** The executor `runWorkflow` uses: the node dispatch, resolving templates against
      the node list as it was when the run started. */
  function NodeExecutor(snap: seq<Node>, sv: Services): Exec {
    (n: Node, input: Value, outs: map<string, Value>) => Dispatch(n, input, snap, outs, sv)
  }

  /** The switch of `executeNode`: assigns `output` branch by branch and fails with the
      message of the error a branch throws. */
  method Switch(node: Node, input: Value, snap: seq<Node>, outputs: map<string, Value>, sv: Services)
    returns (r: Result<Value>)
    ensures r == Dispatch(node, input, snap, outputs, sv)
  {
    var config := node.data.config;
    var t := node.data.nodeType;
    var resolve := Resolver(snap, outputs, input, sv.codec);
    if t == START {
      r := StartCase(config, sv.codec);
    } else if t == API_REQUEST {
      r := ApiRequestCase(config, resolve, sv);
    } else if t == GEMINI_TEXT {
      r := GeminiTextCase(config, resolve, sv);
    } else if t == AI_AGENT {
      r := AgentCase(config, resolve, sv);
    } else if t == IF {
      r := IfCase(config, resolve, sv);
    } else if t == LOG_OUTPUT {
      r := Ok(input);
    } else if t == SET_DATA {
      r := SetDataCase(config, resolve, sv);
    } else {
      r := Err("Unknown node type: " + t);
    }
  }

  method StartCase(config: Value, c: Codec) returns (r: Result<Value>)
    ensures r == StartNode(config, c)
  {
    var data :- Field(config, "outputData");
    var output := Obj([]);
    if Truthy(data) {
      var parsed := ParseText(c, data);
      if parsed.Err? {
        return Err(START_INVALID);
      }
      output := parsed.value;
    }
    return Ok(output);
  }

  method ApiRequestCase(config: Value, resolve: Value -> Value, sv: Services)
    returns (r: Result<Value>)
    ensures r == ApiRequestNode(config, resolve, sv)
  {
    var c := sv.codec;
    var url :- Field(config, "url");
    var finalUrl := resolve(url);
    var verb := Prop(config, "method");
    var bodyTemplate := Prop(config, "bodyTemplate");
    var finalBody := Undefined;
    if Truthy(bodyTemplate) && (verb == Str("POST") || verb == Str("PUT") || verb == Str("PATCH")) {
      var resolvedBody := resolve(bodyTemplate);
      finalBody := BodyText(c, resolvedBody);
    }
    var headerTemplate := Prop(config, "headers");
    var finalHeaders := Undefined;
    if Truthy(headerTemplate) {
      var resolvedHeaders := resolve(headerTemplate);
      if resolvedHeaders.Str? {
        var parsed := c.parse(resolvedHeaders.s);
        if parsed.Err? {
          return Err(HEADERS_INVALID + parsed.msg);
        }
        finalHeaders := parsed.value;
      } else if IsObjectLike(resolvedHeaders) {
        finalHeaders := resolvedHeaders;
      } else {
        return Err(HEADERS_INVALID + HEADERS_NOT_OBJECT);
      }
      assert Headers(c, resolvedHeaders) == Ok(finalHeaders);
    }
    r := sv.request(finalUrl, verb, finalHeaders, finalBody);
  }

  method GeminiTextCase(config: Value, resolve: Value -> Value, sv: Services)
    returns (r: Result<Value>)
    ensures r == GeminiTextNode(config, resolve, sv)
  {
    var prompt :- Field(config, "promptTemplate");
    if !Truthy(prompt) {
      return Err(PROMPT_MISSING);
    }
    var resolvedPrompt := resolve(prompt);
    var text :- sv.generate(resolvedPrompt);
    return Ok(Str(text));
  }

  method AgentCase(config: Value, resolve: Value -> Value, sv: Services)
    returns (r: Result<Value>)
    ensures r == AgentNode(config, resolve, sv)
  {
    if sv.apiKey == "" {
      return Err(KEY_MISSING);
    }
    var goal :- Field(config, "goalTemplate");
    if !Truthy(goal) {
      return Err(GOAL_MISSING);
    }
    var resolvedGoal := resolve(goal);
    var answer :- Agent.Run(resolvedGoal, sv.apiKey, sv.model, sv.chat, sv.request, sv.codec).result;
    return Ok(Str(answer));
  }

  method IfCase(config: Value, resolve: Value -> Value, sv: Services)
    returns (r: Result<Value>)
    ensures r == IfNode(config, resolve, sv)
  {
    var c := sv.codec;
    var value1 :- Field(config, "value1");
    var v1 := resolve(value1);
    var v2 := resolve(Prop(config, "value2"));
    var b :- Compare(c, sv.sameObject, Prop(config, "operator"), v1, v2);
    return Ok(Bool(b));
  }

  method SetDataCase(config: Value, resolve: Value -> Value, sv: Services)
    returns (r: Result<Value>)
    ensures r == SetDataNode(config, resolve, sv)
  {
    var data :- Field(config, "data");
    var resolvedData := resolve(data);
    if resolvedData.Str? {
      var parsed := sv.codec.parse(resolvedData.s);
      if parsed.Err? {
        return Err(SET_DATA_INVALID);
      }
      return Ok(parsed.value);
    }
    return Ok(resolvedData);
  }

  /** The editor's node and edge lists. */
  class Canvas {
    var nodes: seq<Node>
    var edges: seq<Edge>

    constructor (initialNodes: seq<Node>, initialEdges: seq<Edge>)
      ensures nodes == initialNodes && edges == initialEdges
    {
      nodes := initialNodes;
      edges := initialEdges;
    }

    /** `executeNode`: marks the node running with its input, runs the switch, then
        marks it succeeded with the output or failed with the message. */
    method ExecuteNode(node: Node, input: Value, snap: seq<Node>, outputs: map<string, Value>, sv: Services)
      returns (r: Result<Value>)
      modifies this
      ensures r == Dispatch(node, input, snap, outputs, sv)
      ensures nodes == Settle(MarkRunning(old(nodes), node.id, input), node.id, r)
      ensures edges == old(edges)
    {
      nodes := MarkRunning(nodes, node.id, input);
      r := Switch(node, input, snap, outputs, sv);
      nodes := Settle(nodes, node.id, r);
    }

    /** `runWorkflow`: resets the canvas, then runs the queue from the Start node until
        it is empty or a node fails. The canvas ends as `Execution` says, so every
        property proved of `Execution` holds of it. */
    method RunWorkflow(sv: Services)
      modifies this
      ensures var r := Execution(sv.codec, old(nodes), old(edges), NodeExecutor(old(nodes), sv));
        nodes == r.live && edges == r.liveEdges
    {
      var snap := nodes;
      var graph := edges;
      var c := sv.codec;
      ghost var exec := NodeExecutor(snap, sv);
      ghost var final := Execution(c, snap, graph, exec);
      nodes := Reset(nodes);
      edges := ResetEdges(edges);
      var start := FindStart(snap);
      if start.None? {
        return;
      }
      var queue := [Item(start.value, Undefined)];
      var executed: set<string> := {};
      var outputs: map<string, Value> := map[];
      ghost var trace: seq<Node> := [];
      while queue != []
        invariant ItemIds(queue) <= NodeIds(snap)
        invariant Run(c, snap, graph, exec, Sched(queue, executed, outputs, trace, None, nodes, edges)) == final
        decreases NodeIds(snap) - executed, |queue|
      {
        ghost var s := Sched(queue, executed, outputs, trace, None, nodes, edges);
        RunUnfolds(c, snap, graph, exec, s);
        StepProgress(c, snap, graph, exec, s);
        var item := queue[0];
        queue := queue[1..];
        if item.node.id in executed {
          SkipsExecuted(c, snap, graph, exec, s);
          continue;
        }
        var result := ExecuteNode(item.node, item.input, snap, outputs, sv);
        assert exec(item.node, item.input, outputs) == result;
        trace := trace + [item.node];
        if result.Err? {
          StepFails(c, snap, graph, exec, s, result.msg);
          RunStops(c, snap, graph, exec, Step(c, snap, graph, exec, s));
          break;
        }
        var output := result.value;
        StepSucceeds(c, snap, graph, exec, s, output);
        outputs := outputs[item.node.id := output];
        executed := executed + {item.node.id};
        var next := NextEdges(c, graph, item.node, output);
        edges := Activate(edges, next);
        queue := queue + Targets(snap, next, output);
      }
    }
  }
}
