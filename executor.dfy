/** `executeNode`'s switch: what one node computes from its configuration, its input
    and the outputs recorded so far. The services the nodes call are oracles. */
module Executor {
  import opened Wrappers
  import opened Text
  import opened Json
  import opened Workflow
  import opened Expressions
  import Agent

  /** What the running application supplies.
      - request: `makeApiRequest`;
      - generate: `generateText`, the Gemini call;
      - chat: the chat endpoint the agent calls;
      - apiKey, model: the OpenRouter key (`""` when unset) and the selected model;
      - sameObject: whether two objects or arrays are the same object (`===` on
        objects compares identity, which values do not carry). */
  datatype Services = Services(
    codec: Codec,
    request: Agent.Requester,
    generate: Value -> Result<string>,
    chat: Agent.Chat,
    apiKey: string,
    model: string,
    sameObject: (Value, Value) -> bool)

  const START_INVALID := "Start node's Initial Output Data is not valid JSON."
  const HEADERS_INVALID := "Headers are not valid. "
  const HEADERS_NOT_OBJECT := "Resolved headers are not a valid object or JSON string."
  const PROMPT_MISSING := "Prompt template is not configured."
  const KEY_MISSING := "OpenRouter API Key is not configured. Please set it in the AI Assistant panel."
  const GOAL_MISSING := "Agent goal is not configured."
  const SET_DATA_INVALID := "The data in the Set Data node is not valid JSON."

  /** `a === b`. Numbers compare by value (`NaN` is not modelled), objects and arrays
      by identity. */
  predicate StrictEquals(a: Value, b: Value, sameObject: (Value, Value) -> bool) {
    match (a, b)
    case (Undefined, Undefined) => true
    case (Null, Null) => true
    case (Bool(x), Bool(y)) => x == y
    case (Num(x), Num(y)) => x == y
    case (Str(x), Str(y)) => x == y
    case _ => IsObjectLike(a) && IsObjectLike(b) && sameObject(a, b)
  }

  /** The If node's comparison. The ordering operators compare the `parseFloat` values
      when both are numbers, and the `String` forms otherwise. */
  function Compare(c: Codec, sameObject: (Value, Value) -> bool, op: Value, v1: Value, v2: Value): (r: Result<bool>)
    ensures op == Str("===") ==> r == Ok(StrictEquals(v1, v2, sameObject))
    ensures op == Str("!==") ==> r == Ok(!StrictEquals(v1, v2, sameObject))
    ensures r.Err? <==> op !in {Str("==="), Str("!=="), Str(">"), Str("<"), Str(">="), Str("<=")}
    ensures var n1 := c.parseFloat(ToText(c, v1)); var n2 := c.parseFloat(ToText(c, v2));
      n1.Some? && n2.Some? ==>
        && (op == Str(">") ==> r == Ok(n1.value > n2.value))
        && (op == Str("<") ==> r == Ok(n1.value < n2.value))
        && (op == Str(">=") ==> r == Ok(n1.value >= n2.value))
        && (op == Str("<=") ==> r == Ok(n1.value <= n2.value))
    ensures var t1 := ToText(c, v1); var t2 := ToText(c, v2);
      c.parseFloat(t1).None? || c.parseFloat(t2).None? ==>
        && (op == Str(">") ==> r == Ok(Less(t2, t1)))
        && (op == Str("<") ==> r == Ok(Less(t1, t2)))
        && (op == Str(">=") ==> r == Ok(!Less(t1, t2)))
        && (op == Str("<=") ==> r == Ok(!Less(t2, t1)))
  {
    var n1 := c.parseFloat(ToText(c, v1));
    var n2 := c.parseFloat(ToText(c, v2));
    var numeric := n1.Some? && n2.Some?;
    var t1 := ToText(c, v1);
    var t2 := ToText(c, v2);
    if op == Str("===") then Ok(StrictEquals(v1, v2, sameObject))
    else if op == Str("!==") then Ok(!StrictEquals(v1, v2, sameObject))
    else if op == Str(">") then Ok(if numeric then n1.value > n2.value else Less(t2, t1))
    else if op == Str("<") then Ok(if numeric then n1.value < n2.value else Less(t1, t2))
    else if op == Str(">=") then Ok(if numeric then n1.value >= n2.value else !Less(t1, t2))
    else if op == Str("<=") then Ok(if numeric then n1.value <= n2.value else !Less(t2, t1))
    else Err("Unknown IF operator: " + ToText(c, op))
  }

  /** The ordering operators agree with one another whether the values compare as
      numbers or as strings: `>` and `<=` are `<` and `>=` with the operands swapped,
      `>=` is the negation of `<`, and `<` and `>` never both hold. */
  lemma OrderingOperators(c: Codec, same: (Value, Value) -> bool, v1: Value, v2: Value)
    ensures Compare(c, same, Str(">"), v1, v2) == Compare(c, same, Str("<"), v2, v1)
    ensures Compare(c, same, Str("<="), v1, v2) == Compare(c, same, Str(">="), v2, v1)
    ensures Compare(c, same, Str(">="), v1, v2) == Ok(!Compare(c, same, Str("<"), v1, v2).value)
    ensures !(Compare(c, same, Str("<"), v1, v2).value && Compare(c, same, Str(">"), v1, v2).value)
  {
    LessAsymmetric(ToText(c, v1), ToText(c, v2));
  }

  /** The body the request sends: a resolved string as it is, anything else through
      `JSON.stringify` (which gives `undefined` for `undefined`). */
  function BodyText(c: Codec, v: Value): (r: Value)
    ensures v.Str? ==> r == v
    ensures v.Undefined? ==> r == Undefined
    ensures !v.Str? && !v.Undefined? ==> r == Str(c.stringify(v))
  {
    if v.Str? then v else if v.Undefined? then Undefined else Str(c.stringify(v))
  }

  /** The headers from their resolved template: a string is parsed, an object is used
      as it is, anything else fails. */
  function Headers(c: Codec, v: Value): (r: Result<Value>)
    ensures v.Str? ==> r == match c.parse(v.s) case Ok(h) => Ok(h) case Err(m) => Err(HEADERS_INVALID + m)
    ensures IsObjectLike(v) ==> r == Ok(v)
    ensures !v.Str? && !IsObjectLike(v) ==> r == Err(HEADERS_INVALID + HEADERS_NOT_OBJECT)
  {
    if v.Str? then
      match c.parse(v.s) case Ok(h) => Ok(h) case Err(m) => Err(HEADERS_INVALID + m)
    else if IsObjectLike(v) then Ok(v)
    else Err(HEADERS_INVALID + HEADERS_NOT_OBJECT)
  }

  /** `resolveExpressions` against the given nodes, outputs and input. */
  function Resolver(nodes: seq<Node>, outputs: map<string, Value>, input: Value, c: Codec): Value -> Value {
    t => Resolve(t, nodes, outputs, input, c)
  }

  /** The Start node: `{}` without initial data, the parsed data otherwise. */
  function StartNode(config: Value, c: Codec): (r: Result<Value>)
  {
    var data :- Field(config, "outputData");
    if !Truthy(data) then Ok(Obj([]))
    else match ParseText(c, data) case Ok(v) => Ok(v) case Err(_) => Err(START_INVALID)
  }

  /** The API Request node: resolves the url, the body (only for POST, PUT and PATCH)
      and the headers, then makes the request. */
  function ApiRequestNode(config: Value, resolve: Value -> Value, sv: Services): (r: Result<Value>)
  {
    var c := sv.codec;
    var url :- Field(config, "url");
    var finalUrl := resolve(url);
    var verb := Prop(config, "method");
    var template := Prop(config, "bodyTemplate");
    var body :=
      if Truthy(template) && (verb == Str("POST") || verb == Str("PUT") || verb == Str("PATCH"))
      then BodyText(c, resolve(template))
      else Undefined;
    var headerTemplate := Prop(config, "headers");
    var headers :- if Truthy(headerTemplate) then Headers(c, resolve(headerTemplate)) else Ok(Undefined);
    sv.request(finalUrl, verb, headers, body)
  }

  /** The Gemini Text node: the generated text for the resolved prompt. */
  function GeminiTextNode(config: Value, resolve: Value -> Value, sv: Services): (r: Result<Value>)
  {
    var prompt :- Field(config, "promptTemplate");
    if !Truthy(prompt) then Err(PROMPT_MISSING)
    else
      var text :- sv.generate(resolve(prompt));
      Ok(Str(text))
  }

  /** The AI Agent node: the agent's answer for the resolved goal. */
  function AgentNode(config: Value, resolve: Value -> Value, sv: Services): (r: Result<Value>)
  {
    if sv.apiKey == "" then Err(KEY_MISSING)
    else
      var goal :- Field(config, "goalTemplate");
      if !Truthy(goal) then Err(GOAL_MISSING)
      else
        var resolved := resolve(goal);
        var answer :- Agent.Run(resolved, sv.apiKey, sv.model, sv.chat, sv.request, sv.codec).result;
        Ok(Str(answer))
  }

  /** The If node: the comparison of the two resolved values. */
  function IfNode(config: Value, resolve: Value -> Value, sv: Services): (r: Result<Value>)
  {
    var c := sv.codec;
    var value1 :- Field(config, "value1");
    var v1 := resolve(value1);
    var v2 := resolve(Prop(config, "value2"));
    var b :- Compare(c, sv.sameObject, Prop(config, "operator"), v1, v2);
    Ok(Bool(b))
  }

  /** The Set Data node: the resolved data, parsed when it is a string. */
  function SetDataNode(config: Value, resolve: Value -> Value, sv: Services): (r: Result<Value>)
  {
    var data :- Field(config, "data");
    var resolved := resolve(data);
    if resolved.Str? then
      match sv.codec.parse(resolved.s) case Ok(v) => Ok(v) case Err(_) => Err(SET_DATA_INVALID)
    else Ok(resolved)
  }

  /** `executeNode`'s switch on the node type: the node's output, or the message of
      the error it throws. `nodes` and `outputs` are what templates are resolved
      against. */
  function Dispatch(node: Node, input: Value, nodes: seq<Node>, outputs: map<string, Value>, sv: Services): (r: Result<Value>)
  {
    var t := node.data.nodeType;
    var config := node.data.config;
    if t == START then StartNode(config, sv.codec)
    else if t == API_REQUEST then ApiRequestNode(config, Resolver(nodes, outputs, input, sv.codec), sv)
    else if t == GEMINI_TEXT then GeminiTextNode(config, Resolver(nodes, outputs, input, sv.codec), sv)
    else if t == AI_AGENT then AgentNode(config, Resolver(nodes, outputs, input, sv.codec), sv)
    else if t == IF then IfNode(config, Resolver(nodes, outputs, input, sv.codec), sv)
    else if t == LOG_OUTPUT then Ok(input)
    else if t == SET_DATA then SetDataNode(config, Resolver(nodes, outputs, input, sv.codec), sv)
    else Err("Unknown node type: " + t)
  }

  /** The type tags the switch knows. */
  predicate KnownType(t: string) {
    t in {START, API_REQUEST, GEMINI_TEXT, AI_AGENT, IF, LOG_OUTPUT, SET_DATA}
  }

  /** A Start node without initial data outputs `{}`; with data, the parsed data, or
      the fixed error when it does not parse. */
  lemma StartOutput(node: Node, input: Value, nodes: seq<Node>, outputs: map<string, Value>, sv: Services)
    requires node.data.nodeType == START && !IsNullish(node.data.config)
    ensures var data := Prop(node.data.config, "outputData");
      var r := Dispatch(node, input, nodes, outputs, sv);
      && (!Truthy(data) ==> r == Ok(Obj([])))
      && (Truthy(data) && ParseText(sv.codec, data).Ok? ==> r == ParseText(sv.codec, data))
      && (Truthy(data) && ParseText(sv.codec, data).Err? ==> r == Err(START_INVALID))
  {
  }

  /** A Log Output node passes its input through, whatever it is. */
  lemma LogOutputIsIdentity(node: Node, input: Value, nodes: seq<Node>, outputs: map<string, Value>, sv: Services)
    requires node.data.nodeType == LOG_OUTPUT
    ensures Dispatch(node, input, nodes, outputs, sv) == Ok(input)
  {
  }

  /** A node whose type the switch does not know fails, naming the type. */
  lemma UnknownTypeFails(node: Node, input: Value, nodes: seq<Node>, outputs: map<string, Value>, sv: Services)
    requires !KnownType(node.data.nodeType)
    ensures Dispatch(node, input, nodes, outputs, sv) == Err("Unknown node type: " + node.data.nodeType)
  {
  }

  /** An If node outputs a boolean, or fails on an operator it does not know. */
  lemma IfOutputsBoolean(node: Node, input: Value, nodes: seq<Node>, outputs: map<string, Value>, sv: Services)
    requires node.data.nodeType == IF && !IsNullish(node.data.config)
    ensures var r := Dispatch(node, input, nodes, outputs, sv);
      var op := Prop(node.data.config, "operator");
      && (r.Ok? ==> r.value.Bool?)
      && (r.Err? <==> op !in {Str("==="), Str("!=="), Str(">"), Str("<"), Str(">="), Str("<=")})
  {
  }

  /** A configuration that is `null` or `undefined` makes every node that reads it fail
      with the `TypeError` of the first property read. */
  lemma NullishConfigFails(node: Node, input: Value, nodes: seq<Node>, outputs: map<string, Value>, sv: Services)
    requires IsNullish(node.data.config)
    requires node.data.nodeType in {START, API_REQUEST, GEMINI_TEXT, IF, SET_DATA}
    ensures Dispatch(node, input, nodes, outputs, sv).Err?
  {
  }

  /** Without an OpenRouter key the agent node fails before reading its configuration. */
  lemma AgentNeedsKey(node: Node, input: Value, nodes: seq<Node>, outputs: map<string, Value>, sv: Services)
    requires node.data.nodeType == AI_AGENT && sv.apiKey == ""
    ensures Dispatch(node, input, nodes, outputs, sv) == Err(KEY_MISSING)
  {
  }
}
