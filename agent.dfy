/** The tool-calling agent behind the AI Agent node (`runAgent`): a bounded loop that
    asks a chat model for the next step, runs the HTTP tool it requests, and feeds the
    results back until the model answers without tool calls.

    The chat endpoint and the HTTP request are oracles passed in as function values:
    the reply depends only on the key, the model and the history sent so far. */
module Agent {
  import opened Wrappers
  import opened Text
  import opened Json

  /** `makeApiRequest(url, method, headers, body)`: the arguments as JavaScript values
      (`undefined` where absent), the parsed response or the error message. */
  type Requester = (Value, Value, Value, Value) -> Result<Value>

  datatype ToolCall = ToolCall(id: string, name: string, arguments: string)

  /** The assistant message of a completion: `content` (`None` for `null`) and
      `tool_calls` (`None` when absent; an empty list is still present). */
  datatype Reply = Reply(content: Option<string>, toolCalls: Option<seq<ToolCall>>)

  /** `SystemPrompt` is the fixed system message that opens every history (its text
      only matters to the chat oracle and is not reproduced). */
  datatype Message =
    | SystemPrompt
    | User(goal: Value)
    | Assistant(reply: Reply)
    | Tool(callId: string, content: string)

  /** `openai.chat.completions.create(...)` for a key, a model and a history: the first
      choice's message, or the error it rejects with. */
  type Chat = (string, string, seq<Message>) -> Result<Reply>

  const MAX_ROUNDS: nat := 5
  const TOOL_NAME := "make_api_request"
  const NO_OUTPUT := "Agent finished with no output."
  const MAX_REACHED := "Agent reached maximum iterations without a final answer."
  const TOOL_ERROR := "Error: Failed to execute tool call. Invalid arguments provided. Details: "

  /** The history the loop starts from. */
  function Initial(goal: Value): (h: seq<Message>)
    ensures h == [SystemPrompt, User(goal)]
  {
    [SystemPrompt, User(goal)]
  }

  /** The request the tool makes from its parsed arguments: the method defaults to
      `GET`, headers that do not parse are dropped, a body that is not a string is
      serialised. `Err` is the `TypeError` of reading `body` from `null`/`undefined`. */
  datatype ToolRequest = ToolRequest(url: Value, httpMethod: Value, headers: Value, body: Value)

  function RequestOf(c: Codec, args: Value): (r: Result<ToolRequest>)
    ensures r.Err? <==> IsNullish(args)
    ensures r.Ok? ==> r.value.url == Prop(args, "url")
    ensures r.Ok? ==> r.value.httpMethod == if Truthy(Prop(args, "method")) then Prop(args, "method") else Str("GET")
    ensures r.Ok? ==> var h := Prop(args, "headers");
      (!Truthy(h) || ParseText(c, h).Err? ==> r.value.headers == Undefined)
      && (Truthy(h) && ParseText(c, h).Ok? ==> r.value.headers == ParseText(c, h).value)
    ensures r.Ok? ==> var b := Prop(args, "body");
      (Truthy(b) && !b.Str? ==> r.value.body == Str(c.stringify(b)))
      && (!Truthy(b) || b.Str? ==> r.value.body == b)
  {
    // The headers are read inside their own `try`: a failure there is swallowed.
    var headers :=
      if IsNullish(args) then Undefined
      else
        var h := Prop(args, "headers");
        if !Truthy(h) then Undefined
        else (match ParseText(c, h) case Ok(v) => v case Err(_) => Undefined);
    match Field(args, "body")
    case Err(m) => Err(m)
    case Ok(b) =>
      var body := if Truthy(b) && !b.Str? then Str(c.stringify(b)) else b;
      var m := Prop(args, "method");
      Ok(ToolRequest(Prop(args, "url"), if Truthy(m) then m else Str("GET"), headers, body))
  }

  /** The content of the `tool` message for one `make_api_request` call. What it says
      on failure and on success is `ToolFailureReported` and `ToolResponseText`. */
  function ToolResult(c: Codec, request: Requester, call: ToolCall): string
  {
    match c.parse(call.arguments)
    case Err(m) => ErrorText(m)
    case Ok(args) =>
      match RequestOf(c, args)
      case Err(m) => ErrorText(m)
      case Ok(q) =>
        match request(q.url, q.httpMethod, q.headers, q.body)
        case Err(m) => ErrorText(m)
        case Ok(resp) => if resp.Str? then resp.s else c.stringify(resp)
  }

  /** Arguments that are not JSON, arguments that parse to `null`, and a failed request
      all become a tool message starting with the error text; the loop goes on. */
  lemma ToolFailureReported(c: Codec, request: Requester, call: ToolCall)
    requires
      || c.parse(call.arguments).Err?
      || IsNullish(c.parse(call.arguments).value)
      || (var q := RequestOf(c, c.parse(call.arguments).value).value;
          request(q.url, q.httpMethod, q.headers, q.body).Err?)
    ensures StartsWith(ToolResult(c, request, call), TOOL_ERROR)
  {
  }

  /** A request that succeeds gives its response: a string as it is, anything else
      serialised. */
  lemma ToolResponseText(c: Codec, request: Requester, call: ToolCall)
    requires c.parse(call.arguments).Ok? && !IsNullish(c.parse(call.arguments).value)
    requires var q := RequestOf(c, c.parse(call.arguments).value).value;
      request(q.url, q.httpMethod, q.headers, q.body).Ok?
    ensures var q := RequestOf(c, c.parse(call.arguments).value).value;
      var resp := request(q.url, q.httpMethod, q.headers, q.body).value;
      ToolResult(c, request, call) == if resp.Str? then resp.s else c.stringify(resp)
  {
  }

  function ErrorText(m: string): (r: string)
    ensures StartsWith(r, TOOL_ERROR)
  {
    var r := TOOL_ERROR + m;
    assert r[..|TOOL_ERROR|] == TOOL_ERROR;
    r
  }

  /** The calls that name the HTTP tool, in order; calls to any other function are
      ignored (which calls these are is `ApiCallsMembers`). */
  function ApiCalls(calls: seq<ToolCall>): (r: seq<ToolCall>)
    ensures |r| <= |calls|
  {
    if calls == [] then []
    else if calls[0].name == TOOL_NAME then [calls[0]] + ApiCalls(calls[1..])
    else ApiCalls(calls[1..])
  }

  /** `ApiCalls` keeps exactly the calls naming the HTTP tool. */
  lemma {:induction false} ApiCallsMembers(calls: seq<ToolCall>)
    ensures forall x :: x in ApiCalls(calls) <==> x in calls && x.name == TOOL_NAME
  {
    if calls != [] {
      ApiCallsMembers(calls[1..]);
      assert forall x :: x in calls <==> x == calls[0] || x in calls[1..];
    }
  }

  /** One `tool` message per HTTP tool call, tagged with that call's id; `result`
      gives each call's content. */
  function ToolMessages(result: ToolCall -> string, calls: seq<ToolCall>): (r: seq<Message>)
    ensures var api := ApiCalls(calls);
      |r| == |api| && forall k :: 0 <= k < |r| ==> r[k] == Tool(api[k].id, result(api[k]))
  {
    if calls == [] then []
    else
      var rest := ToolMessages(result, calls[1..]);
      if calls[0].name == TOOL_NAME then [Tool(calls[0].id, result(calls[0]))] + rest else rest
  }

  /** The content each call gets, as a function value. */
  function ToolResults(c: Codec, request: Requester): ToolCall -> string
  {
    call => ToolResult(c, request, call)
  }

  /** `responseMessage.content || "Agent finished with no output."`. */
  function FinalText(reply: Reply): (r: string)
    ensures reply.content.Some? && reply.content.value != "" ==> r == reply.content.value
    ensures reply.content.None? || reply.content.value == "" ==> r == NO_OUTPUT
  {
    match reply.content
    case Some(s) => if s != "" then s else NO_OUTPUT
    case None => NO_OUTPUT
  }

  /** How the loop ended: the answer or the rejection, the history as it then stood,
      and how many times the chat endpoint was called. */
  datatype Outcome = Outcome(result: Result<string>, history: seq<Message>, calls: nat)

  /** The loop from round `i` with history `h`. */
  function Rounds(key: string, model: string, chat: Chat, request: Requester, c: Codec, i: nat, h: seq<Message>): (o: Outcome)
    requires i <= MAX_ROUNDS
    decreases MAX_ROUNDS - i
    ensures i <= o.calls <= MAX_ROUNDS
    ensures h <= o.history
  {
    if i == MAX_ROUNDS then Outcome(Ok(MAX_REACHED), h, i)
    else match chat(key, model, h)
      case Err(m) => Outcome(Err(m), h, i + 1)
      case Ok(reply) =>
        if reply.toolCalls.None? then Outcome(Ok(FinalText(reply)), h, i + 1)
        else
          var h' := h + [Assistant(reply)] + ToolMessages(ToolResults(c, request), reply.toolCalls.value);
          Rounds(key, model, chat, request, c, i + 1, h')
  }

  /** `runAgent(goal, key, model)`. */
  function Run(goal: Value, key: string, model: string, chat: Chat, request: Requester, c: Codec): (o: Outcome)
    ensures o.calls <= MAX_ROUNDS
    ensures Initial(goal) <= o.history
  {
    Rounds(key, model, chat, request, c, 0, Initial(goal))
  }

  /** A first reply without tool calls ends the loop at once with its content (or the
      fixed text when it has none), after one call. */
  lemma FinalAnswerAtOnce(goal: Value, key: string, model: string, chat: Chat, request: Requester, c: Codec)
    requires chat(key, model, Initial(goal)).Ok? && chat(key, model, Initial(goal)).value.toolCalls.None?
    ensures var o := Run(goal, key, model, chat, request, c);
      o.result == Ok(FinalText(chat(key, model, Initial(goal)).value)) && o.calls == 1 && o.history == Initial(goal)
  {
  }

  /** A chat endpoint that always asks for tools is called exactly five times, and
      the answer is the fixed "maximum iterations" text. */
  lemma MaxIterationsReached(goal: Value, key: string, model: string, chat: Chat, request: Requester, c: Codec)
    requires forall h :: chat(key, model, h).Ok? && chat(key, model, h).value.toolCalls.Some?
    ensures var o := Run(goal, key, model, chat, request, c);
      o.result == Ok(MAX_REACHED) && o.calls == MAX_ROUNDS
  {
    AlwaysTools(key, model, chat, request, c, 0, Initial(goal));
  }

  lemma {:induction false} AlwaysTools(key: string, model: string, chat: Chat, request: Requester, c: Codec, i: nat, h: seq<Message>)
    requires i <= MAX_ROUNDS
    requires forall h :: chat(key, model, h).Ok? && chat(key, model, h).value.toolCalls.Some?
    decreases MAX_ROUNDS - i
    ensures var o := Rounds(key, model, chat, request, c, i, h);
      o.result == Ok(MAX_REACHED) && o.calls == MAX_ROUNDS
  {
    if i < MAX_ROUNDS {
      var reply := chat(key, model, h).value;
      AlwaysTools(key, model, chat, request, c, i + 1, h + [Assistant(reply)] + ToolMessages(ToolResults(c, request), reply.toolCalls.value));
    }
  }

  /** A round whose reply asks for tools appends that reply, then one `tool` message
      per HTTP tool call, and goes on to the next round. */
  lemma ToolRoundAppends(key: string, model: string, chat: Chat, request: Requester, c: Codec, i: nat, h: seq<Message>)
    requires i < MAX_ROUNDS && chat(key, model, h).Ok? && chat(key, model, h).value.toolCalls.Some?
    ensures var reply := chat(key, model, h).value;
      Rounds(key, model, chat, request, c, i, h)
      == Rounds(key, model, chat, request, c, i + 1,
                h + [Assistant(reply)] + ToolMessages(ToolResults(c, request), reply.toolCalls.value))
  {
  }

  /** A failing chat call ends the loop with its error; tool failures never do. */
  lemma ChatFailureAborts(key: string, model: string, chat: Chat, request: Requester, c: Codec, i: nat, h: seq<Message>)
    requires i < MAX_ROUNDS && chat(key, model, h).Err?
    ensures Rounds(key, model, chat, request, c, i, h) == Outcome(Err(chat(key, model, h).msg), h, i + 1)
  {
  }

  /** The loop as the source runs it: a `for` loop that grows `messages` and returns
      early on a final answer. */
  method RunAgent(goal: Value, key: string, model: string, chat: Chat, request: Requester, c: Codec)
    returns (r: Result<string>, messages: seq<Message>, calls: nat)
    ensures Outcome(r, messages, calls) == Run(goal, key, model, chat, request, c)
  {
    messages := Initial(goal);
    calls := 0;
    for i := 0 to MAX_ROUNDS
      invariant calls == i
      invariant Rounds(key, model, chat, request, c, i, messages) == Run(goal, key, model, chat, request, c)
    {
      var response := chat(key, model, messages);
      calls := calls + 1;
      if response.Err? {
        return Err(response.msg), messages, calls;
      }
      var reply := response.value;
      if reply.toolCalls.Some? {
        messages := RunTools(ToolResults(c, request), reply.toolCalls.value, messages + [Assistant(reply)]);
      } else {
        return Ok(FinalText(reply)), messages, calls;
      }
    }
    r := Ok(MAX_REACHED);
  }

  /** The inner `for` loop: one `tool` message pushed per HTTP tool call. */
  method RunTools(result: ToolCall -> string, toolCalls: seq<ToolCall>, messages: seq<Message>) returns (r: seq<Message>)
    ensures r == messages + ToolMessages(result, toolCalls)
  {
    r := messages;
    for j := 0 to |toolCalls|
      invariant r == messages + ToolMessages(result, toolCalls[..j])
    {
      ToolMessagesSnoc(result, toolCalls[..j], toolCalls[j]);
      assert toolCalls[..j + 1] == toolCalls[..j] + [toolCalls[j]];
      if toolCalls[j].name == TOOL_NAME {
        r := r + [Tool(toolCalls[j].id, result(toolCalls[j]))];
      }
    }
    assert toolCalls[..|toolCalls|] == toolCalls;
  }

  /** Adding a call at the end adds its message, if any, at the end. */
  lemma {:induction false} ToolMessagesSnoc(result: ToolCall -> string, calls: seq<ToolCall>, x: ToolCall)
    ensures ToolMessages(result, calls + [x])
      == ToolMessages(result, calls) + (if x.name == TOOL_NAME then [Tool(x.id, result(x))] else [])
  {
    if calls != [] {
      assert (calls + [x])[1..] == calls[1..] + [x];
      ToolMessagesSnoc(result, calls[1..], x);
    }
  }
}
