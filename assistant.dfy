/** The chat assistant's request and reply handling (`sendMessageToAI`): the chat
    history sent with a prompt, the extraction of a JSON object from the model's reply,
    and the shape check on what it parses to. The chat-completion call and
    `JSON.parse` are oracles; the system instruction and the pretty-printed canvas are
    passed in as text. */
module Assistant {
  import opened Wrappers
  import opened Text
  import opened Json
  import opened GraphEdits

  datatype Sender = User | Ai | System

  /** A chat panel message. */
  datatype Message = Message(sender: Sender, text: string)

  datatype Role = SystemRole | UserRole | AssistantRole

  /** A chat-completion message. */
  datatype Turn = Turn(role: Role, content: string)

  /** What the completion call gives: the `content` of each choice (`None` for
      `null`), or an `OpenAI.APIError`, or any other thrown error. */
  datatype Reply =
    | Replied(choices: seq<Option<string>>)
    | ApiError(status: string, name: string, message: string)
    | Failed(message: string)

  const KEY_MISSING := "OpenRouter API Key is not configured for the AI Assistant."
  const EMPTY_REPLY := "The AI model returned an empty response."
  const BAD_SHAPE := "AI response is not in the expected format (intent/payload)."
  const INVALID_DATA := "The AI model returned an error or invalid data. Details: "
  const NO_LAST_MESSAGE := "Cannot read properties of undefined (reading 'text')"
  const NO_CHOICE := "Cannot read properties of undefined (reading 'message')"
  const MAX_TOKENS := 4096

  // ---------------------------------------------------------------------------
  // buildHistory
  // ---------------------------------------------------------------------------

  predicate Conversational(m: Message) {
    m.sender == User || m.sender == Ai
  }

  /** The user and AI messages, in order. */
  function Conversation(messages: seq<Message>): seq<Message> {
    Filter(messages, Conversational)
  }

  function TurnOf(m: Message): Turn {
    Turn(if m.sender == User then UserRole else AssistantRole, m.text)
  }

  function Turns(messages: seq<Message>): (r: seq<Turn>)
    ensures |r| == |messages| && forall i :: 0 <= i < |r| ==> r[i] == TurnOf(messages[i])
  {
    seq(|messages|, i requires 0 <= i < |messages| => TurnOf(messages[i]))
  }

  /** `buildHistory(messages)`: the user and AI messages but the last, as chat
      turns. */
  function BuildHistory(messages: seq<Message>): (r: seq<Turn>)
    ensures |r| == if Conversation(messages) == [] then 0 else |Conversation(messages)| - 1
    ensures forall i :: 0 <= i < |r| ==> r[i].role != SystemRole
  {
    var chat := Conversation(messages);
    Turns(if chat == [] then [] else chat[..|chat| - 1])
  }

  /** Sent with a new user prompt, the history is the whole conversation before it:
      every user and AI message, in order, with its role and text. */
  lemma HistoryBeforePrompt(messages: seq<Message>, prompt: string)
    ensures BuildHistory(messages + [Message(User, prompt)]) == Turns(Conversation(messages))
  {
    FilterAppend(messages, [Message(User, prompt)], Conversational);
    assert Filter([Message(User, prompt)], Conversational) == [Message(User, prompt)];
    var chat := Conversation(messages + [Message(User, prompt)]);
    assert chat[..|chat| - 1] == Conversation(messages);
  }

  /** System messages never reach the history. */
  lemma SystemMessagesDropped(messages: seq<Message>, t: string)
    ensures Conversation(messages + [Message(System, t)]) == Conversation(messages)
  {
    FilterAppend(messages, [Message(System, t)], Conversational);
    assert Filter([Message(System, t)], Conversational) == [];
  }

  // ---------------------------------------------------------------------------
  // The fenced block: /```json\s*\n([\s\S]*?)\n\s*```/
  // ---------------------------------------------------------------------------

  /** The regular expression, read declaratively: "```json" at `i`, white space
      ending in a newline up to `inner`, the group up to `end`, then a newline, white
      space and "```". */
  ghost predicate RegexMatch(t: string, i: nat, inner: nat, end: nat) {
    && OccursAt(t, "```json", i)
    && i + 7 < inner <= end < |t|
    && SpaceBetween(t, i + 7, inner) && t[inner - 1] == '\n'
    && t[end] == '\n'
    && exists k :: end < k <= |t| && SpaceBetween(t, end + 1, k) && OccursAt(t, "```", k)
  }

  /** `\s*` can match `t[a..g]`. */
  predicate SpaceBetween(t: string, a: nat, g: nat)
    requires a <= g <= |t|
  {
    forall x :: a <= x < g ==> IsSpace(t[x])
  }

  /** The index of the first character at or after `k` that is not white space. */
  function SkipSpace(t: string, k: nat): (r: nat)
    requires k <= |t|
    decreases |t| - k
    ensures k <= r <= |t|
    ensures r == |t| || !IsSpace(t[r])
  {
    if k < |t| && IsSpace(t[k]) then SkipSpace(t, k + 1) else k
  }

  /** A group may start at `inner`: a newline ends the white-space run after "```json"
      at `i` there or before. */
  predicate OpenAt(t: string, i: nat, inner: nat) {
    && OccursAt(t, "```json", i)
    && i + 7 < inner <= SkipSpace(t, i + 7)
    && t[inner - 1] == '\n'
  }

  /** The group may end at `end`: a newline, then "```" right after the white-space
      run that follows it (a backquote is not white space, so `\s*` can stop nowhere
      else). */
  predicate CloseAt(t: string, end: nat) {
    end < |t| && t[end] == '\n' && OccursAt(t, "```", SkipSpace(t, end + 1))
  }

  predicate IsMatch(t: string, i: nat, inner: nat, end: nat) {
    OpenAt(t, i, inner) && inner <= end && CloseAt(t, end)
  }

  /** White space runs from `k` up to `g` exactly when `g` is within the run at `k`. */
  lemma {:induction false} SkipSpaceAll(t: string, k: nat, g: nat)
    requires k <= g <= |t|
    ensures SpaceBetween(t, k, g) <==> g <= SkipSpace(t, k)
    decreases |t| - k
  {
    if k < g && IsSpace(t[k]) {
      SkipSpaceAll(t, k + 1, g);
    }
  }

  /** The search's match is the regular expression's. */
  lemma MatchIff(t: string, i: nat, inner: nat, end: nat)
    ensures IsMatch(t, i, inner, end) <==> RegexMatch(t, i, inner, end)
  {
    if OccursAt(t, "```json", i) && i + 7 < inner <= |t| {
      OpenIff(t, i, inner);
    }
    if end < |t| {
      CloseIff(t, end);
    }
  }

  lemma OpenIff(t: string, i: nat, inner: nat)
    requires OccursAt(t, "```json", i) && i + 7 < inner <= |t|
    ensures OpenAt(t, i, inner) <==> SpaceBetween(t, i + 7, inner) && t[inner - 1] == '\n'
  {
    SkipSpaceAll(t, i + 7, inner);
  }

  lemma CloseIff(t: string, end: nat)
    requires end < |t|
    ensures CloseAt(t, end) <==>
      t[end] == '\n' && exists k :: end < k <= |t| && SpaceBetween(t, end + 1, k) && OccursAt(t, "```", k)
  {
    var k := SkipSpace(t, end + 1);
    SkipSpaceAll(t, end + 1, k);
    forall k' | end < k' <= |t| && SpaceBetween(t, end + 1, k') && OccursAt(t, "```", k')
      ensures k' == k
    {
      SkipSpaceAll(t, end + 1, k');
      assert t[k'] == '`';
    }
  }

  datatype Fence = Fence(start: nat, inner: nat, end: nat)

  /** The first place at or after `from` where the group may end: the lazy group. */
  function FirstClose(t: string, from: nat): (r: Option<nat>)
    decreases |t| - from
    ensures r.Some? ==> from <= r.value && CloseAt(t, r.value)
    ensures forall e: nat :: from <= e && (r.None? || e < r.value) ==> !CloseAt(t, e)
  {
    if from >= |t| then None
    else if CloseAt(t, from) then Some(from)
    else FirstClose(t, from + 1)
  }

  /** The group starts tried from `hi` down: the greedy `\s*` gives back one
      character at a time until a newline lets the rest match. */
  function TryOpens(t: string, i: nat, hi: nat): (r: Option<(nat, nat)>)
    decreases hi
    ensures r.Some? ==> r.value.0 <= r.value.1 < |t|
  {
    if hi <= i + 7 then None
    else if hi <= |t| && t[hi - 1] == '\n' then
      match FirstClose(t, hi)
      case Some(e) => Some((hi, e))
      case None => TryOpens(t, i, hi - 1)
    else TryOpens(t, i, hi - 1)
  }

  /** The first match among the group starts at or below `hi`, preferring the
      highest start and then the nearest end. */
  lemma {:induction false} TryOpensSpec(t: string, i: nat, hi: nat)
    requires OccursAt(t, "```json", i) && i + 7 <= |t| && hi <= SkipSpace(t, i + 7)
    ensures var r := TryOpens(t, i, hi);
      && (r.Some? ==> r.value.0 <= hi && IsMatch(t, i, r.value.0, r.value.1))
      && (r.Some? ==> forall e: nat :: r.value.0 <= e < r.value.1 ==> !CloseAt(t, e))
      && forall inner: nat, end: nat :: (r.None? || r.value.0 < inner) && inner <= hi ==> !IsMatch(t, i, inner, end)
    decreases hi
  {
    if hi > i + 7 {
      TryOpensSpec(t, i, hi - 1);
      if hi <= |t| && t[hi - 1] == '\n' && FirstClose(t, hi).Some? {
        assert OpenAt(t, i, hi);
      } else {
        assert forall end: nat :: !IsMatch(t, i, hi, end);
      }
    }
  }

  /** `text.match(jsonRegex)` searching from `i`: the leftmost "```json" that starts a
      match. */
  function MatchFrom(t: string, i: nat): (r: Option<Fence>)
    decreases |t| - i
    ensures r.Some? ==> r.value.inner <= r.value.end < |t|
  {
    if i >= |t| then None
    else if OccursAt(t, "```json", i) then
      match TryOpens(t, i, SkipSpace(t, i + 7))
      case Some((inner, end)) => Some(Fence(i, inner, end))
      case None => MatchFrom(t, i + 1)
    else MatchFrom(t, i + 1)
  }

  /** The match found is a match; at its start none has a later group start; and
      its group ends at the first place it can. */
  lemma {:induction false} MatchFromFound(t: string, i: nat)
    requires MatchFrom(t, i).Some?
    ensures var m := MatchFrom(t, i).value;
      && i <= m.start && IsMatch(t, m.start, m.inner, m.end)
      && (forall inner: nat, end: nat :: m.inner < inner ==> !IsMatch(t, m.start, inner, end))
      && (forall e: nat :: m.inner <= e < m.end ==> !CloseAt(t, e))
    decreases |t| - i
  {
    if OccursAt(t, "```json", i) && TryOpens(t, i, SkipSpace(t, i + 7)).Some? {
      TryOpensSpec(t, i, SkipSpace(t, i + 7));
    } else {
      MatchFromFound(t, i + 1);
    }
  }

  /** No match starts before the one found, nor anywhere when none is found. */
  lemma {:induction false} MatchFromFirst(t: string, i: nat)
    ensures var r := MatchFrom(t, i);
      forall j: nat, inner: nat, end: nat :: i <= j && (r.None? || j < r.value.start) ==> !IsMatch(t, j, inner, end)
    decreases |t| - i
  {
    if i < |t| {
      MatchFromFirst(t, i + 1);
      if OccursAt(t, "```json", i) {
        TryOpensSpec(t, i, SkipSpace(t, i + 7));
      }
    }
  }

  /** `match[1]`, the group of the match, when there is one. */
  function FenceGroup(t: string): Option<string> {
    match MatchFrom(t, 0)
    case Some(m) => Some(t[m.inner..m.end])
    case None => None
  }

  // ---------------------------------------------------------------------------
  // The reply extraction
  // ---------------------------------------------------------------------------

  /** The fallback: from the first `{` to the last `}`, when the first comes before
      the last; the text unchanged otherwise. */
  function Braced(t: string): string {
    match FirstIndexOf(t, '{')
    case None => t
    case Some(f) =>
      match LastIndexOf(t, '}')
      case None => t
      case Some(l) => if l > f then t[f..l + 1] else t
  }

  /** The text `JSON.parse` is given: the group of a fenced block when it is not
      empty, otherwise the braced part. */
  function Extracted(reply: string): string {
    match FenceGroup(reply)
    case Some(g) => if g != "" then g else Braced(reply)
    case None => Braced(reply)
  }

  /** The reassignments of `text` in `sendMessageToAI`. */
  method ExtractJson(reply: string) returns (text: string)
    ensures text == Extracted(reply)
  {
    text := reply;
    var found := MatchFrom(text, 0);
    if found.Some? && text[found.value.inner..found.value.end] != "" {
      text := text[found.value.inner..found.value.end];
    } else {
      var firstBrace := FirstIndexOf(text, '{');
      var lastBrace := LastIndexOf(text, '}');
      if firstBrace.Some? && lastBrace.Some? && lastBrace.value > firstBrace.value {
        text := text[firstBrace.value..lastBrace.value + 1];
      }
    }
  }

  /** Chatter around an object is dropped: with no `{` before the object and no `}`
      after it, the fallback yields the object's text. */
  lemma BracedStripsChatter(pre: string, body: string, post: string)
    requires |body| >= 2 && body[0] == '{' && body[|body| - 1] == '}'
    requires forall i :: 0 <= i < |pre| ==> pre[i] != '{'
    requires forall i :: 0 <= i < |post| ==> post[i] != '}'
    ensures Braced(pre + body + post) == body
  {
    var t := pre + body + post;
    var f := |pre|;
    var l := |pre| + |body| - 1;
    assert t[f] == '{' && t[l] == '}';
    assert forall j :: 0 <= j < f ==> t[j] == pre[j];
    assert forall j :: l < j < |t| ==> t[j] == post[j - l - 1];
    assert FirstIndexOf(t, '{') == Some(f);
    assert LastIndexOf(t, '}') == Some(l);
    assert t[f..l + 1] == body;
  }

  /** Without a `{` before a later `}` the fallback leaves the text as it is. */
  lemma BracedKeeps(t: string)
    requires forall f, l :: 0 <= f < l < |t| && t[f] == '{' ==> t[l] != '}'
    ensures Braced(t) == t
  {
  }

  /** A reply holding one fenced block, whose body starts with a character other
      than white space and has no line break, and which no backquote precedes, is
      reduced to that body. */
  lemma FencedReply(pre: string, body: string, post: string)
    requires forall i :: 0 <= i < |pre| ==> pre[i] != '`'
    requires body != [] && !IsSpace(body[0])
    requires forall i :: 0 <= i < |body| ==> body[i] != '\n'
    ensures Extracted(pre + "```json\n" + body + "\n```" + post) == body
  {
    FenceLayout(pre, body, post);
    FencedGroup(pre + "```json\n" + body + "\n```" + post, pre, body);
  }

  /** The group of a text laid out as in `FencedReply` is the body. */
  lemma FencedGroup(t: string, pre: string, body: string)
    requires forall i :: 0 <= i < |pre| ==> pre[i] != '`'
    requires body != [] && !IsSpace(body[0])
    requires forall i :: 0 <= i < |body| ==> body[i] != '\n'
    requires |pre| + 8 + |body| + 4 <= |t| && t[..|pre|] == pre
    requires t[|pre|..|pre| + 7] == "```json" && t[|pre| + 7] == '\n'
    requires t[|pre| + 8..|pre| + 8 + |body|] == body
    requires t[|pre| + 8 + |body|] == '\n' && t[|pre| + 8 + |body| + 1..|pre| + 8 + |body| + 4] == "```"
    ensures FenceGroup(t) == Some(body)
  {
    FencedMatch(t, |pre|, body);
    var m := MatchFrom(t, 0).value;
    FenceStart(t, pre, m.start);
    FencedAt(t, |pre|, body);
    FenceEnd(t, body, |pre| + 8, m.end);
  }

  /** A fenced block at `i0` is a match, so the search finds one no later. */
  lemma FencedMatch(t: string, i0: nat, body: string)
    requires body != [] && !IsSpace(body[0])
    requires i0 + 8 + |body| + 4 <= |t|
    requires t[i0..i0 + 7] == "```json" && t[i0 + 7] == '\n'
    requires t[i0 + 8..i0 + 8 + |body|] == body
    requires t[i0 + 8 + |body|] == '\n' && t[i0 + 8 + |body| + 1..i0 + 8 + |body| + 4] == "```"
    ensures MatchFrom(t, 0).Some? && MatchFrom(t, 0).value.start <= i0
    ensures OccursAt(t, "```json", MatchFrom(t, 0).value.start)
  {
    FenceShape(t, i0, body);
    MatchFromFirst(t, 0);
    assert MatchFrom(t, 0).Some?;
    MatchFromFound(t, 0);
  }

  /** When the search's match starts at a fenced block at `i0`, its group starts
      right after the newline and ends no later than the body. */
  lemma FencedAt(t: string, i0: nat, body: string)
    requires body != [] && !IsSpace(body[0])
    requires i0 + 8 + |body| + 4 <= |t|
    requires t[i0..i0 + 7] == "```json" && t[i0 + 7] == '\n'
    requires t[i0 + 8..i0 + 8 + |body|] == body
    requires t[i0 + 8 + |body|] == '\n' && t[i0 + 8 + |body| + 1..i0 + 8 + |body| + 4] == "```"
    requires MatchFrom(t, 0).Some? && MatchFrom(t, 0).value.start == i0
    ensures var m := MatchFrom(t, 0).value;
      m.inner == i0 + 8 <= m.end <= i0 + 8 + |body| && t[m.end] == '\n'
  {
    FenceShape(t, i0, body);
    MatchFromFound(t, 0);
  }

  /** Where the parts of a fenced reply lie. */
  lemma FenceLayout(pre: string, body: string, post: string)
    ensures var t := pre + "```json\n" + body + "\n```" + post;
      var end := |pre| + 8 + |body|;
      && end + 4 <= |t|
      && t[..|pre|] == pre
      && t[|pre|..|pre| + 7] == "```json" && t[|pre| + 7] == '\n'
      && t[|pre| + 8..end] == body
      && t[end] == '\n' && t[end + 1..end + 4] == "```"
  {
    var t := pre + "```json\n" + body + "\n```" + post;
    assert t == pre + ("```json\n" + (body + ("\n```" + post)));
  }

  /** "```json", a newline, a body that starts with a character other than white
      space and a newline before "```" make a match whose group starts right after
      the first newline. */
  lemma FenceShape(t: string, i0: nat, body: string)
    requires body != [] && !IsSpace(body[0])
    requires i0 + 8 + |body| + 4 <= |t|
    requires t[i0..i0 + 7] == "```json" && t[i0 + 7] == '\n'
    requires t[i0 + 8..i0 + 8 + |body|] == body
    requires t[i0 + 8 + |body|] == '\n' && t[i0 + 8 + |body| + 1..i0 + 8 + |body| + 4] == "```"
    ensures SkipSpace(t, i0 + 7) == i0 + 8
    ensures IsMatch(t, i0, i0 + 8, i0 + 8 + |body|)
  {
    var end := i0 + 8 + |body|;
    assert t[i0 + 8] == body[0];
    assert t[end + 1] == '`';
  }

  /** No match starts inside a prefix without backquotes. */
  lemma FenceStart(t: string, pre: string, s: nat)
    requires |pre| <= |t| && t[..|pre|] == pre
    requires forall i :: 0 <= i < |pre| ==> pre[i] != '`'
    requires OccursAt(t, "```json", s)
    ensures s >= |pre|
  {
    assert forall j :: 0 <= j < |pre| ==> t[j] == pre[j];
    assert t[s] == '`';
  }

  /** The group ends at the first line break after its start. */
  lemma FenceEnd(t: string, body: string, inner: nat, e: nat)
    requires inner + |body| <= |t| && t[inner..inner + |body|] == body
    requires forall i :: 0 <= i < |body| ==> body[i] != '\n'
    requires inner <= e < |t| && e <= inner + |body| && t[e] == '\n'
    ensures e == inner + |body|
  {
    assert forall x :: inner <= x < inner + |body| ==> t[x] == body[x - inner];
  }

  // ---------------------------------------------------------------------------
  // sendMessageToAI
  // ---------------------------------------------------------------------------

  /** The user turn carrying the canvas and the request. */
  function ContextText(canvasJson: string, request: string): string {
    "This is the current workflow state on the canvas:\n```json\n" + canvasJson + "\n```\n\nUser Request: " + request
  }

  /** The messages sent: the instruction, the history, then the context turn. */
  function Request(instruction: string, messages: seq<Message>, canvasJson: string): seq<Turn>
    requires messages != []
  {
    [Turn(SystemRole, instruction)] + BuildHistory(messages)
      + [Turn(UserRole, ContextText(canvasJson, messages[|messages| - 1].text))]
  }

  /** The checks on the reply inside the `try`, with their own messages. */
  function Answer(choices: seq<Option<string>>, c: Codec): Result<Value> {
    if choices == [] then Err(NO_CHOICE)
    else if choices[0].None? || choices[0].value == "" then Err(EMPTY_REPLY)
    else
      var parsed :- c.parse(Extracted(choices[0].value));
      if !Truthy(parsed) || !Truthy(Prop(parsed, "intent")) || Prop(parsed, "payload").Undefined? then Err(BAD_SHAPE)
      else Ok(parsed)
  }

  /** `sendMessageToAI(allMessages, nodes, edges, apiKey, model)`. Errors raised in the
      `try` are rethrown with the API error's details or with the invalid-data
      prefix. */
  function SendMessageToAI(messages: seq<Message>, canvasJson: string, apiKey: string, model: string,
                           instruction: string, complete: (string, seq<Turn>, nat) -> Reply, c: Codec): (r: Result<Value>)
    ensures apiKey == "" ==> r == Err(KEY_MISSING)
    ensures r.Ok? ==> Truthy(r.value) && Truthy(Prop(r.value, "intent")) && !Prop(r.value, "payload").Undefined?
  {
    if apiKey == "" then Err(KEY_MISSING)
    else if messages == [] then Err(NO_LAST_MESSAGE)
    else
      match complete(model, Request(instruction, messages, canvasJson), MAX_TOKENS)
      case ApiError(status, name, message) => Err("OpenRouter API Error: " + status + " " + name + " - " + message)
      case Failed(message) => Err(INVALID_DATA + message)
      case Replied(choices) =>
        match Answer(choices, c)
        case Ok(v) => Ok(v)
        case Err(msg) => Err(INVALID_DATA + msg)
  }

  /** A missing key fails the same way whatever the model would have said: no call is
      made. */
  lemma MissingKeyBeforeCall(messages: seq<Message>, canvasJson: string, model: string, instruction: string,
                             complete1: (string, seq<Turn>, nat) -> Reply, complete2: (string, seq<Turn>, nat) -> Reply, c: Codec)
    ensures SendMessageToAI(messages, canvasJson, "", model, instruction, complete1, c)
         == SendMessageToAI(messages, canvasJson, "", model, instruction, complete2, c)
         == Err(KEY_MISSING)
  {
  }

  /** An empty or `null` reply is an error, reported with the invalid-data prefix. */
  lemma EmptyReplyFails(messages: seq<Message>, canvasJson: string, apiKey: string, model: string,
                        instruction: string, complete: (string, seq<Turn>, nat) -> Reply, c: Codec)
    requires apiKey != "" && messages != []
    requires var reply := complete(model, Request(instruction, messages, canvasJson), MAX_TOKENS);
      reply.Replied? && reply.choices != [] && (reply.choices[0].None? || reply.choices[0].value == "")
    ensures SendMessageToAI(messages, canvasJson, apiKey, model, instruction, complete, c) == Err(INVALID_DATA + EMPTY_REPLY)
  {
  }

  /** A reply accepted is what `JSON.parse` made of the extracted text. */
  lemma AcceptedReplyParsed(messages: seq<Message>, canvasJson: string, apiKey: string, model: string,
                            instruction: string, complete: (string, seq<Turn>, nat) -> Reply, c: Codec)
    requires SendMessageToAI(messages, canvasJson, apiKey, model, instruction, complete, c).Ok?
    ensures messages != []
    ensures var reply := complete(model, Request(instruction, messages, canvasJson), MAX_TOKENS);
      && reply.Replied? && reply.choices != [] && reply.choices[0].Some?
      && c.parse(Extracted(reply.choices[0].value))
         == SendMessageToAI(messages, canvasJson, apiKey, model, instruction, complete, c)
  {
  }

  /** The request sent with a new user prompt: the instruction, the conversation
      before the prompt, and the prompt with the canvas. */
  lemma RequestForPrompt(instruction: string, messages: seq<Message>, prompt: string, canvasJson: string)
    ensures Request(instruction, messages + [Message(User, prompt)], canvasJson)
      == [Turn(SystemRole, instruction)] + Turns(Conversation(messages)) + [Turn(UserRole, ContextText(canvasJson, prompt))]
  {
    HistoryBeforePrompt(messages, prompt);
  }
}
