# Gemini Flow workflow engine, modelled in Dafny

Gemini Flow is a browser-based visual workflow builder. A workflow is a list of
nodes and a list of edges. There are seven node types: Start, API request,
Gemini text, AI agent, If, Log output and Set data. Running a workflow walks the
graph breadth-first from the Start node. Each node resolves `{{input}}` and
`{{$node['Label'].output.path}}` templates against the outputs recorded so far.

This project models the engine and the logic it depends on, and proves what
they promise:

- the template resolver, `resolveExpressions` with its path lookup `get`
  (modules `Expressions`, `Text`, `Json`);
- the per-node dispatch of `executeNode` (`Executor`, and `Engine` for the
  method form);
- the run loop of `runWorkflow`, as a state machine (`Scheduler`) and as a
  method on the canvas (`Engine.Canvas`);
- the canvas list edits: delete, relabel, reconfigure, reset (`GraphEdits`);
- export, the import sanitisation and hydration, and the workflow document
  validator `isValidWorkflow` (`Transfer`, `Validator`);
- the tool-calling agent loop `runAgent` (`Agent`);
- the ancestor search `findAncestors` (`Ancestors`);
- the key/value editor's converters and row edits (`KeyValue`);
- the data picker's expression builder (`DataPicker`);
- the chat assistant's history shaping, reply extraction and reply checks
  (`Assistant`).

JavaScript values are the datatype `Json.Value`: undefined, null, booleans,
numbers as reals, strings, arrays, and objects as ordered entry lists.

Foreign functions are oracles passed in as parameters:
- `JSON.parse`, `JSON.stringify`, `String()`, `parseFloat` and `Number()` are the
  record `Json.Codec`;
- the HTTP request, the Gemini call and the chat-completion endpoints are
  function values.

Regular expressions are replaced by explicit matchers that return what the
JavaScript engine's backtracking search returns on code points (see "Left out"
for code units). This includes the quirk of the inline reference pattern: its
optional path group may not match empty, so a reference with an empty path runs
on to the next `}}` on its line. Two whole-output references on one line are
therefore one match, and the second is never replaced on its own
(`Expressions.AdjacentReferencesOneMatch`), although inline substitution is
described as replacing every occurrence. The model follows the code.

Where the source mutates state, the model does too:
- `get`, `runWorkflow`, `executeNode`, `runAgent` and `findAncestors` are
  methods with loops;
- the import sanitisation works in place on an `array`;
- the key/value editor and the data picker are classes whose methods update
  their fields.

Each method is proved equal to a specification function, and the properties
are proved about those functions.

## Model

| member | source | states |
|---|---|---|
| Workflow.FindById | App.tsx:375 | `nodes.find(n => n.id === id)`: `None` exactly when no node has the id, otherwise the first node that has it |
| Workflow.FindByLabel | services/expressionService.ts:68 | the first node whose label is the given one, `None` exactly when no node has it |
| Workflow.FindStart | App.tsx:336 | the first node of type Start, `None` exactly when there is none |
| Json.Prop | services/expressionService.ts:24 | reading a property: a key an object lacks and any key of a boolean or number read as `undefined` |
| Json.Field | services/expressionService.ts:24 | reading a property fails exactly on `null`/`undefined` (the `TypeError`), else is `Prop` |
| Json.Put | components/KeyValueEditor.tsx:45 | assigning an object property: an existing key keeps its place, a new key is appended |
| Json.PutFind | components/KeyValueEditor.tsx:45 | after an assignment the key reads as the new value and every other key as before |
| Json.ParseIndex | services/expressionService.ts:24 | a canonical array index: all digits, no leading zero, below 2^32 - 1 |
| Text.Trim | services/expressionService.ts:51 | `trim()`: the result neither starts nor ends with white space (the ECMAScript class) and is no longer than the input |
| Text.TrimStart | services/expressionService.ts:54 | the suffix after the longest all-space prefix |
| Text.TrimEnd | services/expressionService.ts:72 | the prefix before the longest all-space suffix |
| Text.TrimNonEmpty | services/expressionService.ts:7 | a string with a character that is not white space does not trim to empty |
| Text.IndexOf | services/expressionService.ts:54 | the first occurrence at or after `from`, and no occurrence before it |
| Text.FirstIndexOf | services/aiAssistantService.ts:122 | `indexOf(c)`: the first position holding `c`, none before it |
| Text.LastIndexOf | services/aiAssistantService.ts:123 | `lastIndexOf(c)`: the last position holding `c`, none after it |
| Text.LessAsymmetric | App.tsx:296-299 | string `<` (lexicographic on code points) never holds both ways |
| Expressions.PlainRun | services/expressionService.ts:14 | the longest prefix without `.`, `[` or `]`: the first alternative of the tokenizing pattern |
| Expressions.Segments | services/expressionService.ts:14 | every segment the tokenizer yields is non-empty |
| Expressions.MixedNotation | services/expressionService.ts:11-14 | the path `a.b['c.d'][0]`, for any such parts, gives the cleaned keys `a`, `b`, `c.d`, `0` |
| Expressions.MixedSegments | services/expressionService.ts:11-14 | the same path tokenizes into `a`, `b`, `['c.d']`, `[0]` |
| Expressions.CleanQuoted | services/expressionService.ts:23 | cleaning `['c']` gives `c` |
| Expressions.CleanIndex | services/expressionService.ts:23 | cleaning `[d]` gives `d` |
| Expressions.DottedPathRoundTrip | services/expressionService.ts:14-23 | the keys read back from a dotted path are the keys it was built from |
| Expressions.Walk | services/expressionService.ts:17-26 | the walk never yields `undefined` but as the default; a `null`/`undefined` intermediate yields the default |
| Expressions.GetPath | services/expressionService.ts:6-30 | `get` never yields `undefined` but as the default; a blank path returns the object itself when it is defined |
| Expressions.Get | services/expressionService.ts:6-30 | the loop over the segments computes `GetPath` |
| Expressions.DottedLookup | services/expressionService.ts:14-26 | a dotted path looks its keys up one after another |
| Expressions.WholeNodeRef | services/expressionService.ts:54 | a whole-string node reference starts with `{{`, ends with `}}`, and its label and path hold no line break |
| Expressions.Resolve | services/expressionService.ts:49 | a template that is not a string is returned unchanged; its string cases are stated by the lemmas below it |
| Expressions.WholeInputIsIdentity | services/expressionService.ts:57-62 | `{{ input }}`, with any white space inside and around, resolves to the input itself |
| Expressions.ResolveInputForm | services/expressionService.ts:57-62 | any template whose trim is the input form resolves to the input |
| Expressions.InputFormIsNoNodeRef | services/expressionService.ts:54-57 | the input form is never taken for a node reference |
| Expressions.WholeRefMissFailsSoft | services/expressionService.ts:65-71 | an unknown label, or a node with no output, gives back the original untrimmed template |
| Expressions.WholeRefHit | services/expressionService.ts:68-73 | a known label with an output resolves to `get(output, path, template)`, and to the output itself when the path is blank |
| Expressions.PlainTemplateResolvesToItself | services/expressionService.ts:77-91 | a template without `{` resolves to itself |
| Expressions.PlainTextUntouched | services/expressionService.ts:78-79 | neither inline replacement changes text without `{` |
| Expressions.InputTokenReplaced | services/expressionService.ts:78 | an inline `{{input}}` is replaced by the input's text and the rest is processed on |
| Expressions.CloseFrom | services/expressionService.ts:79 | the path group, taking one character or more, stops at a `}}` at or after the given point with no line terminator before it |
| Expressions.NodeRefAtHead | services/expressionService.ts:79 | a reference matched alone is one match of its full length, its raw path being its path; with an empty path this needs the text after it to hold no further `}}` on the line |
| Expressions.UnknownLabelLeftVerbatim | services/expressionService.ts:80-81 | an inline reference to an unknown label is left verbatim and the scan goes on after it |
| Expressions.NoOutputLeftVerbatim | services/expressionService.ts:82-83 | an inline reference to a node with no output yet is left verbatim |
| Expressions.UndefinedPathLeftVerbatim | services/expressionService.ts:84-87 | an inline reference whose path reads `undefined` in the node's output is left verbatim |
| Expressions.KnownLabelSpliced | services/expressionService.ts:80-90 | an inline reference whose path reads a defined value is replaced by `get(output, path)`, spliced as-is when a string and serialised otherwise; with an empty path, by the whole output |
| Expressions.AdjacentReferencesOneMatch | services/expressionService.ts:79-81 | two references to whole outputs on one line are one match whose path spans from the first `}}` to the second reference's `.output`; the second is never resolved on its own, and an unknown first label leaves the text verbatim |
| Expressions.RefMatchStep | services/expressionService.ts:79 | a reference matched at the head is replaced and the scan resumes right after it |
| Expressions.LabelEndsAtMarker | services/expressionService.ts:79 | the lazy label group ends at the first `'].output` |
| Executor.Compare | App.tsx:290-302 | `===`/`!==` are strict (in)equality; `>`, `<`, `>=`, `<=` compare the two `parseFloat` numbers when both parse, and the two `String` forms in string order otherwise; the error case is exactly an operator outside the six |
| Executor.OrderingOperators | App.tsx:296-299 | whether the values compare as numbers or as strings, `>` and `<=` are `<` and `>=` with the operands swapped, `>=` is not `<`, and `<` and `>` never both hold |
| Executor.BodyText | App.tsx:243-246 | a string body is sent as-is, any other defined body serialised |
| Executor.Headers | App.tsx:248-262 | string headers are parsed (a parse error prefixed), an object is used as-is, anything else is an error |
| Executor.StartOutput | App.tsx:226-236 | Start outputs `{}` for empty `outputData`, the parsed value when it parses, and the fixed error when it does not |
| Executor.LogOutputIsIdentity | App.tsx:303-306 | Log output's output is its input |
| Executor.UnknownTypeFails | App.tsx:320-321 | an unknown type fails with `Unknown node type: ` and the type |
| Executor.IfOutputsBoolean | App.tsx:285-302 | an If node outputs a boolean, and fails exactly on an unknown operator |
| Executor.NullishConfigFails | App.tsx:227-309 | a node whose config is missing fails |
| Executor.AgentNeedsKey | App.tsx:274-277 | an agent node without a key fails with the fixed message |
| Engine.Switch | App.tsx:225-322 | the switch computes the dispatch function's result |
| Engine.StartCase | App.tsx:226-236 | the Start branch as statements computes the Start output |
| Engine.ApiRequestCase | App.tsx:237-265 | the API request branch: URL, body only for POST/PUT/PATCH, headers, then the request |
| Engine.GeminiTextCase | App.tsx:266-273 | the Gemini branch: a missing prompt fails, else the generated text |
| Engine.AgentCase | App.tsx:274-284 | the agent branch: key check, goal check, then the agent run |
| Engine.IfCase | App.tsx:285-302 | the If branch computes the comparison |
| Engine.SetDataCase | App.tsx:307-319 | the Set data branch: a string is parsed (fixed error if it does not), anything else is kept |
| Engine.Canvas.ExecuteNode | App.tsx:220-330 | returns the dispatch result; the node is marked running with its input, then success with the output or error with the message; other nodes and all edges are unchanged |
| Engine.Canvas.RunWorkflow | App.tsx:332-386 | the loop leaves the canvas nodes and edges exactly as the run specification `Execution` does |
| Scheduler.NextEdges | App.tsx:359-365 | the followed edges are exactly the node's outgoing edges, restricted after an If node to the handle `String(output)` |
| Scheduler.IfBranch | App.tsx:360-362 | after an If node only edges with the matching handle are followed, and none when no edge matches |
| Scheduler.Targets | App.tsx:374-377 | the queued items carry the node's output and name existing nodes only |
| Scheduler.TargetsAppend | App.tsx:374-377 | targets are taken edge by edge, in edge-list order |
| Scheduler.TargetsOfOne | App.tsx:375-376 | an edge whose target matches no node queues nothing |
| Scheduler.TargetsCover | App.tsx:374-379 | every followed edge to an existing node queues that node |
| Scheduler.MarkRunning | App.tsx:221 | only the node with the id changes: it is running with its input |
| Scheduler.Settle | App.tsx:323-327 | only the node with the id changes: success with the output, or error with the message |
| Scheduler.Activate | App.tsx:367-372 | exactly the edges whose id is among the followed edges are marked, nothing else changes |
| Scheduler.Initial | App.tsx:334-345 | the run starts from the reset canvas with the Start node alone in the queue |
| Scheduler.InitialConsistent | App.tsx:343-345 | the starting state satisfies the run invariant and leaves nothing behind |
| Scheduler.SkipsExecuted | App.tsx:350 | an item whose node already ran is dropped and changes nothing else |
| Scheduler.StepSucceeds | App.tsx:355-379 | a success records the output, marks the node executed, appends the targets to the back of the queue and marks the followed edges |
| Scheduler.StepFails | App.tsx:380-383 | a failure records the message and marks the node as errored, and nothing is queued or executed |
| Scheduler.FailKeeps | App.tsx:325-328 | a failing step keeps the invariant and records the executor's message |
| Scheduler.SkipKeeps | App.tsx:350 | a skipped item keeps the invariant and the closure |
| Scheduler.SucceedNodes | App.tsx:356-357 | after a success no node has run twice, outputs are recorded exactly for executed nodes, and the canvas shows each node's state |
| Scheduler.SucceedEdges | App.tsx:367-372 | only edges leaving executed nodes are ever marked, and edges change in nothing else |
| Scheduler.SucceedClosed | App.tsx:374-379 | after a success every followed edge leads to an executed or queued node |
| Scheduler.StepProgress | App.tsx:348-350 | each step either shortens the queue or executes a new node of the graph: the loop terminates |
| Scheduler.RunKeeps | App.tsx:348-384 | the run keeps its invariant, and when no node failed it ends with an empty queue and nothing left behind |
| Scheduler.RunExtends | App.tsx:348-384 | the trace of executed nodes only grows |
| Scheduler.NoStartNoRun | App.tsx:336-341 | without a Start node nothing runs and the canvas is only reset |
| Scheduler.StartRunsFirst | App.tsx:343 | with a Start node, the first node run is the first Start node |
| Scheduler.ExecutionEnds | App.tsx:348-384 | the whole run satisfies the invariant; without failure the queue is empty and nothing is left behind |
| Scheduler.FailureIsLast | App.tsx:380-383 | after a failure the failed node is the last one run, not marked executed, and shown as an error with the message |
| Scheduler.RanOrReset | App.tsx:215-218 | an executed node shows success with its recorded output; a node never reached is shown reset |
| Scheduler.CompleteWithoutFailure | App.tsx:359-379 | in a run without failure every followed edge out of a run node leads to a run node |
| GraphEdits.DeleteNode | App.tsx:158-169 | Start is refused; otherwise exactly that node and every edge touching it are removed, with all else kept (as multisets) |
| GraphEdits.UpdateConfig | App.tsx:131-140 | only the node with the id gets the new config |
| GraphEdits.UpdateLabel | App.tsx:142-156 | only the node with the id gets the label, unless it is a Start node |
| GraphEdits.UpdateLabelKeepsIds | App.tsx:142-156 | relabelling keeps the ids and the Start node |
| GraphEdits.ResetNode | App.tsx:216 | status idle, output and error cleared, everything else kept |
| GraphEdits.Reset | App.tsx:216 | every node is reset |
| GraphEdits.ResetEdges | App.tsx:217 | every edge is un-animated |
| GraphEdits.ResetIdempotent | App.tsx:215-218 | resetting twice is resetting once |
| Transfer.ExportNodes | App.tsx:454-464 | one exported object per node, in order |
| Transfer.ExportEdges | App.tsx:465 | one exported object per edge, in order |
| Transfer.ExportNodeReads | App.tsx:455-463 | an exported node reads back its id, type, position and data |
| Transfer.DataReads | App.tsx:457-461 | the exported data keeps type, label and config |
| Transfer.ExportReads | App.tsx:453-466 | the document's `nodes` and `edges` are the exported lists |
| Transfer.SetProp | App.tsx:489-496 | a property assignment succeeds exactly on an object-like value |
| Transfer.SetPropReads | App.tsx:489-496 | after assigning, the key reads the new value and the other keys are unchanged |
| Transfer.TryMap | App.tsx:487-498 | the `forEach` succeeds exactly when every node is sanitised, giving each node's result in order |
| Transfer.ForEachInPlace | App.tsx:487-498 | the in-place loop leaves the array as the sanitised list, or stops at the first failure with the prefix done and the rest untouched |
| Transfer.SanitiseInPlace | App.tsx:486-498 | the in-place sanitisation stores each node's sanitised value, or reports the first failure |
| Transfer.FixPositionClean | App.tsx:488-490 | a sanitised position has numeric `x` and `y` |
| Transfer.PlaceNodeReads | App.tsx:488-493 | a placed node has a numeric position and keeps its data |
| Transfer.SanitisedIsClean | App.tsx:487-498 | a sanitised node is clean |
| Transfer.SanitiseFails | App.tsx:487-498 | sanitising fails exactly on a node that is not an object, or whose position or data is a primitive |
| Transfer.SanitiseIdempotent | App.tsx:487-498 | sanitising twice is sanitising once |
| Transfer.CleanUnchanged | App.tsx:487-498 | a clean node is left as it is |
| Transfer.HydrateNode | App.tsx:502-511 | a hydrated node is idle, with no input, output or error |
| Transfer.HydrateNodes | App.tsx:502-511 | one hydrated node per document node, in order |
| Transfer.HydratedEdgesJoin | App.tsx:501-514 | hydrated edges join hydrated nodes |
| Transfer.ImportIntegrity | App.tsx:484-519 | an imported workflow has idle nodes and every edge joins two of its nodes |
| Transfer.ExportedNode | App.tsx:452-466 | an exported node is clean, valid, and hydrates back to the node with its runtime state cleared |
| Transfer.ExportedEdge | App.tsx:465 | an exported edge has string fields and hydrates back to the edge |
| Transfer.ExportSanitised | App.tsx:486-498 | sanitising an exported document changes nothing |
| Transfer.ExportValidity | App.tsx:452-466 | an exported document is valid exactly when every edge joins two existing nodes |
| Transfer.ExportNeverThrows | App.tsx:452-466 | the validator never throws on an exported document |
| Transfer.ExportHydrated | App.tsx:501-514 | a valid exported document hydrates to the nodes with runtime state cleared, and the same edges |
| Transfer.RoundTrip | App.tsx:452-519 | export then import gives back the nodes, with runtime state cleared, and the edges, when the edges join existing nodes |
| Transfer.DanglingEdgeRejected | App.tsx:501-518 | an exported workflow with a dangling edge is rejected on import with the fixed message |
| Validator.NodeIdSet | services/workflowGeneratorService.ts:7 | the id set is built exactly when no node is `null`/`undefined` |
| Validator.EdgesCheck | services/workflowGeneratorService.ts:29-40 | the edge loop throws only on a `null`/`undefined` edge |
| Validator.EdgesCheckTrue | services/workflowGeneratorService.ts:29-40 | the edge loop accepts exactly when every edge has string fields and endpoints among the ids |
| Validator.ValidIffWellFormed | services/workflowGeneratorService.ts:3-43 | `true` exactly when the document is well formed: object, array lists, every node and edge check passing |
| Validator.ValidDecides | services/workflowGeneratorService.ts:3-43 | when it does not throw, the validator answers the well-formedness question |
| Validator.ShapeRejected | services/workflowGeneratorService.ts:4-5 | a non-object, or a document without array `nodes` and `edges`, is rejected |
| Validator.NeverThrows | services/workflowGeneratorService.ts:7-40 | with no `null`/`undefined` node or edge the validator does not throw |
| Validator.NullNodeThrows | services/workflowGeneratorService.ts:7 | a `null` node makes the id set throw |
| Validator.ValidEdgesReferToNodes | services/workflowGeneratorService.ts:34-42 | in a valid document every edge's source and target are node ids |
| Validator.EmptyIsValid | services/workflowGeneratorService.ts:3-43 | empty node and edge lists are valid |
| Agent.RequestOf | services/aiAgentService.ts:84-105 | method defaults to `GET`, unparseable headers become `undefined`, a non-string body is serialised; fails exactly on `null`/`undefined` arguments |
| Agent.ToolFailureReported | services/aiAgentService.ts:108-111 | bad arguments or a failed request give a tool message starting with the fixed error text |
| Agent.ToolResponseText | services/aiAgentService.ts:100-107 | a response is given back as-is when a string, else serialised |
| Agent.ApiCallsMembers | services/aiAgentService.ts:81 | only calls naming `make_api_request` are run |
| Agent.ToolMessages | services/aiAgentService.ts:79-118 | one tool message per HTTP tool call, in order, tagged with the call's id |
| Agent.FinalText | services/aiAgentService.ts:122 | the reply's content, or the fixed text when it is empty or missing |
| Agent.Rounds | services/aiAgentService.ts:66-124 | the chat endpoint is called at most five times and the history only grows |
| Agent.Run | services/aiAgentService.ts:60-126 | at most five calls, and the history starts with the system prompt and the goal |
| Agent.FinalAnswerAtOnce | services/aiAgentService.ts:120-122 | a first reply without tool calls ends the loop after one call with its content |
| Agent.MaxIterationsReached | services/aiAgentService.ts:126 | when every reply asks for tools, five calls are made and the fixed text is returned |
| Agent.ToolRoundAppends | services/aiAgentService.ts:77-119 | a tool-using round appends the reply, then one tool message per HTTP call, and goes on |
| Agent.ChatFailureAborts | services/aiAgentService.ts:67-72 | a failing chat call ends the loop with its error |
| Agent.RunAgent | services/aiAgentService.ts:48-127 | the loop computes the agent run: result, history and number of calls |
| Agent.RunTools | services/aiAgentService.ts:79-119 | the inner loop appends exactly the tool messages |
| Ancestors.FindAncestors | utils/workflowUtils.ts:11-34 | returns nodes of the list, no id twice, exactly those with a path to the start; the start itself only on a cycle; each id expanded at most once |
| Ancestors.OuterDone | utils/workflowUtils.ts:16-31 | when the queue is empty the found ids are exactly the ancestors |
| Ancestors.ChainFound | utils/workflowUtils.ts:23-30 | every node on a path into a visited node has been found |
| Ancestors.ParentReaches | utils/workflowUtils.ts:23-28 | a parent of the start or of a found node reaches the start |
| KeyValue.JsonToKeyValue | components/KeyValueEditor.tsx:26-39 | `[]` for invalid JSON and non-objects, empty text read as `{}`; otherwise one pair per entry, in order, with its key, string values kept and any other value JSON-serialised |
| KeyValue.LoadedPair | components/KeyValueEditor.tsx:32-35 | each loaded pair has the entry's key, and its text stores back as the entry's value |
| KeyValue.KeyValueToJson | components/KeyValueEditor.tsx:41-53 | the reduce loop emits the serialised fold of the pairs |
| KeyValue.CollectLaterWins | components/KeyValueEditor.tsx:42-51 | a key holds the stored value of the last pair with that trimmed key |
| KeyValue.CollectAbsent | components/KeyValueEditor.tsx:43 | an empty key or one no pair has after trimming is absent |
| KeyValue.KeyValueRoundTrip | components/KeyValueEditor.tsx:26-53 | loading an object with distinct trimmed keys and storing the pairs again gives an object with the same key lookups |
| KeyValue.StringValueReparsed | components/KeyValueEditor.tsx:34-45 | a string value that itself parses comes back as the parsed value, not the string |
| KeyValue.UpdateRows | components/KeyValueEditor.tsx:74 | ids kept; rows with another id unchanged; the named field set and the other field kept |
| KeyValue.RemoveRows | components/KeyValueEditor.tsx:87 | the rows kept are exactly those with another id |
| KeyValue.Simplified | components/KeyValueEditor.tsx:69 | the rows' keys and values, in order |
| KeyValue.StampedRows | components/KeyValueEditor.tsx:64 | the stamped rows have distinct ids and carry the pairs |
| KeyValue.UpdateLastWins | components/KeyValueEditor.tsx:73-77 | two updates of the same field: the last wins |
| KeyValue.UpdateKeepsIds | components/KeyValueEditor.tsx:73-77 | updating keeps the set of ids |
| KeyValue.AddAddsId | components/KeyValueEditor.tsx:79-84 | adding adds the new id |
| KeyValue.RemoveDropsId | components/KeyValueEditor.tsx:86-90 | removing drops exactly that id |
| KeyValue.RemoveUndoesAdd | components/KeyValueEditor.tsx:79-90 | removing a freshly added row gives back the rows |
| KeyValue.AddedRowIsBlank | components/KeyValueEditor.tsx:79-84 | an added blank row does not change the emitted object |
| KeyValue.Editor.HandleUpdate | components/KeyValueEditor.tsx:73-77 | rows become the update, and the emitted text is the serialised object of the new rows |
| KeyValue.Editor.HandleAdd | components/KeyValueEditor.tsx:79-84 | a blank row is appended, and the emitted object is the one before |
| KeyValue.Editor.HandleRemove | components/KeyValueEditor.tsx:86-90 | the row is removed, and the new rows' object is emitted |
| KeyValue.Editor.Sync | components/KeyValueEditor.tsx:58-66 | unparseable text is an error with the rows kept; rows kept when they already show the text, otherwise reloaded with fresh ids |
| DataPicker.Picker.HandleInsert | components/DataPickerModal.tsx:17-40 | no node selected: error, state kept; otherwise the expression for its label and the path, and both fields reset |
| DataPicker.ExpressionParses | components/DataPickerModal.tsx:25-33 | the resolver reads the expression as a whole-string reference to the label with the suffix as path |
| DataPicker.TypedPathRead | components/DataPickerModal.tsx:26-32 | the resolver's path is the typed path |
| DataPicker.ExpressionResolves | components/DataPickerModal.tsx:25-33 | the expression resolves to `get(output, path)` of the labelled node |
| DataPicker.BlankPathGivesOutput | components/DataPickerModal.tsx:26 | with a blank path the expression resolves to the node's whole output |
| DataPicker.InsertedExpressionReadsPickedNode | components/DataPickerModal.tsx:17-40 | the inserted expression reads the picked node's output along the typed path |
| Assistant.BuildHistory | services/aiAssistantService.ts:63-72 | one turn per user/AI message but the last, none of them a system turn |
| Assistant.Turns | services/aiAssistantService.ts:68-71 | each message becomes a turn with its text, `user` for the user and `assistant` for the AI |
| Assistant.HistoryBeforePrompt | services/aiAssistantService.ts:63-72 | sent with a new prompt, the history is every earlier user and AI message, in order |
| Assistant.SystemMessagesDropped | services/aiAssistantService.ts:65 | system messages never reach the history |
| Assistant.MatchIff | services/aiAssistantService.ts:116 | the deterministic matcher's match is exactly the regular expression's |
| Assistant.FirstClose | services/aiAssistantService.ts:116 | the lazy group ends at the first place the closing fence can follow |
| Assistant.TryOpensSpec | services/aiAssistantService.ts:116 | the group start found is the highest the greedy run allows, with the nearest end |
| Assistant.MatchFromFound | services/aiAssistantService.ts:116-117 | the match found is a match, with no later group start and no earlier group end |
| Assistant.MatchFromFirst | services/aiAssistantService.ts:116-117 | no match starts before the one found |
| Assistant.ExtractJson | services/aiAssistantService.ts:109-127 | the reassignments of `text` compute the extracted text |
| Assistant.BracedStripsChatter | services/aiAssistantService.ts:120-127 | chatter around an object is dropped |
| Assistant.BracedKeeps | services/aiAssistantService.ts:124 | without a `{` before a `}` the text is unchanged |
| Assistant.FencedReply | services/aiAssistantService.ts:116-119 | a reply with a fenced block yields just the block's body |
| Assistant.SendMessageToAI | services/aiAssistantService.ts:75-143 | a missing key is the fixed error; an accepted reply is truthy with a truthy `intent` and a defined `payload` |
| Assistant.MissingKeyBeforeCall | services/aiAssistantService.ts:82-84 | without a key the result is the same error whatever the model would answer |
| Assistant.EmptyReplyFails | services/aiAssistantService.ts:109-113 | an empty or `null` reply is the empty-response error, with the invalid-data prefix |
| Assistant.AcceptedReplyParsed | services/aiAssistantService.ts:109-135 | an accepted reply is what `JSON.parse` made of the extracted text |
| Assistant.RequestForPrompt | services/aiAssistantService.ts:96-107 | the request is the instruction, the earlier conversation, then the prompt with the canvas |

## Left out

- Rendering, React wiring, the JSX of `App.tsx`, and the UI components are not modelled: they only display state.
- `alert`, `console` logging, `localStorage`, the download anchor and `FileReader` are left out. A failure that the source reports with `alert` is an `Err` value or a refused edit.
- The 100 ms delay and `async`/`await` are left out. Execution is sequential.
- `JSON.parse`, `JSON.stringify` (compact and pretty), `String()`, `parseFloat` and `Number()` are oracles in `Json.Codec`. Their exact text formats are not modelled.
- Floating point: numbers are reals, and `NaN` is not a value. The If comparison takes "parses as a number" from the `parseFloat` oracle.
- Object identity: `===` on objects and arrays is an oracle (`sameObject`), because values carry no identity.
- `Json.Put`: JavaScript's ordering of integer-like keys ahead of other keys and the special `__proto__` key are not modelled. Keys keep insertion order.
- `Transfer.SetProp`: values hold no named properties on arrays. Assigning one to an array gives an object holding only that property, and sanitisation goes on with it; JavaScript keeps the array and its elements and adds the property.
- `Text.LessAsymmetric`: strings are sequences of Unicode code points, so `Text.Less` orders by code point. JavaScript orders by UTF-16 code unit; the two differ when a character above U+FFFF meets one from U+E000 to U+FFFF. Likewise the pattern `.` matches one code point here and one code unit in JavaScript; the text a match captures is the same, since neither half of a surrogate pair is a line terminator.
- `Json.Prop`: properties inherited from a prototype (`constructor`, `toString`, ...) read as `undefined`. In JavaScript they read as functions, so a path through such a key resolves differently.
- `GraphEdits.ResetEdges`: the edge `style` reset is not modelled; only `animated` is.
- `Scheduler.Activate`: the stroke colour and width set on followed edges are not modelled; only `animated` is.
- The HTTP request, the Gemini call and both chat endpoints are oracles: function values of their inputs. The agent's chat oracle answers from the history, so replies are not a fixed input sequence.
- `Agent.Message`: the system prompt text and the tool schema are not reproduced. They only matter to the chat oracle.
- `Assistant.SendMessageToAI`: the system instruction and the pretty-printed canvas JSON are parameters. The shape check is modelled, not the later intent/payload type check in `handleSendMessage`.
- `Assistant.Reply`: the `status`, `name` and `message` of an API error are taken as text.
- `Ancestors.FindAncestors`: the result is proved to be exactly the set of ancestors, with no duplicates. Its breadth-first order is not stated.
- `KeyValue.Editor.Sync`: `Date.now()` ids are a parameter `now`. `KeyValue.Editor.HandleAdd` takes the new id as a parameter.
- The `Date.now()` and random ids and positions of `addNode` are not part of this model.
- `DataPicker.Picker.HandleInsert`: `onSelect` and `onClose` are left out; the expression is returned instead.
- `DataPicker.InsertedExpressionReadsPickedNode` requires the picked label to be unique in the resolver's nodes. The picker finds nodes by id, but the resolver looks them up by label.
- The `handleSendMessage` hydration of assistant workflows (`App.tsx:403-437`) is not part of this model. The import path's sanitisation and hydration are.
