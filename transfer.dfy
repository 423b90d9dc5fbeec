/** Saving a workflow to a file and loading one back: the export keeps each node's id,
    type, position and the non-runtime part of its data; the import parses the file,
    repairs positions and configs in place, validates the document and resets every
    node's runtime state. */
module Transfer {
  import opened Wrappers
  import opened Json
  import opened Workflow
  import opened GraphEdits
  import opened Validator

  const INVALID_FORMAT := "Invalid workflow file format."

  // ---------------------------------------------------------------------------
  // Export
  // ---------------------------------------------------------------------------

  /** `{ id, type, position, data }` with `status`, `input`, `error` and `output`
      deleted from the copy of `data`. */
  function ExportNode(n: Node): Value {
    Obj([Entry("id", Str(n.id)),
         Entry("type", Str(n.kind)),
         Entry("position", PositionValue(n.position)),
         Entry("data", DataValue(n.data))])
  }

  function PositionValue(p: Position): Value {
    Obj([Entry("x", Num(p.x)), Entry("y", Num(p.y))])
  }

  function DataValue(d: NodeData): Value {
    Obj([Entry("nodeType", Str(d.nodeType)), Entry("label", Str(d.nodeLabel)), Entry("config", d.config)])
  }

  /** An edge is written as it is; a missing handle is `null`. */
  function ExportEdge(e: Edge): Value {
    Obj([Entry("id", Str(e.id)),
         Entry("source", Str(e.source)),
         Entry("target", Str(e.target)),
         Entry("sourceHandle", match e.sourceHandle case Some(h) => Str(h) case None => Null),
         Entry("animated", Bool(e.animated))])
  }

  function ExportNodes(nodes: seq<Node>): (r: seq<Value>)
    ensures |r| == |nodes| && forall k :: 0 <= k < |r| ==> r[k] == ExportNode(nodes[k])
  {
    seq(|nodes|, k requires 0 <= k < |nodes| => ExportNode(nodes[k]))
  }

  function ExportEdges(edges: seq<Edge>): (r: seq<Value>)
    ensures |r| == |edges| && forall k :: 0 <= k < |r| ==> r[k] == ExportEdge(edges[k])
  {
    seq(|edges|, k requires 0 <= k < |edges| => ExportEdge(edges[k]))
  }

  /** The document `handleExportWorkflow` serialises. */
  function Export(nodes: seq<Node>, edges: seq<Edge>): Value {
    Obj([Entry("nodes", Arr(ExportNodes(nodes))), Entry("edges", Arr(ExportEdges(edges)))])
  }

  // ---------------------------------------------------------------------------
  // Sanitising a parsed document
  // ---------------------------------------------------------------------------

  predicate Primitive(v: Value) {
    v.Bool? || v.Num? || v.Str?
  }

  /** `typeof v` for a primitive. */
  function TypeName(v: Value): string
    requires Primitive(v)
  {
    if v.Bool? then "boolean" else if v.Num? then "number" else "string"
  }

  /** `v[key] = val` in strict mode. Objects gain or replace the property. An array
      holds no named properties here: it becomes an object holding only the properties
      set on it, so its elements are dropped. Primitives and `null` / `undefined` throw
      V8's `TypeError`. */
  function SetProp(c: Codec, v: Value, key: string, val: Value): (r: Result<Value>)
    ensures r.Ok? <==> IsObjectLike(v)
    ensures r.Ok? ==> r.value.Obj?
  {
    match v
    case Obj(entries) => Ok(Obj(Put(entries, key, val)))
    case Arr(_) => Ok(Obj([Entry(key, val)]))
    case Null => Err("Cannot set properties of null (setting '" + key + "')")
    case Undefined => Err("Cannot set properties of undefined (setting '" + key + "')")
    case _ => Err("Cannot create property '" + key + "' on " + TypeName(v) + " '" + ToText(c, v) + "'")
  }

  /** The value set is what reading the property gives, and on an object every other
      property reads as before. */
  lemma SetPropReads(c: Codec, v: Value, key: string, val: Value, k: string)
    requires SetProp(c, v, key, val).Ok?
    ensures Prop(SetProp(c, v, key, val).value, key) == val
    ensures v.Obj? && k != key ==> Prop(SetProp(c, v, key, val).value, k) == Prop(v, k)
  {
    if v.Obj? {
      PutFind(v.entries, key, val, key);
      PutFind(v.entries, key, val, k);
    } else {
      FindCons(Entry(key, val), [], key);
    }
  }

  /** `position.x = Number(position.x) || 0`, then the same for `y`, on a truthy
      position. */
  function FixPosition(c: Codec, pos: Value): Result<Value>
    requires Truthy(pos)
  {
    var withX :- SetProp(c, pos, "x", Num(NumberOrZero(c, Prop(pos, "x"))));
    SetProp(c, withX, "y", Num(NumberOrZero(c, Prop(withX, "y"))))
  }

  /** The `if (node.position) ... else node.position = { x: 50, y: 50 }` step. */
  function PlaceNode(c: Codec, node: Value): Result<Value>
  {
    var pos :- Field(node, "position");
    if Truthy(pos) then
      var fixed :- FixPosition(c, pos);
      SetProp(c, node, "position", fixed)
    else SetProp(c, node, "position", Obj([Entry("x", Num(50.0)), Entry("y", Num(50.0))]))
  }

  /** The body of the `forEach` over the imported nodes: the position step, then
      `node.data.config = {}` when `data` is truthy and its `config` is not an object. */
  function SanitiseNode(c: Codec, node: Value): Result<Value>
  {
    var placed :- PlaceNode(c, node);
    var data := Prop(placed, "data");
    if Truthy(data) && (!Truthy(Prop(data, "config")) || !IsObjectLike(Prop(data, "config"))) then
      var repaired :- SetProp(c, data, "config", Obj([]));
      SetProp(c, placed, "data", repaired)
    else Ok(placed)
  }

  function Sanitiser(c: Codec): Value -> Result<Value> {
    v => SanitiseNode(c, v)
  }

  /** A `forEach` whose step may throw, each element replaced by what the step makes
      of it: the first element whose step throws stops it with that error. */
  function TryMap(f: Value -> Result<Value>, s: seq<Value>): (r: Result<seq<Value>>)
    ensures r.Ok? <==> forall k :: 0 <= k < |s| ==> f(s[k]).Ok?
    ensures r.Ok? ==> |r.value| == |s| && forall k :: 0 <= k < |s| ==> f(s[k]) == Ok(r.value[k])
  {
    if s == [] then Ok([])
    else
      assert forall k :: 1 <= k < |s| ==> s[k] == s[1..][k - 1];
      var first :- f(s[0]);
      var rest :- TryMap(f, s[1..]);
      Ok([first] + rest)
  }

  /** The guard `workflow && Array.isArray(workflow.nodes)` and the `forEach` under it.
      Only an object can have a `nodes` array, so the guard holds exactly for objects
      whose `nodes` is an array. */
  function Sanitise(c: Codec, doc: Value): Result<Value>
  {
    if doc.Obj? && Prop(doc, "nodes").Arr? then
      var nodes :- TryMap(Sanitiser(c), Prop(doc, "nodes").items);
      Ok(Obj(Put(doc.entries, "nodes", Arr(nodes))))
    else Ok(doc)
  }

  /** The `forEach` as it runs: each node is replaced by what the step makes of it in
      turn, and the first one whose step throws stops the loop with that message, the
      nodes before it replaced and the rest untouched. */
  method ForEachInPlace(f: Value -> Result<Value>, a: array<Value>) returns (error: Option<string>)
    modifies a
    ensures TryMap(f, old(a[..])).Ok? ==> error.None? && a[..] == TryMap(f, old(a[..])).value
    ensures TryMap(f, old(a[..])).Err? ==> error == Some(TryMap(f, old(a[..])).msg)
    ensures error.Some? ==> exists i :: 0 <= i < a.Length && a[i..] == old(a[i..]) && TryMap(f, old(a[..i])) == Ok(a[..i])
  {
    var i := 0;
    while i < a.Length
      invariant 0 <= i <= a.Length
      invariant forall k :: i <= k < a.Length ==> a[k] == old(a[k])
      invariant TryMap(f, old(a[..i])) == Ok(a[..i])
    {
      var r := f(a[i]);
      if r.Err? {
        FailAt(f, old(a[..]), i, a[..i]);
        assert a[i..] == old(a[i..]);
        return Some(r.msg);
      }
      TryMapSnoc(f, old(a[..i]), a[..i], old(a[i]), r.value);
      assert old(a[..i + 1]) == old(a[..i]) + [old(a[i])];
      a[i] := r.value;
      assert a[..i + 1] == a[..i] + [r.value];
      i := i + 1;
    }
    assert old(a[..i]) == old(a[..]);
    return None;
  }

  /** The sanitising `forEach` over the array of parsed nodes: it ends as the
      `Sanitise` of the document says. */
  method SanitiseInPlace(c: Codec, a: array<Value>) returns (error: Option<string>)
    modifies a
    ensures TryMap(Sanitiser(c), old(a[..])).Ok? ==> error.None? && a[..] == TryMap(Sanitiser(c), old(a[..])).value
    ensures TryMap(Sanitiser(c), old(a[..])).Err? ==> error == Some(TryMap(Sanitiser(c), old(a[..])).msg)
  {
    error := ForEachInPlace(Sanitiser(c), a);
  }

  /** Mapping one more element. */
  lemma {:induction false} TryMapSnoc(f: Value -> Result<Value>, s: seq<Value>, done: seq<Value>, x: Value, y: Value)
    requires TryMap(f, s) == Ok(done) && f(x) == Ok(y)
    ensures TryMap(f, s + [x]) == Ok(done + [y])
  {
    var r := TryMap(f, s + [x]);
    assert forall k :: 0 <= k < |s| ==> (s + [x])[k] == s[k];
    assert r.Ok?;
    assert r.value == done + [y];
  }

  /** When every element before `i` maps and element `i` throws, the whole map throws
      with element `i`'s error. */
  lemma {:induction false} FailAt(f: Value -> Result<Value>, s: seq<Value>, i: nat, done: seq<Value>)
    requires i < |s| && TryMap(f, s[..i]) == Ok(done) && f(s[i]).Err?
    ensures TryMap(f, s) == Err(f(s[i]).msg)
  {
    if i > 0 {
      assert s[..i][0] == s[0];
      assert s[1..][..i - 1] == s[..i][1..];
      FailAt(f, s[1..], i - 1, done[1..]);
    }
  }

  // ---------------------------------------------------------------------------
  // Properties of sanitising
  // ---------------------------------------------------------------------------

  /** What sanitising guarantees of a node: an object whose position is an object with
      numeric `x` and `y`, and whose truthy `data` carries an object `config`. */
  predicate Clean(n: Value) {
    && n.Obj?
    && var pos := Prop(n, "position");
       var data := Prop(n, "data");
       && pos.Obj? && Prop(pos, "x").Num? && Prop(pos, "y").Num?
       && (Truthy(data) ==> IsObjectLike(Prop(data, "config")))
  }

  /** A position step that succeeds leaves an object with numeric coordinates. */
  lemma FixPositionClean(c: Codec, pos: Value)
    requires Truthy(pos) && FixPosition(c, pos).Ok?
    ensures var p := FixPosition(c, pos).value;
      p.Obj? && Prop(p, "x").Num? && Prop(p, "y").Num?
  {
    var withX := SetProp(c, pos, "x", Num(NumberOrZero(c, Prop(pos, "x")))).value;
    var y := Num(NumberOrZero(c, Prop(withX, "y")));
    SetPropReads(c, pos, "x", Num(NumberOrZero(c, Prop(pos, "x"))), "x");
    SetPropReads(c, withX, "y", y, "x");
    SetPropReads(c, withX, "y", y, "y");
  }

  /** The position step leaves `data` as it was, and a clean position. */
  lemma PlaceNodeReads(c: Codec, node: Value)
    requires PlaceNode(c, node).Ok?
    ensures var placed := PlaceNode(c, node).value;
      && placed.Obj?
      && var pos := Prop(placed, "position");
         pos.Obj? && Prop(pos, "x").Num? && Prop(pos, "y").Num?
    ensures node.Obj? ==> Prop(PlaceNode(c, node).value, "data") == Prop(node, "data")
    ensures node.Arr? ==> Prop(PlaceNode(c, node).value, "data") == Undefined
  {
    var pos := Prop(node, "position");
    if Truthy(pos) {
      FixPositionClean(c, pos);
      SetPropReads(c, node, "position", FixPosition(c, pos).value, "data");
    } else {
      var home := Obj([Entry("x", Num(50.0)), Entry("y", Num(50.0))]);
      FindCons(Entry("x", Num(50.0)), [Entry("y", Num(50.0))], "x");
      FindCons(Entry("x", Num(50.0)), [Entry("y", Num(50.0))], "y");
      FindCons(Entry("y", Num(50.0)), [], "y");
      SetPropReads(c, node, "position", home, "data");
      if node.Arr? {
        assert Find([Entry("position", home)], "data") == Find([], "data");
      }
    }
  }

  /** Every node that survives sanitising is clean. */
  lemma SanitisedIsClean(c: Codec, node: Value)
    requires SanitiseNode(c, node).Ok?
    ensures Clean(SanitiseNode(c, node).value)
  {
    PlaceNodeReads(c, node);
    var placed := PlaceNode(c, node).value;
    var data := Prop(placed, "data");
    if Truthy(data) && (!Truthy(Prop(data, "config")) || !IsObjectLike(Prop(data, "config"))) {
      var repaired := SetProp(c, data, "config", Obj([])).value;
      SetPropReads(c, data, "config", Obj([]), "config");
      SetPropReads(c, placed, "data", repaired, "data");
      SetPropReads(c, placed, "data", repaired, "position");
    }
  }

  /** Sanitising throws exactly when the node is not an object or array, or when its
      position or its data is a truthy primitive. */
  lemma SanitiseFails(c: Codec, node: Value)
    ensures SanitiseNode(c, node).Err? <==>
      || !IsObjectLike(node)
      || (node.Obj? && Truthy(Prop(node, "position")) && Primitive(Prop(node, "position")))
      || (node.Obj? && Truthy(Prop(node, "data")) && Primitive(Prop(node, "data")))
  {
    if PlaceNode(c, node).Ok? {
      PlaceNodeReads(c, node);
    }
  }

  /** `obj[key] = obj[key]` changes nothing. */
  lemma {:induction false} PutSame(entries: seq<Entry>, key: string, val: Value)
    requires Find(entries, key) == Some(val)
    ensures Put(entries, key, val) == entries
  {
    if entries[0].key != key {
      assert Find(entries[1..], key) == Find(entries, key);
      PutSame(entries[1..], key, val);
    }
  }

  /** Setting a property of an object to the value it already has changes nothing. */
  lemma SetPropSame(c: Codec, v: Value, key: string)
    requires v.Obj? && Find(v.entries, key).Some?
    ensures SetProp(c, v, key, Prop(v, key)) == Ok(v)
  {
    PutSame(v.entries, key, Prop(v, key));
  }

  /** A clean node passes through sanitising unchanged. */
  lemma CleanUnchanged(c: Codec, n: Value)
    requires Clean(n)
    ensures SanitiseNode(c, n) == Ok(n)
  {
    var pos := Prop(n, "position");
    assert Find(pos.entries, "x").Some? && Find(pos.entries, "y").Some?;
    SetPropSame(c, pos, "x");
    SetPropSame(c, pos, "y");
    assert Find(n.entries, "position").Some?;
    SetPropSame(c, n, "position");
  }

  /** Sanitising is idempotent: a sanitised node is sanitised again to itself. */
  lemma SanitiseIdempotent(c: Codec, node: Value)
    requires SanitiseNode(c, node).Ok?
    ensures SanitiseNode(c, SanitiseNode(c, node).value) == SanitiseNode(c, node)
  {
    SanitisedIsClean(c, node);
    CleanUnchanged(c, SanitiseNode(c, node).value);
  }

  /** A map whose step returns every element as it is returns the list as it is. */
  lemma TryMapUnchanged(f: Value -> Result<Value>, s: seq<Value>)
    requires forall k :: 0 <= k < |s| ==> f(s[k]) == Ok(s[k])
    ensures TryMap(f, s) == Ok(s)
  {
    var r := TryMap(f, s);
    assert r.Ok?;
    assert r.value == s;
  }

  lemma CleanNodesUnchanged(c: Codec, nodes: seq<Value>)
    requires forall k :: 0 <= k < |nodes| ==> Clean(nodes[k])
    ensures TryMap(Sanitiser(c), nodes) == Ok(nodes)
  {
    var f := Sanitiser(c);
    forall k | 0 <= k < |nodes|
      ensures f(nodes[k]) == Ok(nodes[k])
    {
      CleanUnchanged(c, nodes[k]);
    }
    TryMapUnchanged(f, nodes);
  }

  // ---------------------------------------------------------------------------
  // Import
  // ---------------------------------------------------------------------------

  /** The typed node a valid document's node becomes: `status` idle and the other
      runtime fields absent. */
  function HydrateNode(v: Value): (r: Node)
    requires !IsNullish(v) && NodeOk(v)
    ensures r.data.status == Idle && r.data.input == Undefined && r.data.output == Undefined && r.data.error == None
  {
    var pos := Prop(v, "position");
    var data := Prop(v, "data");
    Node(Prop(v, "id").s, Prop(v, "type").s, Position(Prop(pos, "x").n, Prop(pos, "y").n),
         NodeData(Prop(data, "nodeType").s, Prop(data, "label").s, Prop(data, "config"), Idle, Undefined, Undefined, None))
  }

  /** The typed edge a valid document's edge becomes. */
  function HydrateEdge(v: Value, ids: set<Value>): Edge
    requires !IsNullish(v) && EdgeOk(v, ids)
  {
    Edge(Prop(v, "id").s, Prop(v, "source").s, Prop(v, "target").s,
         (match Prop(v, "sourceHandle") case Str(h) => Some(h) case _ => None),
         Truthy(Prop(v, "animated")))
  }

  function HydrateNodes(nodes: seq<Value>): (r: seq<Node>)
    requires forall k :: 0 <= k < |nodes| ==> !IsNullish(nodes[k]) && NodeOk(nodes[k])
    ensures |r| == |nodes| && forall k :: 0 <= k < |r| ==> r[k] == HydrateNode(nodes[k])
  {
    seq(|nodes|, k requires 0 <= k < |nodes| => HydrateNode(nodes[k]))
  }

  function HydrateEdges(edges: seq<Value>, ids: set<Value>): (r: seq<Edge>)
    requires forall k :: 0 <= k < |edges| ==> !IsNullish(edges[k]) && EdgeOk(edges[k], ids)
    ensures |r| == |edges| && forall k :: 0 <= k < |r| ==> r[k] == HydrateEdge(edges[k], ids)
  {
    seq(|edges|, k requires 0 <= k < |edges| => HydrateEdge(edges[k], ids))
  }

  /** The node and edge lists a well-formed document is loaded as. */
  function Hydrate(doc: Value): (seq<Node>, seq<Edge>)
    requires WellFormed(doc)
  {
    var nodes := Prop(doc, "nodes").items;
    (HydrateNodes(nodes), HydrateEdges(Prop(doc, "edges").items, IdsOf(nodes)))
  }

  /** `handleFileChange` after the file is read: the new node and edge lists, or the
      message of the error it reports. */
  function Import(c: Codec, text: string): Result<(seq<Node>, seq<Edge>)>
  {
    var doc :- c.parse(text);
    var clean :- Sanitise(c, doc);
    var valid :- IsValidWorkflow(clean);
    if !valid then Err(INVALID_FORMAT)
    else
      ValidIffWellFormed(clean);
      Ok(Hydrate(clean))
  }

  /** Hydrated edges join hydrated nodes. */
  lemma HydratedEdgesJoin(nodes: seq<Value>, edges: seq<Value>)
    requires WellFormedLists(nodes, edges)
    ensures var hn := HydrateNodes(nodes);
      forall e :: e in HydrateEdges(edges, IdsOf(nodes)) ==> e.source in NodeIds(hn) && e.target in NodeIds(hn)
  {
    var hn := HydrateNodes(nodes);
    var he := HydrateEdges(edges, IdsOf(nodes));
    forall e | e in he
      ensures e.source in NodeIds(hn) && e.target in NodeIds(hn)
    {
      var k :| 0 <= k < |he| && he[k] == e;
      assert EdgeOk(edges[k], IdsOf(nodes));
      HydratedId(nodes, Prop(edges[k], "source"));
      HydratedId(nodes, Prop(edges[k], "target"));
    }
  }

  /** An id the validator collected is the id of one of the hydrated nodes. */
  lemma HydratedId(nodes: seq<Value>, v: Value)
    requires forall k :: 0 <= k < |nodes| ==> !IsNullish(nodes[k]) && NodeOk(nodes[k])
    requires v in IdsOf(nodes) && v.Str?
    ensures v.s in NodeIds(HydrateNodes(nodes))
  {
    var i :| 0 <= i < |nodes| && !IsNullish(nodes[i]) && Prop(nodes[i], "id") == v;
    assert HydrateNodes(nodes)[i].id == v.s;
  }

  /** An import that succeeds yields idle nodes and edges whose ends are node ids. */
  lemma ImportIntegrity(c: Codec, text: string)
    requires Import(c, text).Ok?
    ensures var (nodes, edges) := Import(c, text).value;
      && (forall k :: 0 <= k < |nodes| ==> nodes[k].data.status == Idle && nodes[k].data.output == Undefined)
      && (forall e :: e in edges ==> e.source in NodeIds(nodes) && e.target in NodeIds(nodes))
  {
    var clean := Sanitise(c, c.parse(text).value).value;
    ValidIffWellFormed(clean);
    HydratedEdgesJoin(Prop(clean, "nodes").items, Prop(clean, "edges").items);
  }

  // ---------------------------------------------------------------------------
  // Export then import
  // ---------------------------------------------------------------------------

  lemma ExportNodeReads(n: Node)
    ensures var v := ExportNode(n);
      && Prop(v, "id") == Str(n.id) && Prop(v, "type") == Str(n.kind)
      && Prop(v, "position") == PositionValue(n.position) && Prop(v, "data") == DataValue(n.data)
  {
    var es := ExportNode(n).entries;
    FindAt(es, 0, "id");
    FindAt(es, 1, "type");
    FindAt(es, 2, "position");
    FindAt(es, 3, "data");
  }

  lemma PositionReads(p: Position)
    ensures Prop(PositionValue(p), "x") == Num(p.x) && Prop(PositionValue(p), "y") == Num(p.y)
  {
    FindAt(PositionValue(p).entries, 0, "x");
    FindAt(PositionValue(p).entries, 1, "y");
  }

  lemma DataReads(d: NodeData)
    ensures var v := DataValue(d);
      Prop(v, "nodeType") == Str(d.nodeType) && Prop(v, "label") == Str(d.nodeLabel) && Prop(v, "config") == d.config
  {
    var es := DataValue(d).entries;
    FindAt(es, 0, "nodeType");
    FindAt(es, 1, "label");
    FindAt(es, 2, "config");
  }

  lemma ExportEdgeReads(e: Edge)
    ensures var v := ExportEdge(e);
      && Prop(v, "id") == Str(e.id) && Prop(v, "source") == Str(e.source) && Prop(v, "target") == Str(e.target)
      && Prop(v, "sourceHandle") == (match e.sourceHandle case Some(h) => Str(h) case None => Null)
      && Prop(v, "animated") == Bool(e.animated)
  {
    var es := ExportEdge(e).entries;
    FindAt(es, 0, "id");
    FindAt(es, 1, "source");
    FindAt(es, 2, "target");
    FindAt(es, 3, "sourceHandle");
    FindAt(es, 4, "animated");
  }

  /** An exported node whose config is an object is clean, passes the node checks and
      hydrates to the node with its runtime fields cleared. */
  lemma ExportedNode(n: Node)
    requires IsObjectLike(n.data.config)
    ensures Clean(ExportNode(n)) && NodeOk(ExportNode(n))
    ensures Prop(ExportNode(n), "id") == Str(n.id)
    ensures HydrateNode(ExportNode(n)) == Fixed(n)
  {
    ExportNodeReads(n);
    PositionReads(n.position);
    DataReads(n.data);
  }

  /** An exported edge hydrates to itself. */
  lemma ExportedEdge(e: Edge)
    ensures var v := ExportEdge(e);
      && EdgeFields(v) && Prop(v, "source") == Str(e.source) && Prop(v, "target") == Str(e.target)
      && forall ids :: EdgeOk(v, ids) ==> HydrateEdge(v, ids) == e
  {
    ExportEdgeReads(e);
  }

  lemma ExportReads(nodes: seq<Node>, edges: seq<Edge>)
    ensures var doc := Export(nodes, edges);
      && Find(doc.entries, "nodes") == Some(Arr(ExportNodes(nodes)))
      && Prop(doc, "nodes") == Arr(ExportNodes(nodes)) && Prop(doc, "edges") == Arr(ExportEdges(edges))
  {
    var es := Export(nodes, edges).entries;
    FindAt(es, 0, "nodes");
    FindAt(es, 1, "edges");
  }

  /** An exported document with object configs comes out of sanitising unchanged. */
  lemma ExportSanitised(c: Codec, nodes: seq<Node>, edges: seq<Edge>)
    requires forall k :: 0 <= k < |nodes| ==> IsObjectLike(nodes[k].data.config)
    ensures Sanitise(c, Export(nodes, edges)) == Ok(Export(nodes, edges))
  {
    var doc := Export(nodes, edges);
    ExportReads(nodes, edges);
    var ns := ExportNodes(nodes);
    forall k | 0 <= k < |ns|
      ensures Clean(ns[k])
    {
      ExportedNode(nodes[k]);
    }
    CleanNodesUnchanged(c, ns);
    PutSame(doc.entries, "nodes", Arr(ns));
  }

  /** The ids of the exported nodes are the node ids. */
  lemma ExportedIds(nodes: seq<Node>)
    ensures forall id :: Str(id) in IdsOf(ExportNodes(nodes)) <==> id in NodeIds(nodes)
  {
    var ns := ExportNodes(nodes);
    forall k | 0 <= k < |ns|
      ensures Prop(ns[k], "id") == Str(nodes[k].id)
    {
      ExportNodeReads(nodes[k]);
    }
    forall id
      ensures Str(id) in IdsOf(ns) <==> id in NodeIds(nodes)
    {
      if id in NodeIds(nodes) {
        var j :| 0 <= j < |nodes| && nodes[j].id == id;
        assert Prop(ns[j], "id") == Str(id);
      }
    }
  }

  lemma ExportedNodesOk(nodes: seq<Node>)
    requires forall k :: 0 <= k < |nodes| ==> IsObjectLike(nodes[k].data.config)
    ensures var ns := ExportNodes(nodes);
      forall k :: 0 <= k < |ns| ==> !IsNullish(ns[k]) && NodeOk(ns[k])
  {
    var ns := ExportNodes(nodes);
    forall k | 0 <= k < |ns|
      ensures !IsNullish(ns[k]) && NodeOk(ns[k])
    {
      ExportedNode(nodes[k]);
    }
  }

  /** An exported edge passes the edge checks exactly when both its ends are node
      ids. */
  lemma ExportedEdgeOk(nodes: seq<Node>, e: Edge)
    ensures !IsNullish(ExportEdge(e))
    ensures EdgeOk(ExportEdge(e), IdsOf(ExportNodes(nodes))) <==> e.source in NodeIds(nodes) && e.target in NodeIds(nodes)
  {
    ExportedIds(nodes);
    ExportedEdge(e);
  }

  /** The exported edges pass the edge checks exactly when both ends of every edge are
      node ids. */
  lemma ExportedEdgesOk(nodes: seq<Node>, edges: seq<Edge>)
    ensures var es := ExportEdges(edges);
      (forall k :: 0 <= k < |es| ==> !IsNullish(es[k]) && EdgeOk(es[k], IdsOf(ExportNodes(nodes)))) <==>
      forall e :: e in edges ==> e.source in NodeIds(nodes) && e.target in NodeIds(nodes)
  {
    var es := ExportEdges(edges);
    var ids := IdsOf(ExportNodes(nodes));
    forall k | 0 <= k < |es|
      ensures !IsNullish(es[k])
      ensures EdgeOk(es[k], ids) <==> edges[k].source in NodeIds(nodes) && edges[k].target in NodeIds(nodes)
    {
      ExportedEdgeOk(nodes, edges[k]);
    }
    if forall e :: e in edges ==> e.source in NodeIds(nodes) && e.target in NodeIds(nodes) {
      forall k | 0 <= k < |es|
        ensures EdgeOk(es[k], ids)
      {
        assert edges[k] in edges;
      }
    } else {
      var e :| e in edges && !(e.source in NodeIds(nodes) && e.target in NodeIds(nodes));
      var k :| 0 <= k < |edges| && edges[k] == e;
      assert !EdgeOk(es[k], ids);
    }
  }

  /** The lists of an exported document pass the checks exactly when both ends of
      every edge are node ids. */
  lemma ExportWellFormed(nodes: seq<Node>, edges: seq<Edge>)
    requires forall k :: 0 <= k < |nodes| ==> IsObjectLike(nodes[k].data.config)
    ensures WellFormedLists(ExportNodes(nodes), ExportEdges(edges)) <==>
      forall e :: e in edges ==> e.source in NodeIds(nodes) && e.target in NodeIds(nodes)
  {
    ExportedNodesOk(nodes);
    ExportedEdgesOk(nodes, edges);
  }

  /** Whether an exported document is valid is decided by its edges alone, and the
      check never throws on it. */
  lemma ExportValidity(nodes: seq<Node>, edges: seq<Edge>)
    requires forall k :: 0 <= k < |nodes| ==> IsObjectLike(nodes[k].data.config)
    ensures IsValidWorkflow(Export(nodes, edges)) ==
      Ok(forall e :: e in edges ==> e.source in NodeIds(nodes) && e.target in NodeIds(nodes))
  {
    ExportNeverThrows(nodes, edges);
    ValidDecides(Export(nodes, edges));
    ExportWellFormedDoc(nodes, edges);
  }

  lemma ExportWellFormedDoc(nodes: seq<Node>, edges: seq<Edge>)
    requires forall k :: 0 <= k < |nodes| ==> IsObjectLike(nodes[k].data.config)
    ensures WellFormed(Export(nodes, edges)) <==>
      forall e :: e in edges ==> e.source in NodeIds(nodes) && e.target in NodeIds(nodes)
  {
    ExportReads(nodes, edges);
    ExportWellFormed(nodes, edges);
  }

  lemma ExportNeverThrows(nodes: seq<Node>, edges: seq<Edge>)
    requires forall k :: 0 <= k < |nodes| ==> IsObjectLike(nodes[k].data.config)
    ensures IsValidWorkflow(Export(nodes, edges)).Ok?
  {
    ExportReads(nodes, edges);
    ExportedNodesOk(nodes);
    var es := ExportEdges(edges);
    forall k | 0 <= k < |es|
      ensures !IsNullish(es[k])
    {
    }
    NeverThrows(Export(nodes, edges));
  }

  /** A valid exported document hydrates to the nodes with their runtime state cleared
      and to the edges. */
  lemma ExportHydrated(nodes: seq<Node>, edges: seq<Edge>)
    requires WellFormed(Export(nodes, edges))
    requires forall k :: 0 <= k < |nodes| ==> IsObjectLike(nodes[k].data.config)
    ensures Hydrate(Export(nodes, edges)) == (MapNodes(nodes, Fixed), edges)
  {
    ExportReads(nodes, edges);
    var ns := ExportNodes(nodes);
    var es := ExportEdges(edges);
    var hn := HydrateNodes(ns);
    var he := HydrateEdges(es, IdsOf(ns));
    forall k | 0 <= k < |nodes|
      ensures hn[k] == Fixed(nodes[k])
    {
      ExportedNode(nodes[k]);
    }
    forall k | 0 <= k < |edges|
      ensures he[k] == edges[k]
    {
      ExportedEdge(edges[k]);
    }
    assert hn == MapNodes(nodes, Fixed);
    assert he == edges;
  }

  /** Exporting and importing a workflow gives back its nodes with their runtime state
      cleared and its edges, provided every config is an object, every edge joins two
      nodes, and parsing the serialised text gives back the document. */
  lemma RoundTrip(c: Codec, nodes: seq<Node>, edges: seq<Edge>)
    requires c.parse(c.stringify(Export(nodes, edges))) == Ok(Export(nodes, edges))
    requires forall k :: 0 <= k < |nodes| ==> IsObjectLike(nodes[k].data.config)
    requires forall e :: e in edges ==> e.source in NodeIds(nodes) && e.target in NodeIds(nodes)
    ensures Import(c, c.stringify(Export(nodes, edges))) == Ok((MapNodes(nodes, Fixed), edges))
  {
    var doc := Export(nodes, edges);
    ExportSanitised(c, nodes, edges);
    ExportValidity(nodes, edges);
    ValidIffWellFormed(doc);
    ExportHydrated(nodes, edges);
  }

  /** An exported workflow with an edge to or from a missing node is refused on
      import as an invalid file. */
  lemma DanglingEdgeRejected(c: Codec, nodes: seq<Node>, edges: seq<Edge>, e: Edge)
    requires c.parse(c.stringify(Export(nodes, edges))) == Ok(Export(nodes, edges))
    requires forall k :: 0 <= k < |nodes| ==> IsObjectLike(nodes[k].data.config)
    requires e in edges && (e.source !in NodeIds(nodes) || e.target !in NodeIds(nodes))
    ensures Import(c, c.stringify(Export(nodes, edges))) == Err(INVALID_FORMAT)
  {
    ExportSanitised(c, nodes, edges);
    ExportValidity(nodes, edges);
  }
}
