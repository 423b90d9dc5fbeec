/** `isValidWorkflow`: the shape check an untrusted workflow document must pass before
    the editor loads it. */
module Validator {
  import opened Wrappers
  import opened Json

  /** The checks on one node, which is known not to be `null` or `undefined`. */
  predicate NodeOk(n: Value)
    requires !IsNullish(n)
  {
    var pos := Prop(n, "position");
    var data := Prop(n, "data");
    && Prop(n, "id").Str?
    && Prop(n, "type").Str?
    && IsObjectLike(pos) && Prop(pos, "x").Num? && Prop(pos, "y").Num?
    && IsObjectLike(data) && Prop(data, "label").Str? && Prop(data, "nodeType").Str?
    && IsObjectLike(Prop(data, "config"))
  }

  /** An edge's id, source and target are strings. */
  predicate EdgeFields(e: Value)
    requires !IsNullish(e)
  {
    Prop(e, "id").Str? && Prop(e, "source").Str? && Prop(e, "target").Str?
  }

  /** The checks on one edge: string id, source and target, both ends node ids. */
  predicate EdgeOk(e: Value, ids: set<Value>)
    requires !IsNullish(e)
  {
    EdgeFields(e) && Prop(e, "source") in ids && Prop(e, "target") in ids
  }

  /** The ids of the nodes, as values. */
  function IdsOf(nodes: seq<Value>): set<Value> {
    set k | 0 <= k < |nodes| && !IsNullish(nodes[k]) :: Prop(nodes[k], "id")
  }

  /** `new Set(data.nodes.map(n => n.id))`: reading `id` of a `null` or `undefined`
      element throws. */
  function NodeIdSet(nodes: seq<Value>): (r: Result<set<Value>>)
    ensures r.Ok? <==> forall k :: 0 <= k < |nodes| ==> !IsNullish(nodes[k])
    ensures r.Ok? ==> r.value == IdsOf(nodes)
  {
    if nodes == [] then Ok({})
    else
      var id :- Field(nodes[0], "id");
      var rest :- NodeIdSet(nodes[1..]);
      assert forall k :: 1 <= k < |nodes| ==> nodes[k] == nodes[1..][k - 1];
      Ok({id} + rest)
  }

  /** The edge loop: the first failing edge makes the result `false`; reading `id` of a
      `null` or `undefined` edge that is reached throws. */
  function EdgesCheck(edges: seq<Value>, ids: set<Value>): (r: Result<bool>)
    ensures r.Err? ==> exists k :: 0 <= k < |edges| && IsNullish(edges[k])
  {
    if edges == [] then Ok(true)
    else
      var _ :- Field(edges[0], "id");
      if !EdgeOk(edges[0], ids) then Ok(false)
      else EdgesCheck(edges[1..], ids)
  }

  /** `isValidWorkflow(data)`: `Ok(valid)`, or the message of the `TypeError` it throws. */
  function IsValidWorkflow(doc: Value): (r: Result<bool>)
  {
    if !Truthy(doc) || !IsObjectLike(doc) then Ok(false)
    else
      var nodes := Prop(doc, "nodes");
      var edges := Prop(doc, "edges");
      if !nodes.Arr? || !edges.Arr? then Ok(false)
      else
        var ids :- NodeIdSet(nodes.items);
        if !forall k :: 0 <= k < |nodes.items| ==> NodeOk(nodes.items[k]) then Ok(false)
        else EdgesCheck(edges.items, ids)
  }

  /** A well-formed document, stated declaratively: an object whose `nodes` and `edges`
      are arrays that pass `WellFormedLists`. */
  predicate WellFormed(doc: Value) {
    && doc.Obj?
    && Prop(doc, "nodes").Arr? && Prop(doc, "edges").Arr?
    && WellFormedLists(Prop(doc, "nodes").items, Prop(doc, "edges").items)
  }

  /** Every node passes the node checks, and every edge passes the edge checks against
      the ids of the nodes. */
  predicate WellFormedLists(nodes: seq<Value>, edges: seq<Value>) {
    && (forall k :: 0 <= k < |nodes| ==> !IsNullish(nodes[k]) && NodeOk(nodes[k]))
    && (forall k :: 0 <= k < |edges| ==> !IsNullish(edges[k]) && EdgeOk(edges[k], IdsOf(nodes)))
  }

  lemma {:induction false} EdgesCheckTrue(edges: seq<Value>, ids: set<Value>)
    ensures EdgesCheck(edges, ids) == Ok(true) <==>
      forall k :: 0 <= k < |edges| ==> !IsNullish(edges[k]) && EdgeOk(edges[k], ids)
  {
    if edges != [] {
      EdgesCheckTrue(edges[1..], ids);
      assert forall k :: 1 <= k < |edges| ==> edges[k] == edges[1..][k - 1];
    }
  }

  /** With no `null` or `undefined` edge the edge loop never throws. */
  lemma EdgesCheckTotal(edges: seq<Value>, ids: set<Value>)
    requires forall k :: 0 <= k < |edges| ==> !IsNullish(edges[k])
    ensures EdgesCheck(edges, ids).Ok?
  {
  }

  /** On an object whose lists hold no `null` or `undefined` element the check never
      throws. */
  lemma NeverThrows(doc: Value)
    requires doc.Obj? && Prop(doc, "nodes").Arr? && Prop(doc, "edges").Arr?
    requires forall k :: 0 <= k < |Prop(doc, "nodes").items| ==> !IsNullish(Prop(doc, "nodes").items[k])
    requires forall k :: 0 <= k < |Prop(doc, "edges").items| ==> !IsNullish(Prop(doc, "edges").items[k])
    ensures IsValidWorkflow(doc).Ok?
  {
    var ids := NodeIdSet(Prop(doc, "nodes").items);
    EdgesCheckTotal(Prop(doc, "edges").items, ids.value);
  }

  /** The check returns `true` exactly for well-formed documents. */
  lemma ValidIffWellFormed(doc: Value)
    ensures IsValidWorkflow(doc) == Ok(true) <==> WellFormed(doc)
  {
    if doc.Obj? && Prop(doc, "nodes").Arr? && Prop(doc, "edges").Arr? {
      var nodes := Prop(doc, "nodes").items;
      var ids := NodeIdSet(nodes);
      if ids.Ok? {
        EdgesCheckTrue(Prop(doc, "edges").items, ids.value);
      }
    }
  }

  /** When the check does not throw, its answer is whether the document is well
      formed. */
  lemma ValidDecides(doc: Value)
    requires IsValidWorkflow(doc).Ok?
    ensures IsValidWorkflow(doc) == Ok(WellFormed(doc))
  {
    var r := IsValidWorkflow(doc);
    ValidIffWellFormed(doc);
    assert r == Ok(r.value);
    assert r.value <==> WellFormed(doc);
  }

  /** A valid document has referential integrity: both ends of every edge are the id
      of some node. */
  lemma ValidEdgesReferToNodes(doc: Value)
    requires IsValidWorkflow(doc) == Ok(true)
    ensures doc.Obj? && Prop(doc, "nodes").Arr? && Prop(doc, "edges").Arr?
    ensures var nodes := Prop(doc, "nodes").items;
      var edges := Prop(doc, "edges").items;
      forall k :: 0 <= k < |edges| ==>
        && !IsNullish(edges[k])
        && (exists j :: 0 <= j < |nodes| && !IsNullish(nodes[j]) && Prop(nodes[j], "id") == Prop(edges[k], "source"))
        && (exists j :: 0 <= j < |nodes| && !IsNullish(nodes[j]) && Prop(nodes[j], "id") == Prop(edges[k], "target"))
  {
    ValidIffWellFormed(doc);
  }

  /** Empty node and edge lists are valid: neither a Start node nor any node is
      required. */
  lemma EmptyIsValid()
    ensures IsValidWorkflow(Obj([Entry("nodes", Arr([])), Entry("edges", Arr([]))])) == Ok(true)
  {
    var doc := Obj([Entry("nodes", Arr([])), Entry("edges", Arr([]))]);
    FindCons(Entry("nodes", Arr([])), [Entry("edges", Arr([]))], "nodes");
    FindCons(Entry("nodes", Arr([])), [Entry("edges", Arr([]))], "edges");
    FindCons(Entry("edges", Arr([])), [], "edges");
  }

  /** Anything but an object whose `nodes` and `edges` are arrays is rejected without
      looking further. */
  lemma ShapeRejected(doc: Value)
    requires !IsObjectLike(doc) || !Prop(doc, "nodes").Arr? || !Prop(doc, "edges").Arr?
    ensures IsValidWorkflow(doc) == Ok(false)
  {
  }

  /** A `null` node makes the id collection throw before any check runs. */
  lemma NullNodeThrows(doc: Value, k: nat)
    requires doc.Obj? && Prop(doc, "nodes").Arr? && Prop(doc, "edges").Arr?
    requires k < |Prop(doc, "nodes").items| && Prop(doc, "nodes").items[k] == Null
    ensures IsValidWorkflow(doc).Err?
  {
  }
}
