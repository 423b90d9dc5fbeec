/** The data picker: the user picks one of the upstream nodes and optionally types a
    path into its output; inserting builds a `{{$node['label'].output...}}` expression
    for the resolver. */
module DataPicker {
  import opened Wrappers
  import opened Text
  import opened Json
  import opened Workflow
  import opened Expressions

  const NO_SELECTION := "Please select a source node."

  /** What the typed path adds after `.output`: nothing for an empty path, the path
      itself when it starts with `[`, otherwise a `.` and the path. */
  function Suffix(path: string): string {
    if path == "" then ""
    else if StartsWith(path, "[") then path
    else "." + path
  }

  /** The expression inserted for a node label and a typed path. */
  function Expression(lbl: string, path: string): string {
    "{{$node['" + lbl + "'].output" + Suffix(path) + "}}"
  }

  /** The picker's state: the selected node id and the typed path. */
  class Picker {
    var selectedNodeId: string
    var dataPath: string

    constructor ()
      ensures selectedNodeId == "" && dataPath == ""
    {
      selectedNodeId := "";
      dataPath := "";
    }

    /** `handleInsert`: with no listed node selected it alerts and keeps the state;
        otherwise it emits the expression for the node's label and the typed path,
        then clears the selection and the path. */
    method HandleInsert(nodes: seq<Node>) returns (inserted: Result<string>)
      modifies this
      ensures FindById(nodes, old(selectedNodeId)).None? ==>
        && inserted == Err(NO_SELECTION)
        && selectedNodeId == old(selectedNodeId) && dataPath == old(dataPath)
      ensures FindById(nodes, old(selectedNodeId)).Some? ==>
        && inserted == Ok(Expression(FindById(nodes, old(selectedNodeId)).value.data.nodeLabel, old(dataPath)))
        && selectedNodeId == "" && dataPath == ""
    {
      var selectedNode := FindById(nodes, selectedNodeId);
      if selectedNode.None? {
        return Err(NO_SELECTION);
      }
      ghost var head := "{{$node['" + selectedNode.value.data.nodeLabel + "'].output";
      var expression := "{{$node['" + selectedNode.value.data.nodeLabel + "'].output";
      if dataPath != "" {
        if !StartsWith(dataPath, "[") {
          expression := expression + ".";
        }
        expression := expression + dataPath;
        assert (head + ".") + dataPath == head + ("." + dataPath);
      }
      assert expression == head + Suffix(dataPath);
      expression := expression + "}}";
      selectedNodeId := "";
      dataPath := "";
      return Ok(expression);
    }
  }

  // ---------------------------------------------------------------------------
  // What the resolver makes of an inserted expression
  // ---------------------------------------------------------------------------

  /** A string that starts and ends with a character other than white space is its
      own trimmed form. */
  lemma Untrimmed(s: string)
    requires |s| > 0 && !IsSpace(s[0]) && !IsSpace(s[|s| - 1])
    ensures TrimStart(s) == s && TrimEnd(s) == s && Trim(s) == s
  {
  }

  /** In an inserted expression the first `'].output` after `$node['` is the one the
      picker wrote, when the label itself holds none: no occurrence can start inside
      the label, not even one running on into the marker, since `'` is only the
      marker's first character. */
  lemma OutputMarkerAfterLabel(lbl: string, rest: string)
    requires !Contains(lbl, "'].output")
    ensures IndexOf("{{$node['" + lbl + "'].output" + rest, "'].output", 9) == Some(9 + |lbl|)
  {
    var t := "{{$node['" + lbl + "'].output" + rest;
    var m := 9 + |lbl|;
    MarkerAt(lbl, rest);
    forall j | 9 <= j < m
      ensures !OccursAt(t, "'].output", j)
    {
      NoMarkerAt(lbl, rest, j);
    }
    var r := IndexOf(t, "'].output", 9);
    assert r.Some? && r.value <= m;
  }

  lemma MarkerAt(lbl: string, rest: string)
    ensures OccursAt("{{$node['" + lbl + "'].output" + rest, "'].output", 9 + |lbl|)
  {
    var t := "{{$node['" + lbl + "'].output" + rest;
    assert t == ("{{$node['" + lbl) + ("'].output" + rest);
    assert t[9 + |lbl|..9 + |lbl| + 9] == "'].output";
  }

  lemma NoMarkerAt(lbl: string, rest: string, j: nat)
    requires !Contains(lbl, "'].output")
    requires 9 <= j < 9 + |lbl|
    ensures !OccursAt("{{$node['" + lbl + "'].output" + rest, "'].output", j)
  {
    var t := "{{$node['" + lbl + "'].output" + rest;
    var pat := "'].output";
    var m := 9 + |lbl|;
    if j + 9 <= m {
      assert !OccursAt(lbl, pat, j - 9);
      assert t[j..j + 9] == lbl[j - 9..j];
    } else if j + 9 <= |t| {
      assert t[m] == '\'';
      assert t[j..j + 9][m - j] == '\'';
      assert pat[m - j] != '\'';
    }
  }

  /** An inserted expression is already trimmed. */
  lemma ExpressionTrimmed(lbl: string, path: string)
    ensures Trim(Expression(lbl, path)) == Expression(lbl, path)
  {
    var t := Expression(lbl, path);
    assert t[0] == '{' && t[|t| - 1] == '}';
    Untrimmed(t);
  }

  /** An inserted expression parses as a whole-string node reference to the picked
      label, with the suffix (trailing white space dropped) as its raw path. */
  lemma ExpressionParses(lbl: string, path: string)
    requires NoLineTerminator(lbl) && NoLineTerminator(path) && !Contains(lbl, "'].output")
    ensures WholeNodeRef(Expression(lbl, path)) == Some(NodeRef(lbl, TrimEnd(Suffix(path))))
  {
    var sfx := Suffix(path);
    assert NoLineTerminator(sfx);
    assert Expression(lbl, path) == "{{$node['" + lbl + "'].output" + (sfx + "}}");
    ReferenceParses(lbl, sfx);
  }

  lemma ReferenceParses(lbl: string, sfx: string)
    requires NoLineTerminator(lbl) && NoLineTerminator(sfx) && !Contains(lbl, "'].output")
    ensures WholeNodeRef("{{$node['" + lbl + "'].output" + (sfx + "}}")) == Some(NodeRef(lbl, TrimEnd(sfx)))
  {
    ReferenceShape(lbl, sfx);
    ParsedAt("{{$node['" + lbl + "'].output" + (sfx + "}}"), lbl, 9 + |lbl|, sfx);
  }

  /** Where the parts of an inserted expression sit, and where the resolver finds them. */
  lemma ReferenceShape(lbl: string, sfx: string)
    requires !Contains(lbl, "'].output")
    ensures var t := "{{$node['" + lbl + "'].output" + (sfx + "}}");
      && |t| >= 3 && t[0] == '{' && t[1] == '{' && SpaceRun(t[2..]) == 0
      && OccursAt(t, "$node['", 2)
      && IndexOf(t, "'].output", 9) == Some(9 + |lbl|)
      && t[9..9 + |lbl|] == lbl
      && t[9 + |lbl| + 9..] == sfx + "}}"
  {
    var t := "{{$node['" + lbl + "'].output" + (sfx + "}}");
    assert t == "{{$node['" + (lbl + ("'].output" + (sfx + "}}")));
    OutputMarkerAfterLabel(lbl, sfx + "}}");
    SpaceRunZero(t[2..]);
  }

  /** `WholeNodeRef` on a string whose parts are known. */
  lemma ParsedAt(t: string, lbl: string, o: nat, sfx: string)
    requires |t| >= 3 && t[0] == '{' && t[1] == '{' && SpaceRun(t[2..]) == 0
    requires OccursAt(t, "$node['", 2)
    requires IndexOf(t, "'].output", 9) == Some(o)
    requires t[9..o] == lbl && NoLineTerminator(lbl)
    requires t[o + 9..] == sfx + "}}" && NoLineTerminator(sfx)
    ensures WholeNodeRef(t) == Some(NodeRef(lbl, TrimEnd(sfx)))
  {
    assert 2 + SpaceRun(t[2..]) == 2;
    var rest := t[o + 9..];
    assert rest[..|rest| - 2] == sfx;
    assert rest[|rest| - 2..] == "}}";
    var p := TrimEnd(sfx);
    assert NoLineTerminator(p) by {
      forall i | 0 <= i < |p|
        ensures !IsLineTerminator(p[i])
      {
        assert p[i] == sfx[i];
      }
    }
  }

  /** A non-empty path that does not end in white space is exactly the path the
      resolver reads: the `.` the picker adds is the one it drops. */
  lemma TypedPathRead(path: string)
    requires path != "" && !IsSpace(path[|path| - 1])
    ensures PathOf(TrimEnd(Suffix(path))) == path
  {
    var sfx := Suffix(path);
    if StartsWith(path, "[") {
      Untrimmed(path);
    } else {
      assert sfx == "." + path;
      Untrimmed(sfx);
      assert sfx[1..] == path;
    }
  }

  /** An inserted expression resolves by reading the path in the output of the node
      that carries the picked label, with the expression itself as the fallback. */
  lemma ExpressionResolves(lbl: string, path: string, nodes: seq<Node>, outputs: map<string, Value>, input: Value, c: Codec)
    requires NoLineTerminator(lbl) && NoLineTerminator(path) && !Contains(lbl, "'].output")
    requires FindByLabel(nodes, lbl).Some?
    requires FindByLabel(nodes, lbl).value.id in outputs && !outputs[FindByLabel(nodes, lbl).value.id].Undefined?
    ensures var e := Expression(lbl, path);
      Resolve(Str(e), nodes, outputs, input, c)
        == GetPath(outputs[FindByLabel(nodes, lbl).value.id], PathOf(TrimEnd(Suffix(path))), Str(e))
  {
    var e := Expression(lbl, path);
    ExpressionTrimmed(lbl, path);
    ExpressionParses(lbl, path);
    RefResolves(e, NodeRef(lbl, TrimEnd(Suffix(path))), nodes, outputs, input, c);
  }

  /** A trimmed whole-string reference resolves by reading its path in the output of
      the node with its label. */
  lemma RefResolves(str: string, ref: NodeRef, nodes: seq<Node>, outputs: map<string, Value>, input: Value, c: Codec)
    requires Trim(str) == str && WholeNodeRef(str) == Some(ref)
    requires FindByLabel(nodes, ref.lbl).Some?
    requires FindByLabel(nodes, ref.lbl).value.id in outputs && !outputs[FindByLabel(nodes, ref.lbl).value.id].Undefined?
    ensures Resolve(Str(str), nodes, outputs, input, c)
      == GetPath(outputs[FindByLabel(nodes, ref.lbl).value.id], PathOf(ref.rawPath), Str(str))
  {
    WholeRefHit(str, nodes, outputs, input, c);
  }

  /** Leaving the path blank gives the node's entire output. */
  lemma BlankPathGivesOutput(lbl: string, nodes: seq<Node>, outputs: map<string, Value>, input: Value, c: Codec)
    requires NoLineTerminator(lbl) && !Contains(lbl, "'].output")
    requires FindByLabel(nodes, lbl).Some?
    requires FindByLabel(nodes, lbl).value.id in outputs && !outputs[FindByLabel(nodes, lbl).value.id].Undefined?
    ensures Resolve(Str(Expression(lbl, "")), nodes, outputs, input, c) == outputs[FindByLabel(nodes, lbl).value.id]
  {
    ExpressionResolves(lbl, "", nodes, outputs, input, c);
    assert TrimEnd(Suffix("")) == "";
  }

  /** The expression inserted for a picked node reads the typed path in that node's
      output, provided no other node of the workflow carries its label (the resolver
      looks nodes up by label, the picker by id). */
  lemma InsertedExpressionReadsPickedNode(choices: seq<Node>, id: string, path: string,
                                          nodes: seq<Node>, outputs: map<string, Value>, input: Value, c: Codec)
    requires FindById(choices, id).Some?
    requires var picked := FindById(choices, id).value;
      && picked in nodes
      && (forall i :: 0 <= i < |nodes| && nodes[i].data.nodeLabel == picked.data.nodeLabel ==> nodes[i] == picked)
      && NoLineTerminator(picked.data.nodeLabel) && !Contains(picked.data.nodeLabel, "'].output")
      && picked.id in outputs && !outputs[picked.id].Undefined?
    requires path != "" ==> NoLineTerminator(path) && !IsSpace(path[|path| - 1])
    ensures var picked := FindById(choices, id).value;
      var e := Expression(picked.data.nodeLabel, path);
      Resolve(Str(e), nodes, outputs, input, c) == GetPath(outputs[picked.id], path, Str(e))
  {
    var picked := FindById(choices, id).value;
    var lbl := picked.data.nodeLabel;
    assert FindByLabel(nodes, lbl) == Some(picked);
    ExpressionResolves(lbl, path, nodes, outputs, input, c);
    if path != "" {
      TypedPathRead(path);
    } else {
      assert TrimEnd(Suffix(path)) == "";
    }
  }
}
