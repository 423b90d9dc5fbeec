/** The expression resolver: `{{input}}` and `{{$node['Label'].output<path>}}` templates.

    The original matches these forms with regular expressions; here each regular
    expression is an explicit matcher that returns what the JavaScript engine's
    backtracking search returns:
    - `{{\s*input\s*}}` needs no backtracking: `input` and `}}` start with non-space;
    - in `{{\s*\$node\['(.*?)'\]\.output(.*?)?...}}` the lazy lbl always ends at the
      FIRST `'].output` after `$node['`: if the rest fails to match there, the rest
      fails after every later occurrence too (a later lbl would swallow the line
      terminator or the missing `}}` that made the first attempt fail);
    - the optional path group `(.*?)?` is greedy and may not match empty: it first
      takes one character or more, up to the first `}}` on the same line; only when
      there is none does it match nothing, with `}}` right after `.output`. In the
      unanchored inline pattern that lets a reference with an empty path run on to a
      later `}}` on its line, swallowing whatever lies between;
    - `.` refuses line terminators, so neither lbl nor path may contain one. */
module Expressions {
  import opened Wrappers
  import opened Text
  import opened Json
  import opened Workflow

  // ---------------------------------------------------------------------------
  // Path tokenizer: `/[^.\[\]]+|\[(?:['"]?)(.*?)(?:['"]?)\]/g` and key clean-up
  // ---------------------------------------------------------------------------

  predicate IsDelimiter(c: char) {
    c == '.' || c == '[' || c == ']'
  }

  predicate IsQuote(c: char) {
    c == '\'' || c == '"'
  }

  predicate NoDelimiter(s: string) {
    forall i :: 0 <= i < |s| ==> !IsDelimiter(s[i])
  }

  /** Length of the longest delimiter-free prefix: the first alternative `[^.\[\]]+`. */
  function PlainRun(p: string): (n: nat)
    ensures n <= |p| && NoDelimiter(p[..n])
    ensures n < |p| ==> IsDelimiter(p[n])
  {
    if p == [] || IsDelimiter(p[0]) then 0
    else
      var n := PlainRun(p[1..]) + 1;
      assert p[..n] == [p[0]] + p[1..][..n - 1];
      n
  }

  /** For a path starting with `[`, the index of the `]` closing the second alternative:
      the first `]`, provided no line terminator comes before it. */
  function CloseBracket(p: string): (r: Option<nat>)
    requires |p| > 0 && p[0] == '['
    ensures r.Some? ==> 1 <= r.value < |p| && p[r.value] == ']'
  {
    match FirstIndexOf(p[1..], ']')
    case None => None
    case Some(j) => if NoLineTerminator(p[1..j + 1]) then Some(j + 1) else None
  }

  /** The segments `path.match(...)` returns, in order; characters that start no match
      (a `.`, a stray `]`, a `[` that is never closed) are skipped. */
  function Segments(p: string): (r: seq<string>)
    ensures forall k :: 0 <= k < |r| ==> |r[k]| > 0
    decreases |p|
  {
    if p == [] then []
    else if !IsDelimiter(p[0]) then
      var n := PlainRun(p);
      [p[..n]] + Segments(p[n..])
    else if p[0] == '[' then
      match CloseBracket(p)
      case Some(k) => [p[..k + 1]] + Segments(p[k + 1..])
      case None => Segments(p[1..])
    else Segments(p[1..])
  }

  /** `segment.replace(/^\[['"]?|['"]?\]$/g, '')`: drops a leading `[` with the quote after
      it, then a trailing `]` with the quote before it, where the two do not overlap. */
  function CleanKey(seg: string): string
  {
    var a := if |seg| > 0 && seg[0] == '[' then (if |seg| > 1 && IsQuote(seg[1]) then 2 else 1) else 0;
    var rest := seg[a..];
    if |rest| > 0 && rest[|rest| - 1] == ']' then
      (if |rest| > 1 && IsQuote(rest[|rest| - 2]) then rest[..|rest| - 2] else rest[..|rest| - 1])
    else rest
  }

  /** The property names `get` reads, in order. */
  function PathKeys(p: string): (r: seq<string>)
    ensures |r| == |Segments(p)|
  {
    var segs := Segments(p);
    seq(|segs|, k requires 0 <= k < |segs| => CleanKey(segs[k]))
  }

  /** `a.b.c` for delimiter-free keys. */
  function DottedPath(keys: seq<string>): string
  {
    if keys == [] then "" else if |keys| == 1 then keys[0] else keys[0] + "." + DottedPath(keys[1..])
  }

  /** A plain key followed by a delimiter (or nothing) is one segment. */
  lemma {:induction false} SegmentsPlain(k: string, rest: string)
    requires |k| > 0 && NoDelimiter(k)
    requires rest == [] || IsDelimiter(rest[0])
    ensures Segments(k + rest) == [k] + Segments(rest)
  {
    PlainRunOfPlain(k, rest);
  }

  lemma {:induction false} PlainRunOfPlain(k: string, rest: string)
    requires |k| > 0 && NoDelimiter(k)
    requires rest == [] || IsDelimiter(rest[0])
    ensures PlainRun(k + rest) == |k|
    ensures (k + rest)[..|k|] == k && (k + rest)[|k|..] == rest
  {
    if |k| > 1 {
      assert (k + rest)[1..] == k[1..] + rest;
      PlainRunOfPlain(k[1..], rest);
    } else {
      assert (k + rest)[1..] == rest;
    }
  }

  /** A `.` separates segments and is not one. */
  lemma {:induction false} SegmentsDot(rest: string)
    ensures Segments("." + rest) == Segments(rest)
  {
    assert ("." + rest)[1..] == rest;
  }

  /** `[...]` closed on the same line is one segment, brackets included. */
  lemma {:induction false} SegmentsBracket(seg: string, rest: string)
    requires |seg| >= 2 && seg[0] == '[' && seg[|seg| - 1] == ']'
    requires forall i :: 0 < i < |seg| - 1 ==> seg[i] != ']' && !IsLineTerminator(seg[i])
    ensures Segments(seg + rest) == [seg] + Segments(rest)
  {
    var p := seg + rest;
    var n := |seg| - 2;
    assert p[1..][n] == ']';
    assert forall j :: 0 <= j < n ==> p[1..][j] == seg[j + 1];
    assert FirstIndexOf(p[1..], ']') == Some(n);
    assert p[1..n + 1] == seg[1..n + 1];
    assert CloseBracket(p) == Some(n + 1);
    assert p[..n + 2] == seg && p[n + 2..] == rest;
  }

  /** A dotted path of plain keys tokenizes back into those keys. */
  lemma {:induction false} DottedPathRoundTrip(keys: seq<string>)
    requires forall k :: 0 <= k < |keys| ==> |keys[k]| > 0 && NoDelimiter(keys[k])
    ensures PathKeys(DottedPath(keys)) == keys
  {
    var p := DottedPath(keys);
    DottedSegments(keys);
    KeysOfSegments(p, keys);
    forall k | 0 <= k < |keys| ensures PathKeys(p)[k] == keys[k] {
      CleanPlain(keys[k]);
    }
  }

  /** The segments of a dotted path of plain keys are the keys. */
  lemma {:induction false} DottedSegments(keys: seq<string>)
    requires forall k :: 0 <= k < |keys| ==> |keys[k]| > 0 && NoDelimiter(keys[k])
    ensures Segments(DottedPath(keys)) == keys
  {
    if keys != [] {
      var k0 := keys[0];
      if |keys| == 1 {
        SegmentsPlain(k0, "");
        assert k0 + "" == k0;
      } else {
        var tail := DottedPath(keys[1..]);
        assert DottedPath(keys) == k0 + ("." + tail);
        SegmentsPlain(k0, "." + tail);
        SegmentsDot(tail);
        DottedSegments(keys[1..]);
        assert keys == [k0] + keys[1..];
      }
    }
  }

  /** Dot and bracket notation mixed, as in the resolver's own example `a.b['c.d'][0]`:
      plain keys split at dots, a quoted bracket key keeps its dots, and an index in
      brackets is a key of its own; the keys are read without brackets and quotes. */
  lemma {:induction false} MixedNotation(a: string, b: string, c: string, d: string)
    requires |a| > 0 && NoDelimiter(a) && |b| > 0 && NoDelimiter(b)
    requires forall i :: 0 <= i < |c| ==> c[i] != ']' && !IsLineTerminator(c[i])
    requires forall i :: 0 <= i < |d| ==> d[i] != ']' && !IsLineTerminator(d[i]) && !IsQuote(d[i])
    ensures PathKeys(a + ("." + (b + ("['" + c + "']" + ("[" + d + "]"))))) == [a, b, c, d]
  {
    var p := a + ("." + (b + ("['" + c + "']" + ("[" + d + "]"))));
    MixedSegments(a, b, c, d);
    KeysOfSegments(p, [a, b, "['" + c + "']", "[" + d + "]"]);
    CleanPlain(a);
    CleanPlain(b);
    CleanQuoted(c);
    CleanIndex(d);
  }

  /** The segments of that path: the bracketed ones keep their brackets and quotes. */
  lemma {:induction false} MixedSegments(a: string, b: string, c: string, d: string)
    requires |a| > 0 && NoDelimiter(a) && |b| > 0 && NoDelimiter(b)
    requires forall i :: 0 <= i < |c| ==> c[i] != ']' && !IsLineTerminator(c[i])
    requires forall i :: 0 <= i < |d| ==> d[i] != ']' && !IsLineTerminator(d[i])
    ensures Segments(a + ("." + (b + ("['" + c + "']" + ("[" + d + "]"))))) == [a, b, "['" + c + "']", "[" + d + "]"]
  {
    var s3 := "['" + c + "']" + ("[" + d + "]");
    BracketPair(c, d);
    assert s3[0] == '[';
    SegmentsPlain(b, s3);
    SegmentsDot(b + s3);
    SegmentsPlain(a, "." + (b + s3));
  }

  lemma {:induction false} BracketPair(c: string, d: string)
    requires forall i :: 0 <= i < |c| ==> c[i] != ']' && !IsLineTerminator(c[i])
    requires forall i :: 0 <= i < |d| ==> d[i] != ']' && !IsLineTerminator(d[i])
    ensures Segments("['" + c + "']" + ("[" + d + "]")) == ["['" + c + "']", "[" + d + "]"]
  {
    var sc := "['" + c + "']";
    var sd := "[" + d + "]";
    assert Segments(sd) == [sd] by {
      forall i | 0 < i < |sd| - 1 ensures sd[i] != ']' && !IsLineTerminator(sd[i]) {
        assert sd[i] == d[i - 1];
      }
      SegmentsBracket(sd, "");
      assert sd + "" == sd;
    }
    forall i | 0 < i < |sc| - 1 ensures sc[i] != ']' && !IsLineTerminator(sc[i]) {
      if 2 <= i < |sc| - 2 { assert sc[i] == c[i - 2]; }
    }
    SegmentsBracket(sc, sd);
  }

  /** The keys are the cleaned segments. */
  lemma {:induction false} KeysOfSegments(p: string, segs: seq<string>)
    requires Segments(p) == segs
    ensures |PathKeys(p)| == |segs|
    ensures forall k :: 0 <= k < |segs| ==> PathKeys(p)[k] == CleanKey(segs[k])
  {
  }

  lemma {:induction false} CleanPlain(k: string)
    requires |k| > 0 && NoDelimiter(k)
    ensures CleanKey(k) == k
  {
    assert !IsDelimiter(k[0]) && !IsDelimiter(k[|k| - 1]);
  }

  lemma {:induction false} CleanQuoted(c: string)
    ensures CleanKey("['" + c + "']") == c
  {
    var sc := "['" + c + "']";
    assert sc[2..] == c + "']";
    assert (c + "']")[..|c|] == c;
  }

  lemma {:induction false} CleanIndex(d: string)
    requires forall i :: 0 <= i < |d| ==> !IsQuote(d[i])
    ensures CleanKey("[" + d + "]") == d
  {
    var sd := "[" + d + "]";
    assert sd[1..] == d + "]";
    assert (d + "]")[..|d|] == d;
    assert |d| > 0 ==> (d + "]")[|d| - 1] == d[|d| - 1];
  }

  // ---------------------------------------------------------------------------
  // Fail-soft path lookup: `get(obj, path, defaultValue)`
  // ---------------------------------------------------------------------------

  /** Follows `keys` from `cur`; a `null`/`undefined` reached before the last key, or an
      `undefined` at the end, gives `default`. */
  function Walk(cur: Value, keys: seq<string>, default: Value): (r: Value)
    ensures r == default || !r.Undefined?
    ensures keys != [] && IsNullish(cur) ==> r == default
    decreases |keys|
  {
    if keys == [] then (if cur.Undefined? then default else cur)
    else if IsNullish(cur) then default
    else Walk(Prop(cur, keys[0]), keys[1..], default)
  }

  /** What `get` returns. */
  function GetPath(obj: Value, path: string, default: Value): (r: Value)
    ensures r == default || !r.Undefined?
    ensures Trim(path) == "" && !obj.Undefined? ==> r == obj
  {
    if Trim(path) == "" then (if obj.Undefined? then default else obj)
    else Walk(obj, PathKeys(path), default)
  }

  /** `get`: the path is tokenized, then a loop walks the segments, returning the
      default as soon as the current value is `null` or `undefined`. */
  method Get(obj: Value, path: string, default: Value) returns (r: Value)
    ensures r == GetPath(obj, path, default)
  {
    if Trim(path) == "" {
      return if obj.Undefined? then default else obj;
    }
    var segments := Segments(path);
    ghost var keys := PathKeys(path);
    var current := obj;
    for i := 0 to |segments|
      invariant Walk(current, keys[i..], default) == Walk(obj, keys, default)
    {
      if IsNullish(current) {
        return default;
      }
      var key := CleanKey(segments[i]);
      assert keys[i..][1..] == keys[i + 1..];
      current := Prop(current, key);
    }
    return if current.Undefined? then default else current;
  }

  /** Looking up a dotted path of plain keys reads those properties one after the
      other, failing soft at the first `null` or `undefined`. */
  lemma {:induction false} DottedLookup(obj: Value, keys: seq<string>, default: Value)
    requires |keys| > 0
    requires forall k :: 0 <= k < |keys| ==> |keys[k]| > 0 && NoDelimiter(keys[k]) && !IsSpace(keys[k][0])
    ensures GetPath(obj, DottedPath(keys), default) == Walk(obj, keys, default)
  {
    var p := DottedPath(keys);
    DottedPathRoundTrip(keys);
    DottedHead(keys);
    TrimNonEmpty(p, 0);
    assert Trim(p) != "";
  }

  /** A dotted path starts with the first character of its first key. */
  lemma DottedHead(keys: seq<string>)
    requires |keys| > 0 && |keys[0]| > 0
    ensures |DottedPath(keys)| > 0 && DottedPath(keys)[0] == keys[0][0]
  {
    if |keys| > 1 {
      assert DottedPath(keys) == keys[0] + ("." + DottedPath(keys[1..]));
    }
  }

  // ---------------------------------------------------------------------------
  // The two whole-string forms
  // ---------------------------------------------------------------------------

  /** `/^{{\s*input\s*}}$/` on an already trimmed string. */
  predicate IsInputForm(t: string) {
    |t| >= 4 && t[0] == '{' && t[1] == '{' && t[|t| - 2..] == "}}" && Trim(t[2..|t| - 2]) == "input"
  }

  datatype NodeRef = NodeRef(lbl: string, rawPath: string)

  /** `/^{{\s*\$node\['(.*?)'\]\.output(.*?)?\s*}}$/` on an already trimmed string: the
      lbl, and the raw path (the text between `.output` and the white space before
      the final `}}`). The path group takes the shortest text of one character or more
      that leaves only white space before `}}`; when that text is itself blank (the
      engine keeps a single space there) the path here is empty, which `PathOf` makes
      of the engine's group too. */
  function WholeNodeRef(t: string): (r: Option<NodeRef>)
    ensures r.Some? ==> NoLineTerminator(r.value.lbl) && NoLineTerminator(r.value.rawPath)
    ensures r.Some? ==> |t| >= 4 && t[0] == '{' && t[1] == '{' && t[|t| - 2..] == "}}"
  {
    if |t| < 2 || t[0] != '{' || t[1] != '{' then None
    else
      var i := 2 + SpaceRun(t[2..]);
      if !OccursAt(t, "$node['", i) then None
      else
        var ls := i + 7;
        match IndexOf(t, "'].output", ls)
        case None => None
        case Some(o) =>
          var lbl := t[ls..o];
          var rest := t[o + 9..];
          if !NoLineTerminator(lbl) || |rest| < 2 || rest[|rest| - 2..] != "}}" then None
          else
            var p := TrimEnd(rest[..|rest| - 2]);
            if NoLineTerminator(p) then Some(NodeRef(lbl, p)) else None
  }

  /** `rawPath ? rawPath.trim().replace(/^\./, '') : ''`. */
  function PathOf(rawPath: string): string
  {
    var t := Trim(rawPath);
    if |t| > 0 && t[0] == '.' then t[1..] else t
  }

  // ---------------------------------------------------------------------------
  // Inline substitution
  // ---------------------------------------------------------------------------

  /** Length of a `{{\s*input\s*}}` match at the very start of `s`. */
  function InputAt(s: string): (r: Option<nat>)
    ensures r.Some? ==> 9 <= r.value <= |s| && s[0] == '{'
  {
    if |s| < 2 || s[0] != '{' || s[1] != '{' then None
    else
      var i := 2 + SpaceRun(s[2..]);
      if !OccursAt(s, "input", i) then None
      else
        var j := i + 5 + SpaceRun(s[i + 5..]);
        if OccursAt(s, "}}", j) then Some(j + 2) else None
  }

  /** `str.replace(/{{\s*input\s*}}/g, () => text)`: left to right, each match replaced,
      the replacement text not scanned again. */
  function ReplaceInputs(s: string, text: string): string
    decreases |s|
  {
    if s == [] then []
    else match InputAt(s)
      case Some(n) => text + ReplaceInputs(s[n..], text)
      case None => [s[0]] + ReplaceInputs(s[1..], text)
  }

  datatype InlineRef = InlineRef(lbl: string, rawPath: string, len: nat)

  /** Where the lazy path group `(.*?)`, started at `p - 1`, stops when it takes at least
      one character: the first `}}` at `p` or later with no line terminator between
      `p - 1` and it. */
  function CloseFrom(s: string, p: nat): (r: Option<nat>)
    requires 1 <= p
    ensures r.Some? ==> p <= r.value && OccursAt(s, "}}", r.value) && NoLineTerminator(s[p - 1..r.value])
    decreases |s| - p
  {
    if p + 2 > |s| then None
    else if IsLineTerminator(s[p - 1]) then None
    else if OccursAt(s, "}}", p) then Some(p)
    else
      var r := CloseFrom(s, p + 1);
      assert r.Some? ==> s[p - 1..r.value] == [s[p - 1]] + s[p..r.value];
      r
  }

  /** The optional path group `(.*?)?` and the closing `}}`, the path starting at `b`.
      The group is greedy and may not match empty, so it first tries one character or
      more, up to the first `}}` on the same line; only when there is none does it match
      nothing, and then `}}` must follow at once. */
  function RefTail(s: string, lbl: string, b: nat): (r: Option<InlineRef>)
    requires b <= |s|
    ensures r.Some? ==> b < r.value.len <= |s|
  {
    match CloseFrom(s, b + 1)
    case Some(c) => Some(InlineRef(lbl, s[b..c], c + 2))
    case None => if OccursAt(s, "}}", b) then Some(InlineRef(lbl, "", b + 2)) else None
  }

  /** A `{{\s*\$node\['(.*?)'\]\.output(.*?)?}}` match at the very start of `s`: label,
      raw path and the length of the matched text. */
  function NodeRefAt(s: string): (r: Option<InlineRef>)
    ensures r.Some? ==> 0 < r.value.len <= |s| && s[0] == '{'
  {
    if |s| < 2 || s[0] != '{' || s[1] != '{' then None
    else
      var i := 2 + SpaceRun(s[2..]);
      if !OccursAt(s, "$node['", i) then None
      else
        var ls := i + 7;
        match IndexOf(s, "'].output", ls)
        case None => None
        case Some(o) =>
          var lbl := s[ls..o];
          if !NoLineTerminator(lbl) then None
          else RefTail(s, lbl, o + 9)
  }

  /** The replacement callback: the resolved value as text, or the matched text itself
      when the label is unknown, the node has no output, or the path reads `undefined`. */
  function RefText(r: InlineRef, matched: string, nodes: seq<Node>, outputs: map<string, Value>, c: Codec): string
  {
    match FindByLabel(nodes, r.lbl)
    case None => matched
    case Some(n) =>
      if n.id !in outputs || outputs[n.id].Undefined? then matched
      else
        var v := GetPath(outputs[n.id], PathOf(r.rawPath), Undefined);
        if v.Undefined? then matched else SpliceText(c, v)
  }

  /** The second `replace`, over node references. */
  function ReplaceNodeRefs(s: string, nodes: seq<Node>, outputs: map<string, Value>, c: Codec): string
    decreases |s|
  {
    if s == [] then []
    else match NodeRefAt(s)
      case Some(r) => RefText(r, s[..r.len], nodes, outputs, c) + ReplaceNodeRefs(s[r.len..], nodes, outputs, c)
      case None => [s[0]] + ReplaceNodeRefs(s[1..], nodes, outputs, c)
  }

  // ---------------------------------------------------------------------------
  // resolveExpressions
  // ---------------------------------------------------------------------------

  /** `resolveExpressions(template, nodes, nodeOutputs, directInput)`. */
  function Resolve(template: Value, nodes: seq<Node>, outputs: map<string, Value>, input: Value, c: Codec): (r: Value)
    ensures !template.Str? ==> r == template
  {
    if !template.Str? then template
    else
      var str := template.s;
      var t := Trim(str);
      if IsInputForm(t) then input
      else match WholeNodeRef(t)
        case Some(ref) =>
          (match FindByLabel(nodes, ref.lbl)
           case None => template
           case Some(n) =>
             if n.id !in outputs || outputs[n.id].Undefined? then template
             else GetPath(outputs[n.id], PathOf(ref.rawPath), template))
        case None =>
          Str(ReplaceNodeRefs(ReplaceInputs(str, SpliceText(c, input)), nodes, outputs, c))
  }

  // ---------------------------------------------------------------------------
  // Properties
  // ---------------------------------------------------------------------------

  /** The two whole-string forms exclude each other: after `{{` and white space one
      continues with `input`, the other with `$node['`. */
  lemma {:induction false} InputFormIsNoNodeRef(t: string)
    requires IsInputForm(t)
    ensures WholeNodeRef(t).None?
  {
    InputFormLeads(t);
    var i := 2 + SpaceRun(t[2..]);
    assert !OccursAt(t, "$node['", i) by {
      if i + 7 <= |t| {
        assert t[i..i + 7][0] == t[i];
      }
    }
    NodeRefNeedsMarker(t);
  }

  /** In the input form the first character after `{{` and white space is the `i` of
      `input`. */
  lemma {:induction false} InputFormLeads(t: string)
    requires IsInputForm(t)
    ensures |t| >= 2 && 2 + SpaceRun(t[2..]) < |t| && t[2 + SpaceRun(t[2..])] == 'i'
  {
    var m := t[2..|t| - 2];
    var k := |m| - |TrimStart(m)|;
    assert k < |m| && m[k] == 'i' by {
      assert Trim(m) == "input";
      TrimFirst(m);
      assert Trim(m)[0] == 'i';
    }
    assert SpaceRun(t[2..]) == k by {
      assert AllSpace(m[..k]);
      forall j | 0 <= j < k ensures IsSpace(t[2..][..k][j]) {
        assert t[2..][..k][j] == m[..k][j];
      }
      assert t[2..][k] == m[k];
      TrimStartSkips(t[2..], k);
    }
    assert t[2 + k] == m[k];
  }

  /** After `{{` and white space a whole-string reference goes on with `$node['`. */
  lemma {:induction false} NodeRefNeedsMarker(t: string)
    requires |t| >= 2 && !OccursAt(t, "$node['", 2 + SpaceRun(t[2..]))
    ensures WholeNodeRef(t).None?
  {
  }

  /** Trimming drops exactly the leading white space run. */
  lemma {:induction false} TrimStartSkips(s: string, k: nat)
    requires k < |s| && AllSpace(s[..k]) && !IsSpace(s[k])
    ensures TrimStart(s) == s[k..]
  {
    if k > 0 {
      calc {
        TrimStart(s);
      == { assert IsSpace(s[0]); }
        TrimStart(s[1..]);
      == { assert s[1..][..k - 1] == s[1..k];
           TrimStartSkips(s[1..], k - 1); }
        s[1..][k - 1..];
      == { assert s[1..][k - 1..] == s[k..]; }
        s[k..];
      }
    }
  }

  /** A template that is `{{input}}` once trimmed (white space allowed inside the braces
      too) resolves to the direct input itself, whatever its type. */
  lemma {:induction false} WholeInputIsIdentity(a: string, b: string, d: string, e: string,
                                               nodes: seq<Node>, outputs: map<string, Value>, input: Value, c: Codec)
    requires AllSpace(a) && AllSpace(b) && AllSpace(d) && AllSpace(e)
    ensures Resolve(Str(a + ("{{" + (b + "input" + d) + "}}") + e), nodes, outputs, input, c) == input
  {
    var core := "{{" + (b + "input" + d) + "}}";
    InputCoreForm(b, d);
    InputFormTrimmed(a, core, e);
    ResolveInputForm(a + core + e, nodes, outputs, input, c);
  }

  lemma {:induction false} InputCoreForm(b: string, d: string)
    requires AllSpace(b) && AllSpace(d)
    ensures IsInputForm("{{" + (b + "input" + d) + "}}")
  {
    var inner := b + "input" + d;
    var core := "{{" + inner + "}}";
    assert core[2..|core| - 2] == inner by {
      assert ("{{" + inner)[2..] == inner;
      assert core[..|core| - 2] == "{{" + inner;
    }
    TrimAround(b, "input", d);
    assert core[|core| - 2..] == "}}";
  }

  lemma {:induction false} InputFormTrimmed(a: string, core: string, e: string)
    requires AllSpace(a) && AllSpace(e) && IsInputForm(core)
    ensures IsInputForm(Trim(a + core + e))
  {
    TrimAround(a, core, e);
  }

  lemma {:induction false} ResolveInputForm(str: string, nodes: seq<Node>, outputs: map<string, Value>, input: Value, c: Codec)
    requires IsInputForm(Trim(str))
    ensures Resolve(Str(str), nodes, outputs, input, c) == input
  {
  }

  /** Trimming text surrounded by white space gives the text back when it neither
      starts nor ends with white space. */
  lemma {:induction false} TrimAround(a: string, m: string, e: string)
    requires AllSpace(a) && AllSpace(e) && |m| > 0 && !IsSpace(m[0]) && !IsSpace(m[|m| - 1])
    ensures Trim(a + m + e) == m
  {
    var s := a + m + e;
    assert s[..|a|] == a && s[|a|] == m[0];
    TrimStartSkips(s, |a|);
    assert s[|a|..] == m + e;
    TrimEndSkips(m + e, |m|);
  }

  lemma {:induction false} TrimEndSkips(s: string, k: nat)
    requires 0 < k <= |s| && AllSpace(s[k..]) && !IsSpace(s[k - 1])
    ensures TrimEnd(s) == s[..k]
  {
    if k < |s| {
      assert s[..|s| - 1][k..] == s[k..|s| - 1];
      TrimEndSkips(s[..|s| - 1], k);
      assert s[..|s| - 1][..k] == s[..k];
    }
  }

  /** The two whole-string forms exclude each other, seen from the node reference. */
  lemma {:induction false} NodeRefIsNoInputForm(t: string)
    requires WholeNodeRef(t).Some?
    ensures !IsInputForm(t)
  {
    if IsInputForm(t) {
      InputFormIsNoNodeRef(t);
    }
  }

  /** A whole-string node reference whose label matches no node, or whose node has no
      recorded output, resolves to the original template, untrimmed. */
  lemma {:induction false} WholeRefMissFailsSoft(str: string, nodes: seq<Node>, outputs: map<string, Value>, input: Value, c: Codec)
    requires WholeNodeRef(Trim(str)).Some?
    requires var l := WholeNodeRef(Trim(str)).value.lbl;
      FindByLabel(nodes, l).None? || FindByLabel(nodes, l).value.id !in outputs
      || outputs[FindByLabel(nodes, l).value.id].Undefined?
    ensures Resolve(Str(str), nodes, outputs, input, c) == Str(str)
  {
    NodeRefIsNoInputForm(Trim(str));
  }

  /** A whole-string node reference whose node has an output reads the path in that
      output, with the original template as the fallback: the value keeps its type
      (an object stays an object), and an empty path gives the output itself. */
  lemma {:induction false} WholeRefHit(str: string, nodes: seq<Node>, outputs: map<string, Value>, input: Value, c: Codec)
    requires WholeNodeRef(Trim(str)).Some?
    requires FindByLabel(nodes, WholeNodeRef(Trim(str)).value.lbl).Some?
    requires var id := FindByLabel(nodes, WholeNodeRef(Trim(str)).value.lbl).value.id;
      id in outputs && !outputs[id].Undefined?
    ensures var ref := WholeNodeRef(Trim(str)).value;
      var out := outputs[FindByLabel(nodes, ref.lbl).value.id];
      && Resolve(Str(str), nodes, outputs, input, c) == GetPath(out, PathOf(ref.rawPath), Str(str))
      && (Trim(PathOf(ref.rawPath)) == "" ==> Resolve(Str(str), nodes, outputs, input, c) == out)
  {
    NodeRefIsNoInputForm(Trim(str));
  }

  /** A template without `{` resolves to itself. */
  lemma {:induction false} PlainTemplateResolvesToItself(s: string, nodes: seq<Node>, outputs: map<string, Value>, input: Value, c: Codec)
    requires forall i :: 0 <= i < |s| ==> s[i] != '{'
    ensures Resolve(Str(s), nodes, outputs, input, c) == Str(s)
  {
    var t := Trim(s);
    assert t == [] || t[0] != '{' by {
      if t != [] {
        TrimFirst(s);
      }
    }
    assert !IsInputForm(t);
    assert WholeNodeRef(t).None?;
    PlainTextUntouched(s, SpliceText(c, input), nodes, outputs, c);
  }

  /** A rewriting that copies any first character other than `{` copies a whole prefix
      free of `{`. */
  lemma {:induction false} CopiesPlainPrefix(f: string -> string, p: string, s: string)
    requires forall x :: x != [] && x[0] != '{' ==> f(x) == [x[0]] + f(x[1..])
    requires forall i :: 0 <= i < |p| ==> p[i] != '{'
    ensures f(p + s) == p + f(s)
  {
    if p != [] {
      calc {
        f(p + s);
      == { assert (p + s)[0] == p[0]; }
        [p[0]] + f((p + s)[1..]);
      == { assert (p + s)[1..] == p[1..] + s; }
        [p[0]] + f(p[1..] + s);
      == { CopiesPlainPrefix(f, p[1..], s); }
        [p[0]] + (p[1..] + f(s));
      == { assert p == [p[0]] + p[1..]; }
        p + f(s);
      }
    } else {
      assert p + s == s;
    }
  }

  /** Text before the first `{` passes through the input substitution unchanged. */
  lemma InputsAfterPlainPrefix(p: string, s: string, text: string)
    requires forall i :: 0 <= i < |p| ==> p[i] != '{'
    ensures ReplaceInputs(p + s, text) == p + ReplaceInputs(s, text)
  {
    var f := (x: string) => ReplaceInputs(x, text);
    forall x | x != [] && x[0] != '{'
      ensures f(x) == [x[0]] + f(x[1..])
    {
      InputsStep(x, text);
    }
    CopiesPlainPrefix(f, p, s);
  }

  /** One character that cannot open a match is copied. */
  lemma {:induction false} InputsStep(s: string, text: string)
    requires s != [] && s[0] != '{'
    ensures ReplaceInputs(s, text) == [s[0]] + ReplaceInputs(s[1..], text)
  {
    assert InputAt(s).None?;
  }

  /** In inline mode each `{{input}}` becomes the input's text: the input itself when it
      is a string, its JSON serialisation otherwise. */
  lemma {:induction false} InputTokenReplaced(p: string, q: string, text: string)
    requires forall i :: 0 <= i < |p| ==> p[i] != '{'
    ensures ReplaceInputs(p + "{{input}}" + q, text) == p + text + ReplaceInputs(q, text)
  {
    var s := "{{input}}" + q;
    assert p + "{{input}}" + q == p + s;
    InputsAfterPlainPrefix(p, s, text);
    InputAtToken(q);
    assert s[9..] == q;
    assert ReplaceInputs(s, text) == text + ReplaceInputs(q, text);
    assert p + (text + ReplaceInputs(q, text)) == p + text + ReplaceInputs(q, text);
  }

  /** `{{input}}` with no white space inside is a match of nine characters. */
  lemma {:induction false} InputAtToken(q: string)
    ensures InputAt("{{input}}" + q) == Some(9)
  {
    var s := "{{input}}" + q;
    assert s[..9] == "{{input}}";
    assert s[0] == '{' && s[1] == '{';
    assert SpaceRun(s[2..]) == 0 by {
      SpaceRunZero(s[2..]);
    }
    assert OccursAt(s, "input", 2) by {
      assert s[2..7] == s[..9][2..7];
    }
    assert SpaceRun(s[7..]) == 0 by {
      SpaceRunZero(s[7..]);
    }
    assert OccursAt(s, "}}", 7) by {
      assert s[7..9] == s[..9][7..];
    }
    InputAtParts(s);
  }

  /** The steps of `InputAt` for `{{input}}` with no white space inside. */
  lemma {:induction false} InputAtParts(s: string)
    requires |s| >= 2 && s[0] == '{' && s[1] == '{' && SpaceRun(s[2..]) == 0 && OccursAt(s, "input", 2)
    requires SpaceRun(s[7..]) == 0 && OccursAt(s, "}}", 7)
    ensures InputAt(s) == Some(9)
  {
  }

  /** Text before the first `{` passes through the node-reference substitution unchanged. */
  lemma RefsAfterPlainPrefix(p: string, s: string, nodes: seq<Node>, outputs: map<string, Value>, c: Codec)
    requires forall i :: 0 <= i < |p| ==> p[i] != '{'
    ensures ReplaceNodeRefs(p + s, nodes, outputs, c) == p + ReplaceNodeRefs(s, nodes, outputs, c)
  {
    var f := (x: string) => ReplaceNodeRefs(x, nodes, outputs, c);
    forall x | x != [] && x[0] != '{'
      ensures f(x) == [x[0]] + f(x[1..])
    {
      RefsStep(x, nodes, outputs, c);
    }
    CopiesPlainPrefix(f, p, s);
  }

  /** One character that cannot open a match is copied. */
  lemma {:induction false} RefsStep(s: string, nodes: seq<Node>, outputs: map<string, Value>, c: Codec)
    requires s != [] && s[0] != '{'
    ensures ReplaceNodeRefs(s, nodes, outputs, c) == [s[0]] + ReplaceNodeRefs(s[1..], nodes, outputs, c)
  {
    assert NodeRefAt(s).None?;
  }

  /** Text that contains no `{` is left as it is by both substitutions. */
  lemma {:induction false} PlainTextUntouched(s: string, text: string, nodes: seq<Node>, outputs: map<string, Value>, c: Codec)
    requires forall i :: 0 <= i < |s| ==> s[i] != '{'
    ensures ReplaceInputs(s, text) == s
    ensures ReplaceNodeRefs(s, nodes, outputs, c) == s
  {
    assert s + [] == s;
    InputsAfterPlainPrefix(s, [], text);
    RefsAfterPlainPrefix(s, [], nodes, outputs, c);
  }

  /** A label the reference syntax can carry: one line, and no `'].output` inside. */
  predicate SafeLabel(lbl: string) {
    NoLineTerminator(lbl) && !Contains(lbl, "'].output")
  }

  /** A path the lazy path group takes whole: one line, and no `}}` that starts inside
      it at offset 1 or later, counting the closing `}}`. */
  predicate WholePath(path: string) {
    var t := path + "}}";
    NoLineTerminator(path) && forall j :: 1 <= j < |path| ==> !OccursAt(t, "}}", j)
  }

  /** Text after a reference's closing `}}` that holds another `}}` on the same line, so
      that the path group of a reference with an empty path runs on to it. */
  predicate RunsOn(q: string) {
    CloseFrom("}}" + q, 1).Some?
  }

  /** `RefExpr(lbl, path)` followed by `q` is matched as one reference, no more, no less. */
  predicate MatchedAlone(lbl: string, path: string, q: string) {
    SafeLabel(lbl) && WholePath(path) && (path != [] || !RunsOn(q))
  }

  /** `{{$node['<label>'].output<path>}}`: a reference to a node's output, or to a part
      of it. */
  function RefExpr(lbl: string, path: string): string {
    "{{$node['" + lbl + "'].output" + path + "}}"
  }

  /** Where the label of `RefExpr(lbl, path) + q` sits. */
  lemma {:induction false} RefExprLabel(lbl: string, path: string, q: string)
    ensures var s := RefExpr(lbl, path) + q; var n := |lbl|;
      && |s| == 20 + n + |path| + |q|
      && s[0] == '{' && s[1] == '{' && s[2] == '$'
      && s[2..9] == "$node['" && s[9..9 + n] == lbl && s[9 + n..18 + n] == "'].output"
  {
    var s := RefExpr(lbl, path) + q;
    var n := |lbl|;
    var open := "{{$node['";
    var head := open + lbl;
    var tail := "'].output";
    assert s == head + tail + (path + "}}" + q);
    assert s[..9 + n] == head && s[9 + n..18 + n] == tail;
    assert head[..9] == open && head[9..] == lbl;
    assert s[0] == open[0] && s[1] == open[1] && s[2] == open[2];
    assert s[2..9] == open[2..];
    assert s[9..9 + n] == head[9..];
  }

  /** Where the path of `RefExpr(lbl, path) + q` sits. */
  lemma {:induction false} RefExprPath(lbl: string, path: string, q: string)
    ensures var s := RefExpr(lbl, path) + q; var b := 18 + |lbl|;
      && |s| == b + |path| + 2 + |q|
      && s[b..] == path + "}}" + q
  {
    var s := RefExpr(lbl, path) + q;
    var head := "{{$node['" + lbl + "'].output";
    assert s == head + (path + "}}" + q);
    assert |head| == 18 + |lbl|;
  }

  /** In `RefExpr(lbl, path) + q` the first `'].output` after `$node['` is the one that
      closes the label. */
  lemma {:induction false} LabelEndsAtMarker(lbl: string, path: string, q: string)
    requires SafeLabel(lbl)
    ensures IndexOf(RefExpr(lbl, path) + q, "'].output", 9) == Some(9 + |lbl|)
  {
    var s := RefExpr(lbl, path) + q;
    var m := "'].output";
    RefExprLabel(lbl, path, q);
    forall j | 9 <= j < 9 + |lbl| ensures !OccursAt(s, m, j) {
      if j + 9 <= 9 + |lbl| {
        assert s[j..j + 9] == lbl[j - 9..j];
        assert !OccursAt(lbl, m, j - 9);
      } else {
        MarkerOverlap(s, j, 9 + |lbl|);
      }
    }
    assert OccursAt(s, m, 9 + |lbl|);
  }

  /** `'].output` cannot start a second time inside one of its occurrences. */
  lemma {:induction false} MarkerOverlap(s: string, j: nat, e: nat)
    requires OccursAt(s, "'].output", e) && j < e < j + 9
    ensures !OccursAt(s, "'].output", j)
  {
    assert s[e] == '\'';
    if j + 9 <= |s| {
      assert s[j..j + 9][e - j] == s[e];
    }
  }

  /** The path group stops at the `}}` at `k` when none starts between `p` and `k`. */
  lemma {:induction false} CloseFromReaches(s: string, p: nat, k: nat)
    requires 1 <= p <= k && OccursAt(s, "}}", k) && NoLineTerminator(s[p - 1..k])
    requires forall j :: p <= j < k ==> !OccursAt(s, "}}", j)
    ensures CloseFrom(s, p) == Some(k)
    decreases k - p
  {
    assert !IsLineTerminator(s[p - 1]) by {
      assert s[p - 1] == s[p - 1..k][0];
    }
    if p < k {
      var u := s[p..k];
      forall i | 0 <= i < |u| ensures !IsLineTerminator(u[i]) {
        assert u[i] == s[p - 1..k][i + 1];
      }
      CloseFromReaches(s, p + 1, k);
    }
  }

  /** The path group finds a `}}` in a suffix exactly when it finds one in the whole. */
  lemma {:induction false} CloseFromShift(s: string, d: nat, y: string, p: nat)
    requires d <= |s| && s[d..] == y && 1 <= p
    ensures CloseFrom(s, d + p).None? <==> CloseFrom(y, p).None?
    decreases |y| - p
  {
    assert |s| == d + |y|;
    if p + 2 <= |y| {
      assert s[d + p - 1] == y[p - 1] && s[d + p] == y[p] && s[d + p + 1] == y[p + 1];
      ClosingPair(s, d + p);
      ClosingPair(y, p);
      if !IsLineTerminator(y[p - 1]) && !OccursAt(y, "}}", p) {
        CloseFromShift(s, d, y, p + 1);
      }
    }
  }

  /** The steps of `NodeRefAt` up to the path: `{{`, no white space, `$node['`, and the
      label up to the marker at `o`. */
  lemma {:induction false} NodeRefAtParts(s: string, o: nat)
    requires |s| >= 2 && s[0] == '{' && s[1] == '{' && SpaceRun(s[2..]) == 0 && OccursAt(s, "$node['", 2)
    requires IndexOf(s, "'].output", 9) == Some(o) && NoLineTerminator(s[9..o])
    ensures o + 9 <= |s| && NodeRefAt(s) == RefTail(s, s[9..o], o + 9)
  {
  }

  /** `RefExpr(lbl, path)` matched alone is a match of its full length, whose raw path is
      `path`. */
  lemma {:induction false} NodeRefAtHead(lbl: string, path: string, q: string)
    requires MatchedAlone(lbl, path, q)
    ensures NodeRefAt(RefExpr(lbl, path) + q) == Some(InlineRef(lbl, path, |RefExpr(lbl, path)|))
  {
    var s := RefExpr(lbl, path) + q;
    RefExprLabel(lbl, path, q);
    LabelEndsAtMarker(lbl, path, q);
    assert SpaceRun(s[2..]) == 0 by {
      assert s[2..][0] == '$';
    }
    NodeRefAtParts(s, 9 + |lbl|);
    if path != [] {
      PathTail(lbl, path, q);
    } else {
      EmptyPathTail(lbl, q);
    }
  }

  /** A non-empty path is taken whole, whatever follows. */
  lemma {:induction false} PathTail(lbl: string, path: string, q: string)
    requires WholePath(path) && path != []
    ensures var s := RefExpr(lbl, path) + q;
      18 + |lbl| <= |s| && RefTail(s, lbl, 18 + |lbl|) == Some(InlineRef(lbl, path, |RefExpr(lbl, path)|))
  {
    var s := RefExpr(lbl, path) + q;
    var b := 18 + |lbl|;
    RefExprPath(lbl, path, q);
    assert s[b..b + |path| + 2] == path + "}}" by {
      assert s[b..][..|path| + 2] == path + "}}";
    }
    PathCloses(s, b, path);
  }

  /** The path group run over a whole path stops at the `}}` right after it. */
  lemma {:induction false} PathCloses(s: string, b: nat, path: string)
    requires WholePath(path) && path != []
    requires b + |path| + 2 <= |s| && s[b..b + |path| + 2] == path + "}}"
    ensures CloseFrom(s, b + 1) == Some(b + |path|) && s[b..b + |path|] == path
  {
    var m := |path|;
    var t := path + "}}";
    var u := s[b..b + m + 2];
    forall i | 0 <= i < m ensures s[b..b + m][i] == path[i] {
      assert s[b + i] == u[i] == t[i];
    }
    assert s[b..b + m] == path;
    assert OccursAt(s, "}}", b + m) by {
      ClosingPair(s, b + m);
      assert s[b + m] == u[m] && s[b + m + 1] == u[m + 1];
    }
    forall j | b + 1 <= j < b + m ensures !OccursAt(s, "}}", j) {
      ClosingPair(s, j);
      ClosingPair(t, j - b);
      assert s[j] == u[j - b] && s[j + 1] == u[j - b + 1];
      assert !OccursAt(t, "}}", j - b);
    }
    CloseFromReaches(s, b + 1, b + m);
  }

  /** `}}` occurs at `j` exactly when the characters there are two `}`. */
  lemma {:induction false} ClosingPair(s: string, j: nat)
    requires j + 2 <= |s|
    ensures OccursAt(s, "}}", j) <==> s[j] == '}' && s[j + 1] == '}'
  {
    var w := s[j..j + 2];
    assert w[0] == s[j] && w[1] == s[j + 1];
    if s[j] == '}' && s[j + 1] == '}' {
      assert w == "}}";
    }
  }

  /** An empty path is matched empty when the text after the reference does not run on. */
  lemma {:induction false} EmptyPathTail(lbl: string, q: string)
    requires !RunsOn(q)
    ensures var s := RefExpr(lbl, "") + q;
      18 + |lbl| <= |s| && RefTail(s, lbl, 18 + |lbl|) == Some(InlineRef(lbl, "", |RefExpr(lbl, "")|))
  {
    var s := RefExpr(lbl, "") + q;
    var b := 18 + |lbl|;
    RefExprPath(lbl, "", q);
    assert s[b..] == "}}" + q;
    CloseFromShift(s, b, "}}" + q, 1);
    assert OccursAt(s, "}}", b) by {
      assert s[b..b + 2] == s[b..][..2];
    }
  }

  /** A reference matched alone is replaced by `RefText` and scanning continues after it. */
  lemma {:induction false} RefStep(p: string, lbl: string, path: string, q: string, nodes: seq<Node>, outputs: map<string, Value>, c: Codec)
    requires forall i :: 0 <= i < |p| ==> p[i] != '{'
    requires MatchedAlone(lbl, path, q)
    ensures var e := RefExpr(lbl, path);
      ReplaceNodeRefs(p + e + q, nodes, outputs, c)
        == p + RefText(InlineRef(lbl, path, |e|), e, nodes, outputs, c) + ReplaceNodeRefs(q, nodes, outputs, c)
  {
    var e := RefExpr(lbl, path);
    RefHeadStep(lbl, path, q, nodes, outputs, c);
    RefsCompose(p, e, q, RefText(InlineRef(lbl, path, |e|), e, nodes, outputs, c), nodes, outputs, c);
  }

  /** A prefix without `{` in front of a piece whose replacement is known. */
  lemma {:induction false} RefsCompose(p: string, e: string, q: string, t: string, nodes: seq<Node>, outputs: map<string, Value>, c: Codec)
    requires forall i :: 0 <= i < |p| ==> p[i] != '{'
    requires ReplaceNodeRefs(e + q, nodes, outputs, c) == t + ReplaceNodeRefs(q, nodes, outputs, c)
    ensures ReplaceNodeRefs(p + e + q, nodes, outputs, c) == p + t + ReplaceNodeRefs(q, nodes, outputs, c)
  {
    var rest := ReplaceNodeRefs(q, nodes, outputs, c);
    RefsAfterPlainPrefix(p, e + q, nodes, outputs, c);
    ConcatThree(p, e, q);
    ConcatThree(p, t, rest);
  }

  lemma {:induction false} ConcatThree(a: string, b: string, c: string)
    ensures a + b + c == a + (b + c)
  {
  }

  /** `RefStep` with nothing before the reference. */
  lemma {:induction false} RefHeadStep(lbl: string, path: string, q: string, nodes: seq<Node>, outputs: map<string, Value>, c: Codec)
    requires MatchedAlone(lbl, path, q)
    ensures var e := RefExpr(lbl, path);
      ReplaceNodeRefs(e + q, nodes, outputs, c)
        == RefText(InlineRef(lbl, path, |e|), e, nodes, outputs, c) + ReplaceNodeRefs(q, nodes, outputs, c)
  {
    var e := RefExpr(lbl, path);
    var s := e + q;
    var r := InlineRef(lbl, path, |e|);
    NodeRefAtHead(lbl, path, q);
    RefMatchStep(s, r, nodes, outputs, c);
    assert s[..|e|] == e && s[|e|..] == q;
  }

  /** A match is replaced by `RefText` and scanning resumes after it. */
  lemma {:induction false} RefMatchStep(s: string, r: InlineRef, nodes: seq<Node>, outputs: map<string, Value>, c: Codec)
    requires NodeRefAt(s) == Some(r)
    ensures ReplaceNodeRefs(s, nodes, outputs, c)
      == RefText(r, s[..r.len], nodes, outputs, c) + ReplaceNodeRefs(s[r.len..], nodes, outputs, c)
  {
  }

  /** In inline mode a reference to a label no node carries is left verbatim. */
  lemma {:induction false} UnknownLabelLeftVerbatim(p: string, lbl: string, path: string, q: string, nodes: seq<Node>, outputs: map<string, Value>, c: Codec)
    requires forall i :: 0 <= i < |p| ==> p[i] != '{'
    requires MatchedAlone(lbl, path, q)
    requires FindByLabel(nodes, lbl).None?
    ensures var e := RefExpr(lbl, path);
      ReplaceNodeRefs(p + e + q, nodes, outputs, c) == p + e + ReplaceNodeRefs(q, nodes, outputs, c)
  {
    RefStep(p, lbl, path, q, nodes, outputs, c);
  }

  /** In inline mode a reference to a node that has no output yet is left verbatim. */
  lemma {:induction false} NoOutputLeftVerbatim(p: string, lbl: string, path: string, q: string, nodes: seq<Node>, outputs: map<string, Value>, c: Codec)
    requires forall i :: 0 <= i < |p| ==> p[i] != '{'
    requires MatchedAlone(lbl, path, q)
    requires FindByLabel(nodes, lbl).Some?
    requires var id := FindByLabel(nodes, lbl).value.id; id !in outputs || outputs[id].Undefined?
    ensures var e := RefExpr(lbl, path);
      ReplaceNodeRefs(p + e + q, nodes, outputs, c) == p + e + ReplaceNodeRefs(q, nodes, outputs, c)
  {
    RefStep(p, lbl, path, q, nodes, outputs, c);
  }

  /** In inline mode a reference whose path reads `undefined` in the node's output is
      left verbatim. */
  lemma {:induction false} UndefinedPathLeftVerbatim(p: string, lbl: string, path: string, q: string, nodes: seq<Node>, outputs: map<string, Value>, c: Codec)
    requires forall i :: 0 <= i < |p| ==> p[i] != '{'
    requires MatchedAlone(lbl, path, q)
    requires FindByLabel(nodes, lbl).Some?
    requires var id := FindByLabel(nodes, lbl).value.id; id in outputs && !outputs[id].Undefined?
    requires GetPath(outputs[FindByLabel(nodes, lbl).value.id], PathOf(path), Undefined).Undefined?
    ensures var e := RefExpr(lbl, path);
      ReplaceNodeRefs(p + e + q, nodes, outputs, c) == p + e + ReplaceNodeRefs(q, nodes, outputs, c)
  {
    RefStep(p, lbl, path, q, nodes, outputs, c);
  }

  /** In inline mode a reference that reads a defined value is replaced by that value's
      text: a string as it is, anything else JSON-serialised; with an empty path the
      value is the node's whole output. */
  lemma {:induction false} KnownLabelSpliced(p: string, lbl: string, path: string, q: string, nodes: seq<Node>, outputs: map<string, Value>, c: Codec)
    requires forall i :: 0 <= i < |p| ==> p[i] != '{'
    requires MatchedAlone(lbl, path, q)
    requires FindByLabel(nodes, lbl).Some?
    requires var id := FindByLabel(nodes, lbl).value.id; id in outputs && !outputs[id].Undefined?
    requires !GetPath(outputs[FindByLabel(nodes, lbl).value.id], PathOf(path), Undefined).Undefined?
    ensures var e := RefExpr(lbl, path);
      var out := outputs[FindByLabel(nodes, lbl).value.id];
      ReplaceNodeRefs(p + e + q, nodes, outputs, c)
        == p + SpliceText(c, GetPath(out, PathOf(path), Undefined)) + ReplaceNodeRefs(q, nodes, outputs, c)
    ensures path == "" ==>
      var out := outputs[FindByLabel(nodes, lbl).value.id];
      ReplaceNodeRefs(p + RefExpr(lbl, path) + q, nodes, outputs, c) == p + SpliceText(c, out) + ReplaceNodeRefs(q, nodes, outputs, c)
  {
    RefStep(p, lbl, path, q, nodes, outputs, c);
    if path == "" {
      assert PathOf("") == "";
    }
  }

  /** Characters that neither close a reference nor end a line. */
  predicate Unbraced(x: string) {
    forall i :: 0 <= i < |x| ==> x[i] != '}' && !IsLineTerminator(x[i])
  }

  lemma {:induction false} UnbracedJoin(x: string, y: string)
    requires Unbraced(x) && Unbraced(y)
    ensures Unbraced(x + y)
  {
    forall i | 0 <= i < |x + y| ensures (x + y)[i] != '}' && !IsLineTerminator((x + y)[i]) {
      if i >= |x| {
        assert (x + y)[i] == y[i - |x|];
      }
    }
  }

  /** Two references to whole outputs on one line are one match: the lazy path of the
      first runs on to the `}}` of the second, so the second is never looked up on its
      own, and when the first label is unknown the text stays as it is. */
  lemma {:induction false} AdjacentReferencesOneMatch(p: string, a: string, sep: string, b: string, nodes: seq<Node>, outputs: map<string, Value>, c: Codec)
    requires forall i :: 0 <= i < |p| ==> p[i] != '{'
    requires SafeLabel(a) && Unbraced(sep) && Unbraced(b)
    ensures var s := RefExpr(a, "") + sep + RefExpr(b, "");
      var raw := "}}" + sep + "{{$node['" + b + "'].output";
      && NodeRefAt(s) == Some(InlineRef(a, raw, |s|))
      && ReplaceNodeRefs(p + s, nodes, outputs, c) == p + RefText(InlineRef(a, raw, |s|), s, nodes, outputs, c)
      && (FindByLabel(nodes, a).None? ==> ReplaceNodeRefs(p + s, nodes, outputs, c) == p + s)
  {
    var s := RefExpr(a, "") + sep + RefExpr(b, "");
    var raw := "}}" + sep + "{{$node['" + b + "'].output";
    AdjacentAsOne(a, sep, b);
    RunOnPathWhole(sep, b);
    NodeRefAtHead(a, raw, "");
    RefStep(p, a, raw, "", nodes, outputs, c);
    assert RefExpr(a, raw) + "" == s && p + s + "" == p + s;
  }

  /** Two adjacent references read as one reference whose path spans the gap. */
  lemma {:induction false} AdjacentAsOne(a: string, sep: string, b: string)
    ensures RefExpr(a, "") + sep + RefExpr(b, "") == RefExpr(a, "}}" + sep + "{{$node['" + b + "'].output")
  {
  }

  /** The path that spans the gap between two references is taken whole. */
  lemma {:induction false} RunOnPathWhole(sep: string, b: string)
    requires Unbraced(sep) && Unbraced(b)
    ensures WholePath("}}" + sep + "{{$node['" + b + "'].output")
  {
    var w := sep + "{{$node['" + b + "'].output";
    var raw := "}}" + sep + "{{$node['" + b + "'].output";
    assert raw == "}}" + w;
    assert Unbraced("{{$node['") && Unbraced("'].output");
    UnbracedJoin(sep, "{{$node['");
    UnbracedJoin(sep + "{{$node['", b);
    UnbracedJoin(sep + "{{$node['" + b, "'].output");
    assert |w| > 0;
    var t := raw + "}}";
    forall j | 1 <= j < |raw| ensures !OccursAt(t, "}}", j) {
      if j == 1 {
        assert t[2] == w[0];
      } else {
        assert t[j] == w[j - 2];
      }
    }
    forall i | 0 <= i < |raw| ensures !IsLineTerminator(raw[i]) {
      if i >= 2 {
        assert raw[i] == w[i - 2];
      }
    }
  }
}
