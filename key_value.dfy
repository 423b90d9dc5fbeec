/** The key/value editor: it shows a JSON object as editable key/value rows and writes
    the rows back as JSON. `JSON.parse`, `JSON.stringify` and the pretty printer
    `JSON.stringify(obj, null, 2)` are oracles passed in by the caller. */
module KeyValue {
  import opened Wrappers
  import opened Text
  import opened Json
  import opened GraphEdits

  /** A row as the converters see it. */
  datatype Pair = Pair(key: string, value: string)

  /** A row as the editor keeps it: a pair with an id. */
  datatype Row = Row(id: int, key: string, value: string)

  /** The two fields `handleUpdate` can change. */
  datatype FieldName = KeyField | ValueField

  // ---------------------------------------------------------------------------
  // jsonToKeyValue
  // ---------------------------------------------------------------------------

  /** The text shown for a property value: strings as they are, anything else as
      JSON. */
  function Shown(c: Codec, v: Value): string {
    if v.Str? then v.s else c.stringify(v)
  }

  /** `jsonToKeyValue(jsonString)`: the empty string is read as `{}`; a parse error,
      `null`, an array or any non-object gives no rows; an object gives one row per
      property, in property order. */
  function JsonToKeyValue(c: Codec, json: string): (r: seq<Pair>)
    ensures var parsed := c.parse(if json == "" then "{}" else json);
      !(parsed.Ok? && parsed.value.Obj?) ==> r == []
    ensures var parsed := c.parse(if json == "" then "{}" else json);
      parsed.Ok? && parsed.value.Obj? ==>
        && |r| == |parsed.value.entries|
        && forall i :: 0 <= i < |r| ==>
             r[i].key == parsed.value.entries[i].key
             && (parsed.value.entries[i].val.Str? ==> r[i].value == parsed.value.entries[i].val.s)
             && (!parsed.value.entries[i].val.Str? ==> r[i].value == c.stringify(parsed.value.entries[i].val))
  {
    match c.parse(if json == "" then "{}" else json)
    case Ok(Obj(entries)) =>
      seq(|entries|, i requires 0 <= i < |entries| => Pair(entries[i].key, Shown(c, entries[i].val)))
    case _ => []
  }

  // ---------------------------------------------------------------------------
  // keyValueToJson
  // ---------------------------------------------------------------------------

  /** What a row's value text is stored as: its JSON value when it parses, the text
      itself otherwise. */
  function Stored(c: Codec, text: string): Value {
    match c.parse(text)
    case Ok(v) => v
    case Err(_) => Str(text)
  }

  /** The `reduce` callback: a pair whose trimmed key is not empty assigns its stored
      value to the trimmed key. */
  function Assign(c: Codec, acc: seq<Entry>, pair: Pair): seq<Entry> {
    var key := Trim(pair.key);
    if key == "" then acc else Put(acc, key, Stored(c, pair.value))
  }

  /** The `reduce` accumulator after the given pairs. */
  function Collect(c: Codec, pairs: seq<Pair>): seq<Entry>
  {
    if pairs == [] then [] else Assign(c, Collect(c, pairs[..|pairs| - 1]), pairs[|pairs| - 1])
  }

  lemma CollectSnoc(c: Codec, pairs: seq<Pair>, i: nat)
    requires i < |pairs|
    ensures Collect(c, pairs[..i + 1]) == Assign(c, Collect(c, pairs[..i]), pairs[i])
  {
    assert pairs[..i + 1][..i] == pairs[..i];
  }

  /** `keyValueToJson(pairs)`: the loop of the `reduce`, then the pretty printer. */
  method KeyValueToJson(c: Codec, pretty: Value -> string, pairs: seq<Pair>) returns (text: string)
    ensures text == pretty(Obj(Collect(c, pairs)))
  {
    var acc: seq<Entry> := [];
    for i := 0 to |pairs|
      invariant acc == Collect(c, pairs[..i])
    {
      CollectSnoc(c, pairs, i);
      var pair := pairs[i];
      var key := Trim(pair.key);
      if key != "" {
        acc := Put(acc, key, Stored(c, pair.value));
      }
    }
    assert pairs[..|pairs|] == pairs;
    text := pretty(Obj(acc));
  }

  /** The last pair with a given non-empty trimmed key decides that property: its
      value text, parsed when it parses. Keys are stored trimmed. */
  lemma {:induction false} CollectLaterWins(c: Codec, pairs: seq<Pair>, i: nat)
    requires i < |pairs| && Trim(pairs[i].key) != ""
    requires forall j :: i < j < |pairs| ==> Trim(pairs[j].key) != Trim(pairs[i].key)
    ensures Find(Collect(c, pairs), Trim(pairs[i].key)) == Some(Stored(c, pairs[i].value))
  {
    var init := pairs[..|pairs| - 1];
    var last := pairs[|pairs| - 1];
    var k := Trim(pairs[i].key);
    if i == |pairs| - 1 {
      PutFind(Collect(c, init), k, Stored(c, last.value), k);
    } else {
      assert init[i] == pairs[i];
      CollectLaterWins(c, init, i);
      if Trim(last.key) != "" {
        PutFind(Collect(c, init), Trim(last.key), Stored(c, last.value), k);
      }
    }
  }

  /** No property is written for a key no pair has after trimming, nor for the empty
      key: pairs with a blank key are skipped. */
  lemma {:induction false} CollectAbsent(c: Codec, pairs: seq<Pair>, k: string)
    requires k == "" || forall j :: 0 <= j < |pairs| ==> Trim(pairs[j].key) != k
    ensures Find(Collect(c, pairs), k) == None
  {
    if pairs != [] {
      var init := pairs[..|pairs| - 1];
      var last := pairs[|pairs| - 1];
      assert forall j :: 0 <= j < |init| ==> init[j] == pairs[j];
      CollectAbsent(c, init, k);
      if Trim(last.key) != "" {
        PutFind(Collect(c, init), Trim(last.key), Stored(c, last.value), k);
      }
    }
  }

  /** Loading an object into the editor and writing the rows back gives the same
      properties, when its keys are distinct, non-empty and untrimmed-equal to their
      trimmed form, and every value survives being shown and stored: a string that
      does not parse as JSON, or a value that `JSON.parse(JSON.stringify(v))` gives
      back. */
  lemma KeyValueRoundTrip(c: Codec, json: string, entries: seq<Entry>)
    requires c.parse(if json == "" then "{}" else json) == Ok(Obj(entries))
    requires forall i :: 0 <= i < |entries| ==> entries[i].key != "" && Trim(entries[i].key) == entries[i].key
    requires forall i, j :: 0 <= i < j < |entries| ==> entries[i].key != entries[j].key
    requires forall i :: 0 <= i < |entries| ==> Survives(c, entries[i].val)
    ensures forall k :: Find(Collect(c, JsonToKeyValue(c, json)), k) == Find(entries, k)
  {
    forall k
      ensures Find(Collect(c, JsonToKeyValue(c, json)), k) == Find(entries, k)
    {
      FindSpec(entries, k);
      if i :| 0 <= i < |entries| && entries[i].key == k {
        RoundTripPresent(c, json, entries, i);
      } else {
        RoundTripAbsent(c, json, entries, k);
      }
    }
  }

  lemma RoundTripPresent(c: Codec, json: string, entries: seq<Entry>, i: nat)
    requires c.parse(if json == "" then "{}" else json) == Ok(Obj(entries))
    requires forall i :: 0 <= i < |entries| ==> Trim(entries[i].key) == entries[i].key
    requires forall i, j :: 0 <= i < j < |entries| ==> entries[i].key != entries[j].key
    requires i < |entries| && entries[i].key != "" && Survives(c, entries[i].val)
    ensures Find(Collect(c, JsonToKeyValue(c, json)), entries[i].key) == Find(entries, entries[i].key)
  {
    var pairs := JsonToKeyValue(c, json);
    LoadedPair(c, json, entries, i);
    LoadedKeys(c, json, entries);
    assert forall j :: i < j < |pairs| ==> Trim(pairs[j].key) != Trim(pairs[i].key) by {
      forall j | i < j < |pairs|
        ensures Trim(pairs[j].key) != Trim(pairs[i].key)
      {
        assert pairs[j].key == entries[j].key;
      }
    }
    CollectLaterWins(c, pairs, i);
    FindAt(entries, i, entries[i].key);
  }

  /** The rows loaded from an object carry its keys, in order. */
  lemma LoadedKeys(c: Codec, json: string, entries: seq<Entry>)
    requires c.parse(if json == "" then "{}" else json) == Ok(Obj(entries))
    ensures |JsonToKeyValue(c, json)| == |entries|
    ensures forall j :: 0 <= j < |entries| ==> JsonToKeyValue(c, json)[j].key == entries[j].key
  {
  }

  lemma RoundTripAbsent(c: Codec, json: string, entries: seq<Entry>, k: string)
    requires c.parse(if json == "" then "{}" else json) == Ok(Obj(entries))
    requires forall i :: 0 <= i < |entries| ==> Trim(entries[i].key) == entries[i].key
    requires forall i :: 0 <= i < |entries| ==> entries[i].key != k
    ensures Find(Collect(c, JsonToKeyValue(c, json)), k) == None
  {
    CollectAbsent(c, JsonToKeyValue(c, json), k);
  }

  /** A value comes back unchanged from being shown as text and stored again. */
  predicate Survives(c: Codec, v: Value) {
    if v.Str? then c.parse(v.s).Err? else c.parse(c.stringify(v)) == Ok(v)
  }

  /** The row loaded for a property carries its key and its shown value. */
  lemma LoadedPair(c: Codec, json: string, entries: seq<Entry>, i: nat)
    requires c.parse(if json == "" then "{}" else json) == Ok(Obj(entries))
    requires i < |entries| && Survives(c, entries[i].val)
    ensures i < |JsonToKeyValue(c, json)|
    ensures JsonToKeyValue(c, json)[i].key == entries[i].key
    ensures Stored(c, JsonToKeyValue(c, json)[i].value) == entries[i].val
  {
    assert JsonToKeyValue(c, json)[i] == Pair(entries[i].key, Shown(c, entries[i].val));
  }

  /** A string value that happens to parse as JSON (`"42"`, `"true"`) does not come
      back as a string: writing the rows back stores what it parses to. */
  lemma StringValueReparsed(c: Codec, json: string, entries: seq<Entry>, i: nat)
    requires c.parse(if json == "" then "{}" else json) == Ok(Obj(entries))
    requires i < |entries| && entries[i].key != "" && Trim(entries[i].key) == entries[i].key
    requires forall j :: i < j < |entries| ==> entries[j].key != entries[i].key
    requires forall j :: 0 <= j < |entries| ==> Trim(entries[j].key) == entries[j].key
    requires entries[i].val.Str? && c.parse(entries[i].val.s).Ok?
    ensures Find(Collect(c, JsonToKeyValue(c, json)), entries[i].key) == Some(c.parse(entries[i].val.s).value)
  {
    CollectLaterWins(c, JsonToKeyValue(c, json), i);
  }

  // ---------------------------------------------------------------------------
  // The row edits
  // ---------------------------------------------------------------------------

  function FieldOf(row: Row, field: FieldName): string {
    match field
    case KeyField => row.key
    case ValueField => row.value
  }

  function Other(field: FieldName): FieldName {
    match field
    case KeyField => ValueField
    case ValueField => KeyField
  }

  /** `pairs.map(p => p.id === id ? { ...p, [field]: fieldValue } : p)`: the named
      field of every row with the id is set, and nothing else changes. */
  function UpdateRows(rows: seq<Row>, id: int, field: FieldName, text: string): (r: seq<Row>)
    ensures |r| == |rows|
    ensures forall i :: 0 <= i < |r| ==> r[i].id == rows[i].id
    ensures forall i :: 0 <= i < |r| && rows[i].id != id ==> r[i] == rows[i]
    ensures forall i :: 0 <= i < |r| && rows[i].id == id ==>
      FieldOf(r[i], field) == text && FieldOf(r[i], Other(field)) == FieldOf(rows[i], Other(field))
  {
    seq(|rows|, i requires 0 <= i < |rows| =>
      if rows[i].id != id then rows[i]
      else match field
        case KeyField => rows[i].(key := text)
        case ValueField => rows[i].(value := text))
  }

  /** `[...pairs, { id, key: '', value: '' }]`. */
  function AddRow(rows: seq<Row>, id: int): seq<Row> {
    rows + [Row(id, "", "")]
  }

  /** `pairs.filter(p => p.id !== id)`. */
  function RemoveRows(rows: seq<Row>, id: int): (r: seq<Row>)
    ensures forall row :: row in r <==> row in rows && row.id != id
  {
    var r := Filter(rows, (p: Row) => p.id != id);
    assert forall row :: row in r <==> multiset(r)[row] > 0;
    assert forall row :: row in rows <==> multiset(rows)[row] > 0;
    r
  }

  /** The pairs the converters see. */
  function Simplified(rows: seq<Row>): (r: seq<Pair>)
    ensures |r| == |rows| && forall i :: 0 <= i < |r| ==> r[i].key == rows[i].key && r[i].value == rows[i].value
  {
    seq(|rows|, i requires 0 <= i < |rows| => Pair(rows[i].key, rows[i].value))
  }

  /** The rows loaded from a document: `initialPairs.map((p, i) => ({ ...p, id: now + i }))`. */
  function Stamp(pairs: seq<Pair>, now: int): (r: seq<Row>)
    ensures |r| == |pairs|
  {
    seq(|pairs|, i requires 0 <= i < |pairs| => Row(now + i, pairs[i].key, pairs[i].value))
  }

  predicate DistinctRowIds(rows: seq<Row>) {
    forall i, j :: 0 <= i < j < |rows| ==> rows[i].id != rows[j].id
  }

  function RowIds(rows: seq<Row>): set<int> {
    set row | row in rows :: row.id
  }

  /** Stamped rows carry distinct ids and exactly the loaded pairs. */
  lemma StampedRows(pairs: seq<Pair>, now: int)
    ensures DistinctRowIds(Stamp(pairs, now))
    ensures Simplified(Stamp(pairs, now)) == pairs
  {
  }

  /** Updating a field twice keeps only the second update. */
  lemma UpdateLastWins(rows: seq<Row>, id: int, field: FieldName, a: string, b: string)
    ensures UpdateRows(UpdateRows(rows, id, field, a), id, field, b) == UpdateRows(rows, id, field, b)
  {
    var twice := UpdateRows(UpdateRows(rows, id, field, a), id, field, b);
    var once := UpdateRows(rows, id, field, b);
    forall i | 0 <= i < |rows|
      ensures twice[i] == once[i]
    {
      if rows[i].id == id {
        match field
        case KeyField =>
        case ValueField =>
      }
    }
  }

  /** Updating a row never changes the ids in use. */
  lemma UpdateKeepsIds(rows: seq<Row>, id: int, field: FieldName, text: string)
    ensures RowIds(UpdateRows(rows, id, field, text)) == RowIds(rows)
  {
    var u := UpdateRows(rows, id, field, text);
    forall x | x in RowIds(rows)
      ensures x in RowIds(u)
    {
      var row :| row in rows && row.id == x;
      var i :| 0 <= i < |rows| && rows[i] == row;
      assert u[i] in u;
    }
    forall x | x in RowIds(u)
      ensures x in RowIds(rows)
    {
      var row :| row in u && row.id == x;
      var i :| 0 <= i < |u| && u[i] == row;
      assert rows[i] in rows;
    }
  }

  /** Adding a row adds its id. */
  lemma AddAddsId(rows: seq<Row>, id: int)
    ensures RowIds(AddRow(rows, id)) == RowIds(rows) + {id}
  {
    assert Row(id, "", "") in AddRow(rows, id);
  }

  /** Removing rows by id drops exactly that id. */
  lemma RemoveDropsId(rows: seq<Row>, id: int)
    ensures RowIds(RemoveRows(rows, id)) == RowIds(rows) - {id}
  {
  }

  /** Removing the row just added gives back the rows before it, when its id was
      fresh. */
  lemma RemoveUndoesAdd(rows: seq<Row>, id: int)
    requires id !in RowIds(rows)
    ensures RemoveRows(AddRow(rows, id), id) == rows
  {
    var keep := (p: Row) => p.id != id;
    assert RemoveRows(AddRow(rows, id), id) == Filter(rows + [Row(id, "", "")], keep);
    FilterAppend(rows, [Row(id, "", "")], keep);
    forall k | 0 <= k < |rows|
      ensures keep(rows[k])
    {
      assert rows[k].id in RowIds(rows);
    }
    FilterAll(rows, keep);
    assert Filter([Row(id, "", "")], keep) == [];
  }

  /** Filtering with a predicate every element satisfies changes nothing. */
  lemma {:induction false} FilterAll<T(!new)>(s: seq<T>, p: T -> bool)
    requires forall k :: 0 <= k < |s| ==> p(s[k])
    ensures Filter(s, p) == s
  {
    if s != [] {
      FilterAll(s[1..], p);
    }
  }

  /** The empty row `handleAdd` appends writes nothing: the emitted object is the one
      before it. */
  lemma AddedRowIsBlank(c: Codec, rows: seq<Row>, id: int)
    ensures Collect(c, Simplified(AddRow(rows, id))) == Collect(c, Simplified(rows))
  {
    var s := Simplified(AddRow(rows, id));
    assert s[..|s| - 1] == Simplified(rows);
    assert s[|s| - 1].key == "";
  }

  // ---------------------------------------------------------------------------
  // The editor
  // ---------------------------------------------------------------------------

  /** The editor's `pairs` state. Each handler replaces the rows, then emits the JSON
      of the new rows through `onChange`; the emitted text is the handler's result. */
  class Editor {
    var rows: seq<Row>

    constructor ()
      ensures rows == []
    {
      rows := [];
    }

    /** `handleUpdate(id, field, fieldValue)`. */
    method HandleUpdate(c: Codec, pretty: Value -> string, id: int, field: FieldName, text: string)
      returns (emitted: string)
      modifies this
      ensures rows == UpdateRows(old(rows), id, field, text)
      ensures emitted == pretty(Obj(Collect(c, Simplified(rows))))
    {
      rows := UpdateRows(rows, id, field, text);
      emitted := KeyValueToJson(c, pretty, Simplified(rows));
    }

    /** `handleAdd()`, with the `Date.now()` id as a parameter. */
    method HandleAdd(c: Codec, pretty: Value -> string, id: int) returns (emitted: string)
      modifies this
      ensures rows == AddRow(old(rows), id)
      ensures emitted == pretty(Obj(Collect(c, Simplified(old(rows)))))
    {
      var before := rows;
      AddedRowIsBlank(c, before, id);
      rows := AddRow(before, id);
      emitted := KeyValueToJson(c, pretty, Simplified(rows));
      assert Collect(c, Simplified(rows)) == Collect(c, Simplified(before));
    }

    /** `handleRemove(id)`. */
    method HandleRemove(c: Codec, pretty: Value -> string, id: int) returns (emitted: string)
      modifies this
      ensures rows == RemoveRows(old(rows), id)
      ensures emitted == pretty(Obj(Collect(c, Simplified(rows))))
    {
      rows := RemoveRows(rows, id);
      emitted := KeyValueToJson(c, pretty, Simplified(rows));
    }

    /** The effect run when the incoming JSON text changes: unless the rows already
        print as that document, they are reloaded from it, stamped with ids from
        `now`. The unguarded `JSON.parse` throws on text that does not parse. */
    method Sync(c: Codec, pretty: Value -> string, json: string, now: int) returns (error: Option<string>)
      modifies this
      ensures var parsed := c.parse(if json == "" then "{}" else json);
        && (parsed.Err? ==> error == Some(parsed.msg) && rows == old(rows))
        && (parsed.Ok? ==> error == None)
        && (parsed.Ok? && pretty(Obj(Collect(c, Simplified(old(rows))))) == pretty(parsed.value) ==> rows == old(rows))
        && (parsed.Ok? && pretty(Obj(Collect(c, Simplified(old(rows))))) != pretty(parsed.value) ==>
              rows == Stamp(JsonToKeyValue(c, json), now))
    {
      var internal := KeyValueToJson(c, pretty, Simplified(rows));
      var parsed := c.parse(if json == "" then "{}" else json);
      if parsed.Err? {
        return Some(parsed.msg);
      }
      if internal != pretty(parsed.value) {
        rows := Stamp(JsonToKeyValue(c, json), now);
      }
      return None;
    }
  }
}
