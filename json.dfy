/** JavaScript values as they flow through a workflow: what `JSON.parse` produces,
    plus `undefined`. Objects keep their properties in the order JavaScript enumerates
    them. The foreign functions the code relies on (`JSON.parse`, `JSON.stringify`,
    number formatting and number parsing) are not modelled; a `Codec` value stands for
    them and is passed in by the caller. */
module Json {
  import opened Wrappers
  import opened Text

  datatype Value =
    | Undefined
    | Null
    | Bool(b: bool)
    | Num(n: real)
    | Str(s: string)
    | Arr(items: seq<Value>)
    | Obj(entries: seq<Entry>)

  datatype Entry = Entry(key: string, val: Value)

  /** The foreign functions, as oracles.
      - parse: `JSON.parse`; `Err` carries the `SyntaxError` message;
      - stringify: `JSON.stringify` of a value other than `undefined`;
      - numberText: how JavaScript prints a number;
      - parseFloat: `parseFloat` of a string, `None` standing for `NaN`;
      - stringToNumber: `Number` of a string, `None` standing for `NaN`. */
  datatype Codec = Codec(
    parse: string -> Result<Value>,
    stringify: Value -> string,
    numberText: real -> string,
    parseFloat: string -> Option<real>,
    stringToNumber: string -> Option<real>)

  /** JavaScript truthiness. */
  predicate Truthy(v: Value) {
    match v
    case Undefined => false
    case Null => false
    case Bool(b) => b
    case Num(n) => n != 0.0
    case Str(s) => s != ""
    case Arr(_) => true
    case Obj(_) => true
  }

  /** `typeof v === 'object' && v !== null`. */
  predicate IsObjectLike(v: Value) {
    v.Obj? || v.Arr?
  }

  /** `v === null || v === undefined`: reading a property of such a value throws. */
  predicate IsNullish(v: Value) {
    v.Undefined? || v.Null?
  }

  /** The value of the first entry named `key`. */
  function Find(entries: seq<Entry>, key: string): Option<Value>
  {
    if entries == [] then None
    else if entries[0].key == key then Some(entries[0].val)
    else Find(entries[1..], key)
  }

  /** A property is found exactly when some entry carries its name, and what is found
      is the value of such an entry. */
  lemma {:induction false} FindSpec(entries: seq<Entry>, key: string)
    ensures Find(entries, key).Some? <==> exists i :: 0 <= i < |entries| && entries[i].key == key
    ensures Find(entries, key).Some? ==>
      exists i :: 0 <= i < |entries| && entries[i].key == key && entries[i].val == Find(entries, key).value
  {
    if entries != [] && entries[0].key != key {
      FindSpec(entries[1..], key);
      assert forall i :: 1 <= i < |entries| ==> entries[i] == entries[1..][i - 1];
    }
  }

  function DigitValue(c: char): nat
    requires '0' <= c <= '9'
  {
    (c as int - '0' as int) as nat
  }

  function DecimalValue(s: string): nat
    requires forall i :: 0 <= i < |s| ==> '0' <= s[i] <= '9'
  {
    if s == [] then 0 else DecimalValue(s[..|s| - 1]) * 10 + DigitValue(s[|s| - 1])
  }

  /** A property name that JavaScript treats as an array index: a canonical decimal
      numeral below 2^32 - 1. */
  function ParseIndex(key: string): (r: Option<nat>)
    ensures r.Some? ==> |key| > 0 && (forall i :: 0 <= i < |key| ==> '0' <= key[i] <= '9') && r.value < 4294967295
    ensures r.Some? ==> key == "0" || key[0] != '0'
  {
    if |key| > 0 && (forall i :: 0 <= i < |key| ==> '0' <= key[i] <= '9') && (key == "0" || key[0] != '0') then
      var n := DecimalValue(key);
      if n < 4294967295 then Some(n) else None
    else None
  }

  /** `v[key]` for a value that is not `null` or `undefined`. Own properties only: array
      and string elements and their `length`, and object entries. A property a value
      inherits from its prototype (`constructor`, `toString`, ...) reads as `undefined`
      here, where the original would find a function. */
  function Prop(v: Value, key: string): (r: Value)
    requires !IsNullish(v)
    ensures v.Obj? && Find(v.entries, key).None? ==> r == Undefined
    ensures v.Bool? || v.Num? ==> r == Undefined
  {
    match v
    case Obj(entries) =>
      (match Find(entries, key) case Some(x) => x case None => Undefined)
    case Arr(items) =>
      if key == "length" then Num(|items| as real)
      else (match ParseIndex(key)
            case Some(i) => if i < |items| then items[i] else Undefined
            case None => Undefined)
    case Str(s) =>
      if key == "length" then Num(|s| as real)
      else (match ParseIndex(key)
            case Some(i) => if i < |s| then Str([s[i]]) else Undefined
            case None => Undefined)
    case _ => Undefined
  }

  /** `v[key]` where `v` may be `null` or `undefined`, in which case the read throws a
      `TypeError` with V8's message. */
  function Field(v: Value, key: string): (r: Result<Value>)
    ensures r.Err? <==> IsNullish(v)
    ensures r.Ok? ==> r.value == Prop(v, key)
  {
    if v.Null? then Err("Cannot read properties of null (reading '" + key + "')")
    else if v.Undefined? then Err("Cannot read properties of undefined (reading '" + key + "')")
    else Ok(Prop(v, key))
  }

  /** `obj[key] = val` on an object: an existing property keeps its place, a new one
      is added last. What reading the result gives is `PutFind`. */
  function Put(entries: seq<Entry>, key: string, val: Value): (r: seq<Entry>)
    ensures Find(entries, key).Some? ==> |r| == |entries|
    ensures Find(entries, key).None? ==> r == entries + [Entry(key, val)]
  {
    if entries == [] then [Entry(key, val)]
    else if entries[0].key == key then [Entry(key, val)] + entries[1..]
    else
      var r := [entries[0]] + Put(entries[1..], key, val);
      assert Find(entries, key) == Find(entries[1..], key);
      assert entries == [entries[0]] + entries[1..];
      r
  }

  /** Reading a property of a non-empty list looks at its head first. */
  lemma FindCons(e: Entry, rest: seq<Entry>, k: string)
    ensures Find([e] + rest, k) == if e.key == k then Some(e.val) else Find(rest, k)
  {
    assert ([e] + rest)[1..] == rest;
  }

  /** Reading `key` gives the value of the first entry named `key`. */
  lemma {:induction false} FindAt(entries: seq<Entry>, i: nat, key: string)
    requires i < |entries| && entries[i].key == key
    requires forall j :: 0 <= j < i ==> entries[j].key != key
    ensures Find(entries, key) == Some(entries[i].val)
  {
    if i > 0 {
      FindAt(entries[1..], i - 1, key);
    }
  }

  /** After `obj[key] = val`, reading `key` gives `val` and every other property reads
      as before. */
  lemma {:induction false} PutFind(entries: seq<Entry>, key: string, val: Value, k: string)
    ensures Find(Put(entries, key, val), k) == if k == key then Some(val) else Find(entries, k)
  {
    if entries == [] {
      FindCons(Entry(key, val), [], k);
    } else if entries[0].key == key {
      FindCons(Entry(key, val), entries[1..], k);
      FindCons(entries[0], entries[1..], k);
      assert entries == [entries[0]] + entries[1..];
    } else {
      PutFind(entries[1..], key, val, k);
      FindCons(entries[0], Put(entries[1..], key, val), k);
      FindCons(entries[0], entries[1..], k);
      assert entries == [entries[0]] + entries[1..];
    }
  }

  /** `String(v)`. Arrays print their elements joined by commas, with `null` and
      `undefined` elements printed as empty. */
  function ToText(c: Codec, v: Value): string
  {
    match v
    case Undefined => "undefined"
    case Null => "null"
    case Bool(b) => if b then "true" else "false"
    case Num(n) => c.numberText(n)
    case Str(s) => s
    case Arr(items) => Join(seq(|items|, i requires 0 <= i < |items| => if IsNullish(items[i]) then "" else ToText(c, items[i])))
    case Obj(_) => "[object Object]"
  }

  /** Comma-separated concatenation. */
  function Join(parts: seq<string>): string
  {
    if parts == [] then ""
    else if |parts| == 1 then parts[0]
    else parts[0] + "," + Join(parts[1..])
  }

  /** `Number(v)`, with `None` standing for `NaN`. */
  function ToNumber(c: Codec, v: Value): (r: Option<real>)
    ensures v.Num? ==> r == Some(v.n)
    ensures v.Undefined? ==> r.None?
  {
    match v
    case Undefined => None
    case Null => Some(0.0)
    case Bool(b) => Some(if b then 1.0 else 0.0)
    case Num(n) => Some(n)
    case Str(s) => c.stringToNumber(s)
    case _ => c.stringToNumber(ToText(c, v))
  }

  /** `Number(v) || 0`. */
  function NumberOrZero(c: Codec, v: Value): real
  {
    match ToNumber(c, v) case Some(n) => n case None => 0.0
  }

  /** `JSON.parse(v)`: a non-string argument is first converted with `String`. */
  function ParseText(c: Codec, v: Value): Result<Value>
  {
    c.parse(ToText(c, v))
  }

  /** The text a value contributes when spliced into a string: strings as they are,
      anything else through `JSON.stringify`, and `undefined` (for which
      `JSON.stringify` returns `undefined`) as the word `undefined`. */
  function SpliceText(c: Codec, v: Value): string
  {
    if v.Str? then v.s else if v.Undefined? then "undefined" else c.stringify(v)
  }
}
