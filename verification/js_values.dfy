/** JavaScript values as the wrapper sees them: the JSON-like values a
    handler returns, a request body carries, or a cache key holds, with the
    few built-in operators the source applies to them (`typeof`,
    truthiness, `Object.values`). */
module JsValues {

  datatype Option<+T> = None | Some(value: T) {
    function GetOr(default: T): T {
      match this
      case Some(v) => v
      case None => default
    }
  }

  /** Outcome of an opaque step that either yields a value or throws an
      `Error` whose `message` is kept. */
  datatype Outcome<+T> = Ok(value: T) | Fail(message: string)

  /** Numbers are integers here; functions, symbols and bigints do not occur. */
  datatype Value =
    | Undefined
    | Null
    | Bool(b: bool)
    | Num(n: int)
    | Str(s: string)
    | Arr(items: seq<Value>)
    | Obj(entries: seq<(string, Value)>)

  /** The `typeof` operator. */
  function TypeOf(v: Value): (t: string)
    ensures t == "object" <==> (v.Null? || v.Arr? || v.Obj?)
  {
    match v
    case Undefined => "undefined"
    case Null => "object"
    case Bool(_) => "boolean"
    case Num(_) => "number"
    case Str(_) => "string"
    case Arr(_) => "object"
    case Obj(_) => "object"
  }

  /** ToBoolean: what `x || y` and `if (x)` test. */
  predicate Truthy(v: Value) {
    match v
    case Undefined => false
    case Null => false
    case Bool(b) => b
    case Num(n) => n != 0
    case Str(s) => s != ""
    case Arr(_) => true
    case Obj(_) => true
  }

  /** The falsy values are exactly `undefined`, `null`, `false`, `0` and
      the empty string; every array and object is truthy, even an empty
      one. */
  lemma FalsyValues(v: Value)
    ensures !Truthy(v) <==> v == Undefined || v == Null || v == Bool(false) || v == Num(0) || v == Str("")
    ensures v.Arr? || v.Obj? ==> Truthy(v)
  {
  }

  /** The values of an object's entries, in enumeration order. */
  function EntryValues<V>(entries: seq<(string, V)>): (vs: seq<V>)
    ensures |vs| == |entries|
    ensures forall i :: 0 <= i < |entries| ==> vs[i] == entries[i].1
    decreases |entries|
  {
    if entries == [] then [] else [entries[0].1] + EntryValues(entries[1..])
  }

  /** `Object.values(v || {})`: a falsy value gives no values, a string its
      characters, an array its items, an object its entry values, and a
      truthy boolean or number (no own properties) none. */
  function ObjectValues(v: Value): (vs: seq<Value>)
    ensures !Truthy(v) ==> vs == []
    ensures v.Obj? ==> vs == EntryValues(v.entries)
    ensures v.Str? ==> |vs| == |v.s| && forall i :: 0 <= i < |v.s| ==> vs[i] == Str([v.s[i]])
  {
    match v
    case Str(s) => seq(|s|, i requires 0 <= i < |s| => Str([s[i]]))
    case Arr(items) => items
    case Obj(entries) => EntryValues(entries)
    case _ => []
  }

  /** Property lookup on an object value; `None` stands for a missing key. */
  function Lookup(v: Value, key: string): (r: Option<Value>)
    ensures r.Some? ==> v.Obj? && exists i :: 0 <= i < |v.entries| && v.entries[i] == (key, r.value)
    ensures v.Obj? && r.None? ==> forall i :: 0 <= i < |v.entries| ==> v.entries[i].0 != key
    decreases if v.Obj? then |v.entries| else 0
  {
    if !v.Obj? || v.entries == [] then None
    else if v.entries[0].0 == key then Some(v.entries[0].1)
    else
      var r := Lookup(Obj(v.entries[1..]), key);
      assert r.Some? ==> exists i :: 0 <= i < |v.entries[1..]| && v.entries[1..][i] == (key, r.value);
      r
  }
}
