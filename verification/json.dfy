/** The parsed-value domain every component works on: what `JSON.parse`
    returns. Numbers are restricted to integers, and objects are ordered
    association lists that keep insertion order. */
module JsonValue {
  import opened Wrappers

  datatype Json =
    | Null
    | Bool(b: bool)
    | Num(n: int)
    | Str(s: string)
    | Arr(items: seq<Json>)
    | Obj(fields: seq<(string, Json)>)

  /** The platform's `JSON.parse`, kept abstract: the model receives it as a
      parameter and never looks inside. An `Err` carries the native message. */
  type NativeParse = string -> Result<Json, string>

  /** The keys of an association list, in order. */
  function KeysOf<T>(fields: seq<(string, T)>): (ks: seq<string>)
    ensures |ks| == |fields|
    ensures forall i :: 0 <= i < |fields| ==> ks[i] == fields[i].0
  {
    seq(|fields|, i requires 0 <= i < |fields| => fields[i].0)
  }

  predicate DistinctKeys<T>(fields: seq<(string, T)>) {
    forall i, j :: 0 <= i < j < |fields| ==> fields[i].0 != fields[j].0
  }

  /** Every object, at every depth, has pairwise distinct keys (what a parse
      with last-write-wins produces). */
  predicate UniqueKeys(v: Json)
    decreases v
  {
    match v
    case Arr(items) => forall i :: 0 <= i < |items| ==> UniqueKeys(items[i])
    case Obj(fs) => DistinctKeys(fs) && forall i :: 0 <= i < |fs| ==> UniqueKeys(fs[i].1)
    case _ => true
  }

  /** `obj[key]` on an object: the value stored under `key`, if any. */
  function Lookup<T>(fields: seq<(string, T)>, key: string): (r: Option<T>)
    ensures r.None? <==> key !in KeysOf(fields)
    ensures r.Some? ==> (key, r.value) in fields
    decreases |fields|
  {
    if |fields| == 0 then None
    else if fields[0].0 == key then Some(fields[0].1)
    else
      assert KeysOf(fields) == [fields[0].0] + KeysOf(fields[1..]);
      Lookup(fields[1..], key)
  }

  /** A composite value, `typeof v === 'object' && v !== null`. */
  predicate IsComposite(v: Json) {
    v.Arr? || v.Obj?
  }

  /** JavaScript truthiness of a parsed value. */
  predicate Truthy(v: Json) {
    match v
    case Null => false
    case Bool(b) => b
    case Num(n) => n != 0
    case Str(s) => s != ""
    case _ => true
  }
}
