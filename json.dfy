/**
 * The JSON-like values that flow through the route: the parsed request
 * body and the course document the route returns. JavaScript numbers are
 * modelled as integers; `undefined` is included because it is what a missing
 * property reads as.
 */
module Json {
  import opened Wrappers

  datatype Json =
    | JNull
    | JUndefined
    | JNum(n: int)
    | JBool(b: bool)
    | JStr(s: string)
    | JArr(items: seq<Json>)
    | JObj(fields: seq<Field>)

  /** One own enumerable property of an object, in insertion order. */
  datatype Field = Field(key: string, value: Json)

  /** JavaScript truthiness: `null`, `undefined`, `0`, `false` and `""` are falsy. */
  predicate Truthy(j: Json) {
    match j
    case JNull => false
    case JUndefined => false
    case JNum(n) => n != 0
    case JBool(b) => b
    case JStr(s) => s != ""
    case JArr(_) => true
    case JObj(_) => true
  }

  /** Property access `j[key]`: the first field with that key of an object,
      `undefined` for a missing key or a value that is not an object. */
  function Get(j: Json, key: string): (r: Json)
    ensures r != JUndefined ==> j.JObj? && exists i :: 0 <= i < |j.fields| && j.fields[i] == Field(key, r)
    ensures j.JObj? && (forall i :: 0 <= i < |j.fields| ==> j.fields[i].key != key) ==> r == JUndefined
    ensures j.JObj? && (exists i :: 0 <= i < |j.fields| && j.fields[i].key == key) ==> FirstWithKey(j.fields, key, r)
  {
    if j.JObj? then Lookup(j.fields, key) else JUndefined
  }

  function Lookup(fs: seq<Field>, key: string): (r: Json)
    ensures r != JUndefined ==> exists i :: 0 <= i < |fs| && fs[i] == Field(key, r)
    ensures (forall i :: 0 <= i < |fs| ==> fs[i].key != key) ==> r == JUndefined
    ensures (exists i :: 0 <= i < |fs| && fs[i].key == key) ==> FirstWithKey(fs, key, r)
  {
    if fs == [] then JUndefined
    else if fs[0].key == key then
      assert FirstAt(fs, key, 0);
      fs[0].value
    else
      assert forall i :: FirstAt(fs[1..], key, i) ==> FirstAt(fs, key, i + 1);
      Lookup(fs[1..], key)
  }

  /** The field at `i` is the first one with that key. */
  predicate FirstAt(fs: seq<Field>, key: string, i: int) {
    0 <= i < |fs| && fs[i].key == key && forall k :: 0 <= k < i ==> fs[k].key != key
  }

  /** `v` is the value of the first field with that key. */
  ghost predicate FirstWithKey(fs: seq<Field>, key: string, v: Json) {
    exists i :: FirstAt(fs, key, i) && fs[i] == Field(key, v)
  }

  /** The keys of an object, in order. */
  function Keys(fs: seq<Field>): (r: seq<string>)
    ensures |r| == |fs| && forall i :: 0 <= i < |fs| ==> r[i] == fs[i].key
  {
    seq(|fs|, i requires 0 <= i < |fs| => fs[i].key)
  }

  /** A request field destructured as text: a JSON string, or absent. */
  function TextOf(j: Json): (r: Option<string>)
    ensures r.Some? <==> j.JStr?
    ensures r.Some? ==> r.value == j.s
  {
    if j.JStr? then Some(j.s) else None
  }

  /** `${x}` applied to an optional string: a missing value prints `undefined`. */
  function OrUndefined(o: Option<string>): string {
    if o.Some? then o.value else "undefined"
  }

  /** Truthiness of an optional string. */
  predicate Present(o: Option<string>) {
    o.Some? && o.value != ""
  }
}
