/** Python values as they reach the modelled code from decoded JSON request
    bodies and from `dict`/`list` literals: `None`, booleans, numbers,
    strings, lists and dicts.  A dict is the sequence of its items in
    insertion order, which is the order in which Python iterates it. */
module Json {
  import opened Wrappers

  datatype Json =
    | JNull
    | JBool(b: bool)
    | JInt(i: int)
    | JFloat(f: real)
    | JStr(s: string)
    | JList(items: seq<Json>)
    | JObject(fields: seq<Field>)

  datatype Field = Field(key: string, value: Json)

  /** The keys of a dict, in iteration order. */
  function Keys(fields: seq<Field>): (r: seq<string>)
    ensures |r| == |fields|
    ensures forall i :: 0 <= i < |fields| ==> r[i] == fields[i].key
  {
    if fields == [] then [] else Keys(fields[..|fields| - 1]) + [fields[|fields| - 1].key]
  }

  /** A Python dict never holds a key twice. */
  predicate DistinctKeys(fields: seq<Field>)
  {
    forall i, j :: 0 <= i < j < |fields| ==> fields[i].key != fields[j].key
  }

  /** `d.get(key)`: the value stored under `key`, or `None` when absent.  Were
      a key listed twice, the later item is the one a dict would keep. */
  function Get(fields: seq<Field>, key: string): (r: Option<Json>)
    ensures r.None? <==> forall i :: 0 <= i < |fields| ==> fields[i].key != key
    ensures r.Some? ==> exists i :: 0 <= i < |fields| && fields[i].key == key && fields[i].value == r.value
  {
    if fields == [] then None
    else if fields[|fields| - 1].key == key then Some(fields[|fields| - 1].value)
    else Get(fields[..|fields| - 1], key)
  }

  /** Python truthiness: `None`, `False`, zero, and empty strings, lists and
      dicts are falsy. */
  predicate Truthy(v: Json)
  {
    match v
    case JNull => false
    case JBool(b) => b
    case JInt(i) => i != 0
    case JFloat(f) => f != 0.0
    case JStr(s) => s != []
    case JList(items) => items != []
    case JObject(fields) => fields != []
  }

  /** `bool(d.get(key))`: a missing key reads as `None`, which is falsy. */
  predicate TruthyAt(fields: seq<Field>, key: string)
  {
    match Get(fields, key)
    case None => false
    case Some(v) => Truthy(v)
  }
}
