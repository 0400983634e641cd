/** JSON values as the mock server's request and response bodies carry them,
    and the two JavaScript operations on them that the handlers rely on:
    object spread and truthiness. */
module Json {

  datatype Option<+T> = None | Some(value: T)

  /** A JSON value. Numbers are integers here: every number the handlers
      compare or produce is an id. */
  datatype Value =
    | Null
    | Bool(b: bool)
    | Num(n: int)
    | Str(s: string)
    | Arr(items: seq<Value>)
    | Obj(fields: map<string, Value>)

  /** A JSON object: a user or ticket record, or a request body. */
  type Record = map<string, Value>

  /** Reading a property: `undefined` (None) when the key is absent. */
  function Get(r: Record, key: string): Option<Value> {
    if key in r then Some(r[key]) else None
  }

  /** The JSON values JavaScript treats as false; an absent property
      (`undefined`) is false too. */
  const FalsyValues: set<Value> := {Null, Bool(false), Num(0), Str("")}

  /** JavaScript truthiness of a property read: `undefined`, `null`,
      `false`, `0` and `""` are falsy, everything else (including empty
      arrays and objects) is truthy. */
  predicate Truthy(v: Option<Value>)
    ensures Truthy(v) <==> v.Some? && v.value !in FalsyValues
  {
    match v
    case None => false
    case Some(Null) => false
    case Some(Bool(b)) => b
    case Some(Num(n)) => n != 0
    case Some(Str(s)) => s != ""
    case Some(Arr(_)) => true
    case Some(Obj(_)) => true
  }

  /** `{...a, ...b}`: every key of either object, the right-hand value
      winning where both have the key. */
  function Spread(a: Record, b: Record): (r: Record)
    ensures r.Keys == a.Keys + b.Keys
    ensures forall k :: k in b ==> r[k] == b[k]
    ensures forall k :: k in a && k !in b ==> r[k] == a[k]
  {
    a + b
  }
}
