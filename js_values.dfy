/** The JavaScript values that cross the two components: parsed JSON, the
    `undefined` of a missing property, and JavaScript's truthiness rule. */
module JsValues {

  datatype Option<+T> = None | Some(value: T)

  /** A JSON value as `JSON.parse` produces it. Numbers are kept as reals (a
      JSON text never denotes NaN or an infinity); an object is a map from its
      keys to its members. */
  datatype Json =
    | JNull
    | JBool(b: bool)
    | JNumber(n: real)
    | JString(s: string)
    | JArray(items: seq<Json>)
    | JObject(members: map<string, Json>)

  /** The outcome of `JSON.parse` (or `response.json()`) on a body text. */
  datatype Parse = Unparseable | Parsed(value: Json)

  /** `v.key` for a JSON value other than `null` (reading a property of `null`
      throws, and callers handle that case themselves). `None` is `undefined`:
      strings, numbers, booleans and arrays carry no property of the names read
      in this system, and an object only carries its own members. */
  function Property(v: Json, key: string): Option<Json>
    requires !v.JNull?
  {
    match v
    case JObject(m) => if key in m then Some(m[key]) else None
    case _ => None
  }

  /** Reading a key right after it was set gives the value set; setting a
      different key leaves the read as it was. */
  lemma PropertyReadsUpdate(m: map<string, Json>, key: string, other: string, v: Json)
    ensures Property(JObject(m[key := v]), key) == Some(v)
    ensures other != key ==> Property(JObject(m[other := v]), key) == Property(JObject(m), key)
  {
  }

  /** A string, number, boolean or array has no property of its own here:
      every read gives `undefined`, which is falsy. */
  lemma PropertyOfNonObject(v: Json, key: string)
    requires !v.JNull? && !v.JObject?
    ensures Property(v, key) == None && !Truthy(Property(v, key))
  {
  }

  /** JavaScript's ToBoolean on a value that is either `undefined` (`None`) or
      JSON: `undefined`, `null`, `false`, `0` and `""` are falsy, every array
      and object is truthy. */
  predicate Truthy(v: Option<Json>)
  {
    match v
    case None => false
    case Some(JNull) => false
    case Some(JBool(b)) => b
    case Some(JNumber(n)) => n != 0.0
    case Some(JString(s)) => |s| > 0
    case Some(JArray(_)) => true
    case Some(JObject(_)) => true
  }

  /** `a || b` on two such values: the first if truthy, else the second. */
  function Or(a: Option<Json>, b: Option<Json>): (r: Option<Json>)
    ensures Truthy(r) <==> Truthy(a) || Truthy(b)
    ensures r == a || r == b
    ensures Truthy(a) ==> r == a
    ensures !Truthy(a) ==> r == b
  {
    if Truthy(a) then a else b
  }
}
