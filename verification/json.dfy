/** JSON-like values as the persistence layer receives them from the model
    service, with the parts of JavaScript's semantics the reconciliation
    relies on: optional property access, `??`, truthiness and `String(x)`. */
module Json {
  import opened Wrappers
  import opened Strings

  /** A parsed JSON value; numbers are taken to be integers. An absent
      property (`undefined`) is `None` where an `Option<Json>` is expected. */
  datatype Json =
    | JNull
    | JBool(b: bool)
    | JNum(n: int)
    | JStr(s: string)
    | JArr(items: seq<Json>)
    | JObj(fields: map<string, Json>)

  /** `x?.k`: the property of an object, `undefined` for anything else. */
  function Field(x: Json, k: string): (r: Option<Json>)
    ensures r.Some? <==> x.JObj? && k in x.fields
    ensures r.Some? ==> r.value == x.fields[k]
  {
    if x.JObj? && k in x.fields then Some(x.fields[k]) else None
  }

  /** `a ?? b`: `b` when `a` is `null` or `undefined`. */
  function Coalesce(a: Option<Json>, b: Json): (r: Json)
    ensures a.None? || a == Some(JNull) ==> r == b
    ensures a.Some? && a.value != JNull ==> r == a.value
  {
    if a.Some? && a.value != JNull then a.value else b
  }

  /** JavaScript truthiness; `NaN` is not modelled. */
  predicate Truthy(x: Json)
  {
    match x
    case JNull => false
    case JBool(b) => b
    case JNum(n) => n != 0
    case JStr(s) => s != ""
    case _ => true
  }

  /** `a || b`. */
  function Or(a: Json, b: Json): (r: Json)
    ensures Truthy(a) ==> r == a
    ensures !Truthy(a) ==> r == b
  {
    if Truthy(a) then a else b
  }

  /** `${n}` for an integer. */
  function IntToString(n: int): (s: string)
    ensures s != []
    ensures n >= 0 ==> s == NatToString(n)
    ensures n < 0 ==> s == "-" + NatToString(-n)
  {
    if n >= 0 then NatToString(n) else "-" + NatToString(-n)
  }

  /** `String(x)`, as a template literal renders a value: an array is the
      comma-joined rendering of its elements (`null` elements render
      empty), and an object is `[object Object]`. */
  function Display(x: Json): string
    decreases x
  {
    match x
    case JNull => "null"
    case JBool(b) => if b then "true" else "false"
    case JNum(n) => IntToString(n)
    case JStr(s) => s
    case JArr(items) =>
      Join(seq(|items|, i requires 0 <= i < |items| => if items[i] == JNull then "" else Display(items[i])), ",")
    case JObj(_) => "[object Object]"
  }

  /** `String(x ?? '')` for a possibly absent value. */
  function DisplayOr(x: Option<Json>, default: string): string
  {
    if x.None? || x.value == JNull then default else Display(x.value)
  }
}
