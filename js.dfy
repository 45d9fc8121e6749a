/** The JavaScript values that flow through property bags: what `typeof` reports
    and which of them are truthy. */
module Js {

  datatype JsValue =
    | Undefined
    | Null
    | Bool(b: bool)
    | Number(n: int)
    | Str(s: string)
    | Object(entries: seq<(string, JsValue)>)
    | Array(items: seq<JsValue>)

  /** `typeof v`: `null` and arrays are reported as "object". */
  function TypeOf(v: JsValue): (tag: string)
    ensures tag in {"undefined", "boolean", "number", "string", "object"}
    ensures tag == "object" <==> v.Null? || v.Object? || v.Array?
  {
    match v
    case Undefined => "undefined"
    case Null => "object"
    case Bool(_) => "boolean"
    case Number(_) => "number"
    case Str(_) => "string"
    case Object(_) => "object"
    case Array(_) => "object"
  }

  /** JavaScript truthiness: `undefined`, `null`, `false`, `0` and `""` are falsy. */
  predicate Truthy(v: JsValue) {
    match v
    case Undefined => false
    case Null => false
    case Bool(b) => b
    case Number(n) => n != 0
    case Str(s) => s != ""
    case Object(_) => true
    case Array(_) => true
  }

  /** Truthy strings are exactly the non-empty ones: the `x || default` idiom. */
  function OrDefault(s: string, default: string): (r: string)
    ensures s != "" ==> r == s
    ensures s == "" ==> r == default
  {
    if s != "" then s else default
  }

  /** `v?.name` on an object read from `entries`: the value under the first entry
      named `name`, and `undefined` when there is none or `v` is not an object. */
  function Field(v: JsValue, name: string): (r: JsValue)
    ensures !v.Object? ==> r.Undefined?
    ensures v.Object? && (forall i :: 0 <= i < |v.entries| ==> v.entries[i].0 != name) ==> r.Undefined?
  {
    if v.Object? then FieldIn(v.entries, name) else Undefined
  }

  function FieldIn(entries: seq<(string, JsValue)>, name: string): (r: JsValue)
    ensures (forall i :: 0 <= i < |entries| ==> entries[i].0 != name) ==> r.Undefined?
    ensures forall i :: 0 <= i < |entries| && entries[i].0 == name && (forall j :: 0 <= j < i ==> entries[j].0 != name) ==> r == entries[i].1
    decreases |entries|
  {
    if entries == [] then Undefined
    else if entries[0].0 == name then entries[0].1
    else FieldIn(entries[1..], name)
  }
}
