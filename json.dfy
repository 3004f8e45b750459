/** The JSON values the frontend exchanges with the backend, read with
    JavaScript's property lookup and truthiness. */
module Json {
  import opened Text

  datatype Json =
    | JNull
    | JBool(b: bool)
    | JNum(n: int)
    | JStr(s: string)
    | JList(items: seq<Json>)
    | JObject(fields: map<string, Json>)

  type Object = map<string, Json>

  /** `obj[key]`: `None` stands for `undefined`. */
  function Get(obj: Object, key: string): (r: Option<Json>)
    ensures r.Some? <==> key in obj
  {
    if key in obj then Some(obj[key]) else None
  }

  /** `v.key` on any value: only an object has properties here. */
  function Field(v: Json, key: string): (r: Option<Json>)
    ensures r.Some? <==> v.JObject? && key in v.fields
  {
    if v.JObject? then Get(v.fields, key) else None
  }

  /** JavaScript truthiness: `undefined`, `null`, `false`, `0` and `''` are
      falsy; every array and object is truthy, even an empty one. */
  predicate Truthy(v: Option<Json>) {
    match v
    case None => false
    case Some(JNull) => false
    case Some(JBool(b)) => b
    case Some(JNum(n)) => n != 0
    case Some(JStr(s)) => s != ""
    case Some(JList(_)) => true
    case Some(JObject(_)) => true
  }

  /** `v || fallback`. */
  function Or(v: Option<Json>, fallback: Json): (r: Json)
    ensures Truthy(v) ==> r == v.value
    ensures !Truthy(v) ==> r == fallback
  {
    if Truthy(v) then v.value else fallback
  }

  /** `obj[key] || ''`: the value when it is truthy, otherwise the empty string. */
  function OrEmpty(obj: Object, key: string): (r: Json)
    ensures key !in obj ==> r == JStr("")
  {
    Or(Get(obj, key), JStr(""))
  }

  /** How a request to the backend ended: an ok response with its body, a
      response that was not ok with its body, or an exception. */
  datatype Outcome = Ok(body: Json) | NotOk(body: Json) | Failed
}
