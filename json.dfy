/**
 * JSON values as `JSONSerialization` delivers them (objects are dictionaries,
 * so key order is irrelevant), and the conditional casts the decoder applies
 * to them (`as? [String: Any]`, `as? [[String: Any]]`, `as? String`).
 */
module Json {
  import opened Wrappers

  datatype Json =
    | JNull
    | JBool(b: bool)
    | JNumber(n: real)
    | JString(s: string)
    | JArray(items: seq<Json>)
    | JObject(fields: map<string, Json>)

  type Object = map<string, Json>

  /** An array whose every element is an object. */
  predicate IsObjectArray(j: Json) {
    j.JArray? && forall i :: 0 <= i < |j.items| ==> j.items[i].JObject?
  }

  /** `j as? [String: Any]` */
  function AsObject(j: Json): (r: Option<Object>)
    ensures r.Some? <==> j.JObject?
    ensures r.Some? ==> j == JObject(r.value)
  {
    if j.JObject? then Some(j.fields) else None
  }

  /** `j as? String` */
  function AsString(j: Json): (r: Option<string>)
    ensures r.Some? <==> j.JString?
    ensures r.Some? ==> j == JString(r.value)
  {
    if j.JString? then Some(j.s) else None
  }

  /** `j as? [[String: Any]]`: succeeds only when every element is an object. */
  function AsObjectArray(j: Json): (r: Option<seq<Object>>)
    ensures r.Some? <==> IsObjectArray(j)
    ensures r.Some? ==> |r.value| == |j.items|
    ensures r.Some? ==> forall i :: 0 <= i < |r.value| ==> j.items[i] == JObject(r.value[i])
  {
    if IsObjectArray(j) then Some(seq(|j.items|, i requires 0 <= i < |j.items| => j.items[i].fields))
    else None
  }

  /** Dictionary subscript. */
  function Get(o: Object, key: string): Option<Json> {
    if key in o then Some(o[key]) else None
  }

  /** `Array.first` */
  function First<T>(s: seq<T>): Option<T> {
    if |s| == 0 then None else Some(s[0])
  }
}
