/** Parsed JSON values, as produced by `JSON.parse`. The JSON grammar itself is not
    modelled: a raw payload is given together with what parsing makes of it. */
module Json {
  import opened Wrappers

  datatype Json =
    | JNull
    | JBool(b: bool)
    | JNumber(n: real)
    | JString(str: string)
    | JArray(items: seq<Json>)
    | JObject(members: map<string, Json>)

  /** A raw text payload and the outcome of `JSON.parse` on it (`None`: it throws). */
  datatype Payload = Payload(text: string, parsed: Option<Json>)

  /** Property access `v.key` on a parsed value: only objects have own keys;
      every other value (apart from `null`, which throws and is handled by callers)
      yields `undefined`. */
  function Member(v: Json, key: string): (r: Option<Json>)
    ensures r.Some? <==> v.JObject? && key in v.members
    ensures r.Some? ==> r.value == v.members[key]
  {
    match v
    case JObject(m) => if key in m then Some(m[key]) else None
    case _ => None
  }
}
