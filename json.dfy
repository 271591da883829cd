/** The untyped JSON values that serde_json hands to the program. */
module JsonValue {
  import opened Wrappers

  /** A JSON value. Numbers are integers; non-integral numbers are not part
      of this model. */
  datatype Json =
    | JNull
    | JBool(b: bool)
    | JNumber(n: int)
    | JString(str: string)
    | JArray(items: seq<Json>)
    | JObject(fields: map<string, Json>)

  /** `Value::get(key)`: the member of an object; `None` when the key is
      missing and for every value that is not an object. */
  function Get(j: Json, key: string): Option<Json> {
    if j.JObject? && key in j.fields then Some(j.fields[key]) else None
  }

  const U64_LIMIT: int := 0x1_0000_0000_0000_0000

  /** `Value::as_u64`: a number that fits an unsigned 64-bit integer. */
  function AsU64(j: Json): (r: Option<int>)
    ensures r.Some? ==> 0 <= r.value < U64_LIMIT && j == JNumber(r.value)
    ensures j.JNumber? && 0 <= j.n < U64_LIMIT ==> r.Some?
  {
    if j.JNumber? && 0 <= j.n < U64_LIMIT then Some(j.n) else None
  }
}
