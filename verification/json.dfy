/**
 * A decoded JSON value, as `json.loads` returns it: `None`, a boolean, a number, a string, a
 * list or a dictionary keyed by strings.  Decoding itself is not modelled; the kolscan scraper
 * receives the decoder as a parameter.
 */
module JsonValues {
  import opened PyNumbers

  datatype Json =
    | JNull
    | JBool(b: bool)
    | JNumber(n: Decimal)
    | JString(s: string)
    | JArray(items: seq<Json>)
    | JObject(fields: map<string, Json>)

  /** `obj.get(key)`: the member's value, or `None` when the key is missing. */
  function Member(fields: map<string, Json>, key: string): Json
  {
    if key in fields then fields[key] else JNull
  }
}
