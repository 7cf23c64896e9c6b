/**
 * Decoded JSON values, as `json.loads` hands them to Python code, and the few Python
 * operations the enrichment scripts apply to them: truthiness and `dict.get`.
 */
module Json {
  import opened Common

  /** A decoded JSON value. Numbers with a fraction or an exponent are not modelled. */
  datatype Json =
    | JNull
    | JBool(b: bool)
    | JInt(i: int)
    | JString(s: string)
    | JArray(items: seq<Json>)
    | JObject(fields: map<string, Json>)

  /** `json.loads` on a string: a value, or `None` where it raises `JSONDecodeError`.
      The parser itself is not modelled; every operation that calls it takes it as a
      parameter. */
  type Parser = string -> Option<Json>

  /** Python truthiness: `None`, `False`, `0`, `""`, `[]` and `{}` are false. */
  predicate Truthy(v: Json) {
    match v
    case JNull => false
    case JBool(b) => b
    case JInt(i) => i != 0
    case JString(s) => s != ""
    case JArray(xs) => xs != []
    case JObject(m) => m != map[]
  }

  /** `d.get(k)`: the value under `k`, or `None` when there is none. */
  function Get(d: map<string, Json>, k: string): Json {
    if k in d then d[k] else JNull
  }
}
