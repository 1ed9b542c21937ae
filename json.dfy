/** Decoded JSON values, and the Python behaviour of the code that handles
    them: truthiness, `dict.get` with a default, `json.loads` and `json.dumps`. */
module Json {
  import opened Py

  /** A decoded JSON document. Numbers are integers only. */
  datatype Json =
    | JNull
    | JBool(b: bool)
    | JNumber(n: int)
    | JString(s: string)
    | JArray(items: seq<Json>)
    | JObject(fields: map<string, Json>)

  /** Python's truth value of a decoded document: `None`, `False`, `0`,
      `""`, `[]` and `{}` are falsy. */
  predicate Truthy(j: Json) {
    match j
    case JNull => false
    case JBool(b) => b
    case JNumber(n) => n != 0
    case JString(s) => s != ""
    case JArray(items) => items != []
    case JObject(fields) => fields != map[]
  }

  /** `d.get(key, default)` on a dict. */
  function Get(fields: map<string, Json>, key: string, default: Json): Json {
    if key in fields then fields[key] else default
  }

  /** `json.loads`, which either returns a value or raises. */
  type Decoder = string -> Option<Json>

  /** `json.dumps`. */
  type Encoder = Json -> string

  /** `json.loads("")` raises: the empty text is not a JSON document. */
  predicate RejectsEmpty(decode: Decoder) {
    decode("") == None
  }

  /** Decoding what was encoded gives back the same value. */
  ghost predicate RoundTrips(encode: Encoder, decode: Decoder) {
    forall j :: decode(encode(j)) == Some(j)
  }
}
