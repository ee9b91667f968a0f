/**
 * What a Flask handler receives and returns, reduced to what the model needs:
 * a response is its status code and its message (the `"message"` or `"error"` text),
 * and a JSON request body is a dictionary of JSON values read with `dict.get`.
 */
module Http {

  /** `jsonify({...}), status`: the status code and the message or error text. */
  datatype Response = Response(status: int, message: string)

  const OK: int := 200
  const CREATED: int := 201
  const BAD_REQUEST: int := 400
  const FORBIDDEN: int := 403
  const NOT_FOUND: int := 404
  const SERVER_ERROR: int := 500

  /** JSON values as `request.json` decodes them (floats and objects are not modelled). */
  datatype Json = JNull | JBool(b: bool) | JInt(i: int) | JStr(s: string) | JList(items: seq<Json>)

  /** A decoded request body. */
  type Body = map<string, Json>

  /** `body.get(key)`: a missing key reads as `None`. */
  function Get(body: Body, key: string): (v: Json)
    ensures key !in body ==> v == JNull
  {
    if key in body then body[key] else JNull
  }

  /** Python truthiness: `None`, `False`, `0`, `""` and `[]` are falsy. */
  predicate Truthy(v: Json) {
    match v
    case JNull => false
    case JBool(b) => b
    case JInt(i) => i != 0
    case JStr(s) => s != ""
    case JList(items) => items != []
  }
}
