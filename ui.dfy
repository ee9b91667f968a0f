/**
 * What the frontend pages share: the logged-in user they read from local storage, the
 * toasts they show, and how JavaScript reads a JSON reply (`data.x || fallback`,
 * `String(value)`, truthiness).
 */
module Ui {
  import opened Wrappers
  import opened Http
  import Text

  /** The backend's base URL. */
  const API: string := "http://localhost:8000"

  /** The `{ user_id, username }` object stored under `user`. */
  datatype User = User(userId: int, username: string)

  /** A toast notification. */
  datatype Toast = ErrorToast(text: string) | InfoToast(text: string) | SuccessToast(text: string, description: string)

  /** JavaScript truthiness: `null`, `false`, `0` and `""` are falsy; every array is truthy. */
  predicate JsTruthy(v: Json) {
    match v
    case JNull => false
    case JBool(b) => b
    case JInt(i) => i != 0
    case JStr(s) => s != ""
    case JList(_) => true
  }

  /** `String(v)`: an array prints its elements joined by commas, `null` elements as nothing. */
  function JsString(v: Json): (r: string)
    ensures v.JStr? ==> r == v.s
    ensures v.JInt? ==> r == Text.IntToString(v.i)
    decreases v
  {
    match v
    case JNull => "null"
    case JBool(b) => if b then "true" else "false"
    case JInt(i) => Text.IntToString(i)
    case JStr(s) => s
    case JList(items) => JoinElements(items)
  }

  /** The elements of an array as `Array.prototype.join` prints them. */
  function JoinElements(items: seq<Json>): string
    decreases items
  {
    if items == [] then ""
    else
      var first := if items[0].JNull? then "" else JsString(items[0]);
      if |items| == 1 then first else first + "," + JoinElements(items[1..])
  }

  /** `data.error || fallback`: the reply's error text when it has a truthy one. */
  function ErrorText(data: Body, fallback: string): (t: string)
    ensures Get(data, "error").JStr? && Get(data, "error").s != "" ==> t == Get(data, "error").s
    ensures !JsTruthy(Get(data, "error")) ==> t == fallback
  {
    var error := Get(data, "error");
    if JsTruthy(error) then JsString(error) else fallback
  }

  /** Whether a fetch sent a request: the URL it fetches, or the toast it showed instead (if any). */
  datatype Fetch = NotStarted(toast: Option<Toast>) | Started(url: string)

  /** A reply as a page sees it: a parsed body with `res.ok` true or false, or a thrown error's text. */
  datatype Reply = Ok(data: Body) | NotOk(data: Body) | Thrown(message: string)
}
