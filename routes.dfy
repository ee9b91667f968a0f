/**
 * What the Flask route handlers share: a handler either answers the request itself (a
 * guard clause's early return) or hands the values it read on to a db-layer function.
 * Values read from a JSON body stay JSON values; the Python built-ins the guards apply
 * to them (`len`, `str`, `int`) and the way PostgreSQL compares them with an integer
 * column are written out here.
 */
module Routes {
  import opened Wrappers
  import opened Http
  import opened Schema
  import Text
  import StockLists

  /** A handler's decision: answer with `response`, or call the db layer with `call`. */
  datatype Outcome<T> = Reject(response: Response) | Forward(call: T)

  /** Flask's answer to an exception the handler does not catch. */
  const UNCAUGHT_ERROR: Response := Response(SERVER_ERROR, "Internal Server Error")

  const INVALID_USER_ID: Response := Response(BAD_REQUEST, "Invalid user ID format")

  /** `len(v)`; `None` stands for the TypeError it raises on a number, a boolean or `None`. */
  function PyLen(v: Json): (n: Option<nat>)
    ensures v.JStr? ==> n == Some(|v.s|)
    ensures v.JList? ==> n == Some(|v.items|)
    ensures n.None? <==> !v.JStr? && !v.JList?
  {
    match v
    case JStr(s) => Some(|s|)
    case JList(items) => Some(|items|)
    case _ => None
  }

  /** `str(v)`, as an f-string prints it; a list shows its elements' `repr`s. */
  function PyStr(v: Json): (r: string)
    ensures v.JStr? ==> r == v.s
    ensures v.JInt? ==> r == Text.IntToString(v.i)
    ensures v.JList? ==> |r| >= 2 && r[0] == '[' && r[|r| - 1] == ']'
    decreases v
  {
    match v
    case JNull => "None"
    case JBool(b) => if b then "True" else "False"
    case JInt(i) => Text.IntToString(i)
    case JStr(s) => s
    case JList(items) => "[" + JoinRepr(items) + "]"
  }

  /** The elements' `repr`s separated by `", "` (quotes inside strings are not escaped). */
  function JoinRepr(items: seq<Json>): string
    decreases items
  {
    if items == [] then ""
    else
      var first := if items[0].JStr? then "'" + items[0].s + "'" else PyStr(items[0]);
      if |items| == 1 then first else first + ", " + JoinRepr(items[1..])
  }

  /**
   * The integer PostgreSQL compares `v` with when `v` is bound as a parameter next to an
   * integer column (`list_id = %s`): an integer as itself, a string through the same
   * integer input rules as `int(...)` (surrounding blanks, a sign, decimal digits).
   * `None` stands for a failing statement (a boolean, a list, a string that is not an
   * integer) and for `NULL`, which matches no row.
   */
  function SqlInt(v: Json): (r: Option<int>)
    ensures v.JInt? ==> r == Some(v.i)
    ensures v.JStr? ==> r == Text.ParsePyInt(v.s)
    ensures !v.JInt? && !v.JStr? ==> r.None?
  {
    match v
    case JInt(i) => Some(i)
    case JStr(s) => Text.ParsePyInt(s)
    case _ => None
  }

  /**
   * `verify_user_owns_list(user_id, list_id)` called with request values: the EXISTS query,
   * with a failing statement read as `False` as its `except` clause does.
   */
  function OwnsList(lists: map<ListId, StockList>, user: Json, listId: Json): (owns: bool)
    ensures owns <==> SqlInt(user).Some? && SqlInt(listId).Some?
                      && StockLists.VerifyUserOwnsList(lists, SqlInt(user).value, SqlInt(listId).value)
  {
    match (SqlInt(user), SqlInt(listId))
    case (Some(u), Some(l)) => StockLists.VerifyUserOwnsList(lists, u, l)
    case _ => false
  }

  /**
   * The `user_id` query parameter: `if user_id: user_id = int(user_id)`, answering 400 on a
   * ValueError. An absent or empty parameter goes on as "no user".
   */
  function ReadUserArg(arg: Option<string>): (r: Outcome<Option<int>>)
    ensures r.Reject? <==> arg.Some? && arg.value != "" && Text.ParsePyInt(arg.value).None?
    ensures r.Reject? ==> r.response == INVALID_USER_ID
    ensures r.Forward? ==> (r.call.Some? <==> arg.Some? && arg.value != "")
    ensures r.Forward? && r.call.Some? ==> Text.ParsePyInt(arg.value) == r.call
  {
    if arg.None? || arg.value == "" then Forward(None)
    else
      match Text.ParsePyInt(arg.value)
      case None => Reject(INVALID_USER_ID)
      case Some(n) => Forward(Some(n))
  }

  /** A user id printed in decimal is read back as that id. */
  lemma ReadUserArgOfPrintedId(id: int)
    ensures ReadUserArg(Some(Text.IntToString(id))) == Forward(Some(id))
  {
    Text.ParsePyIntOfIntToString(id);
  }

  /** A parameter with a letter in it is refused. */
  lemma ReadUserArgRefusesLetters(arg: string)
    requires exists i :: 0 <= i < |arg| && 'a' <= arg[i] <= 'z'
    ensures ReadUserArg(Some(arg)) == Reject(INVALID_USER_ID)
  {
    var i :| 0 <= i < |arg| && 'a' <= arg[i] <= 'z';
    Text.ParsePyIntRejectsLetters(arg, i);
  }
}
