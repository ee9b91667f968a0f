/**
 * The guard clauses of the stock-list endpoints (`/stocklists/...`): required fields by
 * Python truthiness, the three visibilities, the optional `user_id` query parameter and the
 * ownership checks made through `verify_user_owns_list`. A request that passes is handed
 * to the db layer.
 */
module StockListRoutes {
  import opened Wrappers
  import opened Http
  import opened Schema
  import opened Routes
  import Text
  import StockLists

  const LIST_FIELDS_REQUIRED: Response := Response(BAD_REQUEST, "User ID, name, and visibility are required")
  const BAD_VISIBILITY: Response := Response(BAD_REQUEST, "Visibility must be private, shared, or public")
  const ITEM_FIELDS_REQUIRED: Response := Response(BAD_REQUEST, "List ID, symbol, and number of shares are required")
  const REMOVE_FIELDS_REQUIRED: Response := Response(BAD_REQUEST, "List ID, user ID, and symbol are required")
  const SHARE_FIELDS_REQUIRED: Response := Response(BAD_REQUEST, "Username, List Id, and Owner Id are required")
  const USER_REQUIRED: Response := Response(BAD_REQUEST, "User ID is required")
  const NOT_OWNER: Response := Response(FORBIDDEN, "You don't have permission to modify this list")

  /** `create_stock_list(user_id, name, visibility)`. */
  datatype CreateCall = CreateCall(user: Json, name: Json, visibility: string)

  /** `add_item_to_stock_list(list_id, symbol, num_shares)`. */
  datatype AddItemCall = AddItemCall(listId: Json, symbol: Json, shares: Json)

  /** `get_accessible_stock_lists(user_id, search)`. */
  datatype ListsCall = ListsCall(user: Option<int>, search: Option<string>)

  /** `delete_stock_list(list_id, user_id)`. */
  datatype DeleteCall = DeleteCall(listId: ListId, user: Json)

  /** `get_stock_list_by_id(list_id, user_id)`. */
  datatype ListByIdCall = ListByIdCall(listId: ListId, user: Option<int>)

  /** `update_stock_list(list_id, user_id, name, visibility)`. */
  datatype UpdateCall = UpdateCall(listId: ListId, user: Json, name: Json, visibility: string)

  /** `remove_item_from_stock_list(list_id, symbol)`. */
  datatype RemoveItemCall = RemoveItemCall(listId: Json, symbol: Json)

  /** `share_stock_list(owner_id, list_id, share_to_id)`. */
  datatype ShareCall = ShareCall(owner: Json, listId: Json, shareTo: UserId)

  /** `visibility in ["private", "shared", "public"]`: list membership compares with `==`. */
  predicate ValidVisibility(v: Json) {
    v.JStr? && IsVisibility(v.s)
  }

  /** The two guards create and update share: the three fields, then the visibility. */
  function ListFieldsRefusal(body: Body): (r: Option<Response>)
    ensures r.None? <==> Truthy(Get(body, "user_id")) && Truthy(Get(body, "name")) && ValidVisibility(Get(body, "visibility"))
    ensures r.Some? ==> r.value == (if Truthy(Get(body, "user_id")) && Truthy(Get(body, "name")) && Truthy(Get(body, "visibility"))
                                    then BAD_VISIBILITY else LIST_FIELDS_REQUIRED)
  {
    var (user, name, visibility) := (Get(body, "user_id"), Get(body, "name"), Get(body, "visibility"));
    if !Truthy(user) || !Truthy(name) || !Truthy(visibility) then Some(LIST_FIELDS_REQUIRED)
    else if !ValidVisibility(visibility) then Some(BAD_VISIBILITY)
    else None
  }

  /** `POST /stocklists/create` (create_list). */
  function CreateList(body: Body): (r: Outcome<CreateCall>)
    ensures r.Forward? <==> ListFieldsRefusal(body).None?
    ensures r.Reject? ==> r.response == ListFieldsRefusal(body).value
    ensures r.Forward? ==> && r.call.user == Get(body, "user_id") && r.call.name == Get(body, "name")
                           && JStr(r.call.visibility) == Get(body, "visibility") && IsVisibility(r.call.visibility)
  {
    match ListFieldsRefusal(body)
    case Some(response) => Reject(response)
    case None => Forward(CreateCall(Get(body, "user_id"), Get(body, "name"), Get(body, "visibility").s))
  }

  /** `POST /stocklists/add_item` (add_item): `num_shares` only has to be present, and ownership is checked only for a given user. */
  function AddItem(body: Body, lists: map<ListId, StockList>): (r: Outcome<AddItemCall>)
    ensures var (list, user, symbol, shares) := (Get(body, "list_id"), Get(body, "user_id"), Get(body, "symbol"), Get(body, "num_shares"));
      && (!(Truthy(list) && Truthy(symbol) && shares != JNull) ==> r == Reject(ITEM_FIELDS_REQUIRED))
      && (Truthy(list) && Truthy(symbol) && shares != JNull ==>
            if Truthy(user) && !OwnsList(lists, user, list) then r == Reject(NOT_OWNER)
            else r == Forward(AddItemCall(list, symbol, shares)))
  {
    var (list, user, symbol, shares) := (Get(body, "list_id"), Get(body, "user_id"), Get(body, "symbol"), Get(body, "num_shares"));
    if !Truthy(list) || !Truthy(symbol) || shares == JNull then Reject(ITEM_FIELDS_REQUIRED)
    else if Truthy(user) && !OwnsList(lists, user, list) then Reject(NOT_OWNER)
    else Forward(AddItemCall(list, symbol, shares))
  }

  /** `GET /stocklists/lists` (get_lists). */
  function GetLists(userArg: Option<string>, search: Option<string>): (r: Outcome<ListsCall>)
    ensures r.Reject? <==> ReadUserArg(userArg).Reject?
    ensures r.Reject? ==> r.response == INVALID_USER_ID
    ensures r.Forward? ==> r.call == ListsCall(ReadUserArg(userArg).call, search)
  {
    match ReadUserArg(userArg)
    case Reject(response) => Reject(response)
    case Forward(user) => Forward(ListsCall(user, search))
  }

  /** `DELETE /stocklists/<list_id>` (delete_list). */
  function DeleteList(listId: ListId, body: Body): (r: Outcome<DeleteCall>)
    ensures r.Forward? <==> Truthy(Get(body, "user_id"))
    ensures r.Reject? ==> r.response == USER_REQUIRED
    ensures r.Forward? ==> r.call == DeleteCall(listId, Get(body, "user_id"))
  {
    var user := Get(body, "user_id");
    if !Truthy(user) then Reject(USER_REQUIRED) else Forward(DeleteCall(listId, user))
  }

  /** `GET /stocklists/list/<list_id>` (get_list_by_id). */
  function GetListById(listId: ListId, userArg: Option<string>): (r: Outcome<ListByIdCall>)
    ensures r.Reject? <==> ReadUserArg(userArg).Reject?
    ensures r.Reject? ==> r.response == INVALID_USER_ID
    ensures r.Forward? ==> r.call == ListByIdCall(listId, ReadUserArg(userArg).call)
  {
    match ReadUserArg(userArg)
    case Reject(response) => Reject(response)
    case Forward(user) => Forward(ListByIdCall(listId, user))
  }

  /** `PUT /stocklists/update/<list_id>` (update_list): the create guards, then ownership. */
  function UpdateList(listId: ListId, body: Body, lists: map<ListId, StockList>): (r: Outcome<UpdateCall>)
    ensures r.Forward? <==> ListFieldsRefusal(body).None? && OwnsList(lists, Get(body, "user_id"), JInt(listId))
    ensures ListFieldsRefusal(body).Some? ==> r == Reject(ListFieldsRefusal(body).value)
    ensures ListFieldsRefusal(body).None? && !OwnsList(lists, Get(body, "user_id"), JInt(listId)) ==> r == Reject(NOT_OWNER)
    ensures r.Forward? ==> && r.call.listId == listId && r.call.user == Get(body, "user_id") && r.call.name == Get(body, "name")
                           && JStr(r.call.visibility) == Get(body, "visibility") && IsVisibility(r.call.visibility)
  {
    var user := Get(body, "user_id");
    match ListFieldsRefusal(body)
    case Some(response) => Reject(response)
    case None =>
      if !OwnsList(lists, user, JInt(listId)) then Reject(NOT_OWNER)
      else Forward(UpdateCall(listId, user, Get(body, "name"), Get(body, "visibility").s))
  }

  /** `DELETE /stocklists/remove_item` (remove_item). */
  function RemoveItem(body: Body, lists: map<ListId, StockList>): (r: Outcome<RemoveItemCall>)
    ensures var (list, user, symbol) := (Get(body, "list_id"), Get(body, "user_id"), Get(body, "symbol"));
      && (r.Forward? <==> Truthy(list) && Truthy(user) && Truthy(symbol) && OwnsList(lists, user, list))
      && (!(Truthy(list) && Truthy(user) && Truthy(symbol)) ==> r == Reject(REMOVE_FIELDS_REQUIRED))
      && (Truthy(list) && Truthy(user) && Truthy(symbol) && !OwnsList(lists, user, list) ==> r == Reject(NOT_OWNER))
      && (r.Forward? ==> r.call == RemoveItemCall(list, symbol))
  {
    var (list, user, symbol) := (Get(body, "list_id"), Get(body, "user_id"), Get(body, "symbol"));
    if !Truthy(list) || !Truthy(user) || !Truthy(symbol) then Reject(REMOVE_FIELDS_REQUIRED)
    else if !OwnsList(lists, user, list) then Reject(NOT_OWNER)
    else Forward(RemoveItemCall(list, symbol))
  }

  /**
   * `POST /stocklists/share` (share_list). `shareTo` is what `get_user_id_by_username(username)`
   * answers; a falsy answer (no user, or id 0) is a 404 naming the username.
   */
  function ShareList(body: Body, shareTo: Option<UserId>): (r: Outcome<ShareCall>)
    ensures var (name, list, owner) := (Get(body, "username"), Get(body, "listId"), Get(body, "ownerId"));
      && (!(Truthy(name) && Truthy(list) && Truthy(owner)) ==> r == Reject(SHARE_FIELDS_REQUIRED))
      && (Truthy(name) && Truthy(list) && Truthy(owner) && !StockLists.UserGiven(shareTo) ==>
            r == Reject(Response(NOT_FOUND, "User '" + PyStr(name) + "' not found")))
      && (r.Forward? <==> Truthy(name) && Truthy(list) && Truthy(owner) && StockLists.UserGiven(shareTo))
      && (r.Forward? ==> r.call == ShareCall(owner, list, shareTo.value))
  {
    var (name, list, owner) := (Get(body, "username"), Get(body, "listId"), Get(body, "ownerId"));
    if !Truthy(name) || !Truthy(list) || !Truthy(owner) then Reject(SHARE_FIELDS_REQUIRED)
    else if !StockLists.UserGiven(shareTo) then Reject(Response(NOT_FOUND, "User '" + PyStr(name) + "' not found"))
    else Forward(ShareCall(owner, list, shareTo.value))
  }

  /** A string username is quoted verbatim in the 404. */
  lemma UnknownUsernameIsNamed(body: Body, username: string)
    requires Get(body, "username") == JStr(username) && username != ""
    requires Truthy(Get(body, "listId")) && Truthy(Get(body, "ownerId"))
    ensures ShareList(body, None) == Reject(Response(NOT_FOUND, "User '" + username + "' not found"))
  {
  }

  /** Create and update refuse the same bodies with the same answers; a valid body then reaches update only from the owner. */
  lemma UpdateGuardsExtendCreate(listId: ListId, body: Body, lists: map<ListId, StockList>)
    ensures CreateList(body).Reject? ==> UpdateList(listId, body, lists) == Reject(CreateList(body).response)
    ensures CreateList(body).Forward? ==>
      (UpdateList(listId, body, lists).Forward? <==> OwnsList(lists, Get(body, "user_id"), JInt(listId)))
  {
  }

  /** Zero shares pass the required-fields guard: only `None` is refused. */
  lemma ZeroSharesPass(list: Json, symbol: Json, lists: map<ListId, StockList>)
    requires Truthy(list) && Truthy(symbol)
    ensures AddItem(map["list_id" := list, "symbol" := symbol, "num_shares" := JInt(0)], lists)
         == Forward(AddItemCall(list, symbol, JInt(0)))
  {
    var body := map["list_id" := list, "symbol" := symbol, "num_shares" := JInt(0)];
    assert Get(body, "user_id") == JNull;
  }

  /** Without a user, adding an item does not depend on who owns which list: anyone may add to any list. */
  lemma AddItemIgnoresOwnershipWithoutUser(body: Body, lists: map<ListId, StockList>, others: map<ListId, StockList>)
    requires !Truthy(Get(body, "user_id"))
    ensures AddItem(body, lists) == AddItem(body, others)
    ensures AddItem(body, lists) != Reject(NOT_OWNER)
  {
  }

  /** A forwarded update or item removal comes from the list's owner, as the db layer reads the ids. */
  lemma ForwardedChangesComeFromOwner(listId: ListId, body: Body, lists: map<ListId, StockList>)
    ensures UpdateList(listId, body, lists).Forward? ==>
      var user := SqlInt(Get(body, "user_id"));
      user.Some? && listId in lists && lists[listId].owner == user.value
    ensures RemoveItem(body, lists).Forward? ==>
      var (user, list) := (SqlInt(Get(body, "user_id")), SqlInt(Get(body, "list_id")));
      user.Some? && list.Some? && list.value in lists && lists[list.value].owner == user.value
  {
  }

  /** Lists requested with a printed user id reach the db layer as that user. */
  lemma GetListsOfPrintedId(id: int, search: Option<string>)
    ensures GetLists(Some(Text.IntToString(id)), search) == Forward(ListsCall(Some(id), search))
  {
    ReadUserArgOfPrintedId(id);
  }

  /** `?user_id=0` parses, but the listing then treats it as no user: the same lists, tagged the same way. */
  lemma ZeroUserListsAsAnonymous(lists: map<ListId, StockList>, users: map<UserId, string>,
                                 shared: set<(ListId, UserId)>, term: Option<string>, id: ListId)
    ensures StockLists.Listed(lists, users, shared, Some(0), term, id) == StockLists.Listed(lists, users, shared, None, term, id)
    ensures id in lists && lists[id].owner in users ==>
      StockLists.RowFor(lists, users, shared, Some(0), id) == StockLists.RowFor(lists, users, shared, None, id)
  {
  }
}
