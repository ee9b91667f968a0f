/**
 * Stock lists: creating one, adding items, checking ownership, deleting, and the listing of
 * every list a user may see (`get_accessible_stock_lists`), each tagged with how the user
 * reaches it and carrying its items.
 */
module StockLists {
  import opened Wrappers
  import opened Http
  import opened Schema
  import Ordering
  import Text

  /** How the user reaches a listed list (`access_type`). */
  datatype AccessType = Owned | Shared | Public

  /** The CASE of the listing query: the creator owns it, else a SharedLists row shares it, else it is public. */
  function Access(list: StockList, listId: ListId, user: UserId, shared: set<(ListId, UserId)>): (a: AccessType)
    ensures a == Owned <==> list.owner == user
    ensures a == Shared <==> list.owner != user && (listId, user) in shared
    ensures a == Public <==> list.owner != user && (listId, user) !in shared
  {
    if list.owner == user then Owned
    else if (listId, user) in shared then Shared
    else Public
  }

  /** `if user_id:` — None and 0 are falsy. */
  predicate UserGiven(user: Option<UserId>) {
    user.Some? && user.value != 0
  }

  /** `if search_term:` — None and "" are falsy. */
  predicate TermGiven(term: Option<string>) {
    term.Some? && term.value != ""
  }

  /**
   * The WHERE clause of the listing: the creator has a Users row (the JOIN), the list is owned by,
   * shared with, or public to the given user (public only, without a user), and its name contains
   * the search term, ignoring case.
   */
  predicate Listed(lists: map<ListId, StockList>, users: map<UserId, string>, shared: set<(ListId, UserId)>,
                   user: Option<UserId>, term: Option<string>, id: ListId)
  {
    && id in lists && lists[id].owner in users
    && (if UserGiven(user)
        then lists[id].owner == user.value || (id, user.value) in shared || lists[id].visibility == PUBLIC
        else lists[id].visibility == PUBLIC)
    && (TermGiven(term) ==> Text.ILikeContains(lists[id].name, term.value))
  }

  /** One StockListItems row joined with its stock's company name. */
  datatype ItemView = ItemView(itemId: ItemId, list: ListId, symbol: Symbol, shares: int, companyName: string)

  /** One entry of `stockLists`: the list, its creator's name, the access type and its items. */
  datatype ListView = ListView(listId: ListId, list: StockList, creatorName: string, access: AccessType, items: seq<ItemView>)

  /** The row the listing query yields for list `id`, before its items are attached. */
  function RowFor(lists: map<ListId, StockList>, users: map<UserId, string>, shared: set<(ListId, UserId)>,
                  user: Option<UserId>, id: ListId): ListView
    requires id in lists && lists[id].owner in users
  {
    var list := lists[id];
    ListView(id, list, users[list.owner], if UserGiven(user) then Access(list, id, user.value, shared) else Public, [])
  }

  predicate DescendingId(a: ListId, b: ListId) {
    a >= b
  }

  /** The rows of the listing query, `ORDER BY sl.list_id DESC`. */
  function ListedRows(lists: map<ListId, StockList>, users: map<UserId, string>, shared: set<(ListId, UserId)>,
                      user: Option<UserId>, term: Option<string>): (rows: seq<ListView>)
    ensures forall i :: 0 <= i < |rows| ==>
      Listed(lists, users, shared, user, term, rows[i].listId) && rows[i] == RowFor(lists, users, shared, user, rows[i].listId)
    ensures forall id :: Listed(lists, users, shared, user, term, id) ==> exists i :: 0 <= i < |rows| && rows[i].listId == id
    ensures forall i, j :: 0 <= i < j < |rows| ==> rows[i].listId > rows[j].listId
  {
    var listed := set id | id in lists && Listed(lists, users, shared, user, term, id);
    var ids := Ordering.Elements(listed, DescendingId);
    var rows := seq(|ids|, i requires 0 <= i < |ids| && ids[i] in listed => RowFor(lists, users, shared, user, ids[i]));
    ListedRowsCover(lists, users, shared, user, term, listed, ids, rows);
    rows
  }

  /** The rows built from the listed ids, in descending order, are exactly the listed lists, descending. */
  lemma ListedRowsCover(lists: map<ListId, StockList>, users: map<UserId, string>, shared: set<(ListId, UserId)>,
                        user: Option<UserId>, term: Option<string>, listed: set<ListId>, ids: seq<ListId>,
                        rows: seq<ListView>)
    requires forall id :: id in listed <==> Listed(lists, users, shared, user, term, id)
    requires forall id :: id in ids <==> id in listed
    requires Ordering.SortedBy(ids, DescendingId) && forall i, j :: 0 <= i < j < |ids| ==> ids[i] != ids[j]
    requires |rows| == |ids|
    requires forall i :: 0 <= i < |ids| ==> Listed(lists, users, shared, user, term, ids[i]) && rows[i] == RowFor(lists, users, shared, user, ids[i])
    ensures forall i :: 0 <= i < |rows| ==>
      Listed(lists, users, shared, user, term, rows[i].listId) && rows[i] == RowFor(lists, users, shared, user, rows[i].listId)
    ensures forall id :: Listed(lists, users, shared, user, term, id) ==> exists i :: 0 <= i < |rows| && rows[i].listId == id
    ensures forall i, j :: 0 <= i < j < |rows| ==> rows[i].listId > rows[j].listId
  {
    forall id | Listed(lists, users, shared, user, term, id) ensures exists i :: 0 <= i < |rows| && rows[i].listId == id {
      assert id in listed;
      var i :| 0 <= i < |ids| && ids[i] == id;
      assert rows[i].listId == id;
    }
    forall i, j | 0 <= i < j < |rows| ensures rows[i].listId > rows[j].listId {
      assert DescendingId(ids[i], ids[j]) && ids[i] != ids[j];
    }
  }

  predicate AscendingItem(a: ItemId, b: ItemId) {
    a <= b
  }

  /** The items of list `listId` whose symbol has a Stocks row, in id order, with company names. */
  function ItemsOf(items: map<ItemId, ListItem>, stocks: map<Symbol, string>, listId: ListId): (r: seq<ItemView>)
    ensures forall i :: 0 <= i < |r| ==>
      && r[i].itemId in items && items[r[i].itemId].list == listId && items[r[i].itemId].symbol in stocks
      && r[i] == ItemView(r[i].itemId, listId, items[r[i].itemId].symbol, items[r[i].itemId].shares,
                          stocks[items[r[i].itemId].symbol])
    ensures forall id :: id in items && items[id].list == listId && items[id].symbol in stocks ==>
      exists i :: 0 <= i < |r| && r[i].itemId == id
    ensures forall i, j :: 0 <= i < j < |r| ==> r[i].itemId < r[j].itemId
  {
    var own := set id | id in items && items[id].list == listId && items[id].symbol in stocks;
    var ids := Ordering.Elements(own, AscendingItem);
    var r := seq(|ids|, i requires 0 <= i < |ids| && ids[i] in own =>
      ItemView(ids[i], listId, items[ids[i]].symbol, items[ids[i]].shares, stocks[items[ids[i]].symbol]));
    ItemRowsCover(items, stocks, listId, own, ids, r);
    r
  }

  /** The views built from the item ids of a list, ascending, are exactly that list's visible items. */
  lemma ItemRowsCover(items: map<ItemId, ListItem>, stocks: map<Symbol, string>, listId: ListId, own: set<ItemId>,
                      ids: seq<ItemId>, r: seq<ItemView>)
    requires forall id :: id in own <==> id in items && items[id].list == listId && items[id].symbol in stocks
    requires forall id :: id in ids <==> id in own
    requires Ordering.SortedBy(ids, AscendingItem) && forall i, j :: 0 <= i < j < |ids| ==> ids[i] != ids[j]
    requires |r| == |ids|
    requires forall i :: 0 <= i < |ids| ==>
      && ids[i] in items && items[ids[i]].symbol in stocks
      && r[i] == ItemView(ids[i], listId, items[ids[i]].symbol, items[ids[i]].shares, stocks[items[ids[i]].symbol])
    ensures forall i :: 0 <= i < |r| ==>
      && r[i].itemId in items && items[r[i].itemId].list == listId && items[r[i].itemId].symbol in stocks
      && r[i] == ItemView(r[i].itemId, listId, items[r[i].itemId].symbol, items[r[i].itemId].shares,
                          stocks[items[r[i].itemId].symbol])
    ensures forall id :: id in items && items[id].list == listId && items[id].symbol in stocks ==>
      exists i :: 0 <= i < |r| && r[i].itemId == id
    ensures forall i, j :: 0 <= i < j < |r| ==> r[i].itemId < r[j].itemId
  {
    forall id | id in items && items[id].list == listId && items[id].symbol in stocks
      ensures exists i :: 0 <= i < |r| && r[i].itemId == id
    {
      assert id in own;
      var i :| 0 <= i < |ids| && ids[i] == id;
      assert r[i].itemId == id;
    }
    forall i, j | 0 <= i < j < |r| ensures r[i].itemId < r[j].itemId {
      assert AscendingItem(ids[i], ids[j]) && ids[i] != ids[j];
    }
  }

  /**
   * `get_accessible_stock_lists(user_id, search_term)`: the listing query, then a loop that gives
   * every fetched list its own items.
   */
  method GetAccessibleStockLists(db: Database, user: Option<UserId>, term: Option<string>) returns (result: seq<ListView>)
    ensures var rows := ListedRows(db.lists, db.users, db.sharedLists, user, term);
      && |result| == |rows|
      && forall i :: 0 <= i < |rows| ==> result[i] == rows[i].(items := ItemsOf(db.listItems, db.stocks, rows[i].listId))
  {
    var rows := ListedRows(db.lists, db.users, db.sharedLists, user, term);
    result := rows;
    var i := 0;
    while i < |result|
      invariant 0 <= i <= |result| == |rows|
      invariant forall k :: 0 <= k < i ==> result[k] == rows[k].(items := ItemsOf(db.listItems, db.stocks, rows[k].listId))
      invariant forall k :: i <= k < |result| ==> result[k] == rows[k]
    {
      var items := ItemsOf(db.listItems, db.stocks, result[i].listId);
      result := result[i := result[i].(items := items)];
      i := i + 1;
    }
  }

  /** With a user, exactly the lists they own, that are shared with them, or that are public are listed. */
  lemma ListedWithUser(lists: map<ListId, StockList>, users: map<UserId, string>, shared: set<(ListId, UserId)>,
                       user: UserId, id: ListId)
    requires user != 0 && id in lists && lists[id].owner in users
    ensures Listed(lists, users, shared, Some(user), None, id)
        <==> lists[id].owner == user || (id, user) in shared || lists[id].visibility == PUBLIC
  {
  }

  /** Without a user only public lists are listed, and all of them are tagged public. */
  lemma AnonymousSeesOnlyPublic(lists: map<ListId, StockList>, users: map<UserId, string>, shared: set<(ListId, UserId)>,
                                term: Option<string>)
    ensures var rows := ListedRows(lists, users, shared, None, term);
      forall i :: 0 <= i < |rows| ==> rows[i].list.visibility == PUBLIC && rows[i].access == Public
  {
  }

  /** A search keeps exactly the lists that the unfiltered listing has and whose name contains the term. */
  lemma SearchNarrowsListing(lists: map<ListId, StockList>, users: map<UserId, string>, shared: set<(ListId, UserId)>,
                             user: Option<UserId>, term: string, id: ListId)
    requires term != ""
    ensures Listed(lists, users, shared, user, Some(term), id)
        <==> Listed(lists, users, shared, user, None, id) && Text.ILikeContains(lists[id].name, term)
  {
  }

  // ---------------------------------------------------------------------------
  // Ownership, creation, items and deletion
  // ---------------------------------------------------------------------------

  /** `verify_user_owns_list(user_id, list_id)`. */
  function VerifyUserOwnsList(lists: map<ListId, StockList>, user: UserId, listId: ListId): (owns: bool)
    ensures owns <==> listId in lists && lists[listId].owner == user
  {
    listId in lists && lists[listId].owner == user
  }

  datatype CreateResult = Created(response: Response, listId: ListId) | CreateFailed(response: Response)

  /**
   * `create_stock_list(user_id, name, visibility)`: a new list under the next id. A user without a
   * Users row breaks the foreign key, which the handler reports as 500 with nothing stored; the
   * SERIAL value the failed insert drew is not given back, as sequences ignore the rollback.
   */
  method CreateStockList(db: Database, user: UserId, name: string, visibility: string) returns (result: CreateResult)
    requires db.Valid()
    modifies db`lists, db`nextListId
    ensures db.Valid()
    ensures user !in db.users ==>
      && result.CreateFailed? && result.response.status == SERVER_ERROR
      && db.lists == old(db.lists) && db.nextListId == old(db.nextListId) + 1
    ensures user in db.users ==>
      && result == Created(Response(CREATED, "Stock list created"), old(db.nextListId))
      && old(db.nextListId) !in old(db.lists)
      && db.lists == old(db.lists)[old(db.nextListId) := StockList(user, name, visibility)]
      && db.nextListId == old(db.nextListId) + 1
  {
    if user !in db.users {
      db.nextListId := db.nextListId + 1;
      return CreateFailed(Response(SERVER_ERROR, "insert or update on table \"stocklists\" violates foreign key constraint"));
    }
    var id := db.nextListId;
    db.lists := db.lists[id := StockList(user, name, visibility)];
    db.nextListId := id + 1;
    result := Created(Response(CREATED, "Stock list created"), id);
  }

  datatype AddItemResult = ItemAdded(response: Response, item: ListItem, itemId: ItemId) | AddItemFailed(response: Response)

  /**
   * `add_item_to_stock_list(list_id, symbol, num_shares)`: registers an unknown symbol as
   * "Company SYMBOL", then appends the item. An unknown list breaks the foreign key: 500, and the
   * rollback also undoes the new Stocks row, but not the SERIAL value the item insert drew.
   */
  method AddItemToStockList(db: Database, listId: ListId, symbol: Symbol, shares: int) returns (result: AddItemResult)
    requires db.Valid()
    modifies db`stocks, db`listItems, db`nextItemId
    ensures db.Valid()
    ensures listId !in db.lists ==>
      && result.AddItemFailed? && result.response.status == SERVER_ERROR
      && db.stocks == old(db.stocks) && db.listItems == old(db.listItems) && db.nextItemId == old(db.nextItemId) + 1
    ensures listId in db.lists ==>
      && db.stocks == (if symbol in old(db.stocks) then old(db.stocks) else old(db.stocks)[symbol := "Company " + symbol])
      && db.listItems == old(db.listItems)[old(db.nextItemId) := ListItem(listId, symbol, shares)]
      && old(db.nextItemId) !in old(db.listItems)
      && db.nextItemId == old(db.nextItemId) + 1
      && result == ItemAdded(Response(CREATED, "Stock added to list"), ListItem(listId, symbol, shares), old(db.nextItemId))
  {
    // The Stocks insert comes first in the source, but a failed item insert rolls it back.
    if listId !in db.lists {
      db.nextItemId := db.nextItemId + 1;
      return AddItemFailed(Response(SERVER_ERROR, ITEM_LIST_MISSING));
    }
    if symbol !in db.stocks {
      db.stocks := db.stocks[symbol := "Company " + symbol];
    }
    var id := db.nextItemId;
    var item := ListItem(listId, symbol, shares);
    NewItemKeepsTables(db.listItems, db.lists, id, item);
    db.listItems := db.listItems[id := item];
    db.nextItemId := id + 1;
    result := ItemAdded(Response(CREATED, "Stock added to list"), item, id);
  }

  /** The database error of an item insert whose list does not exist. */
  const ITEM_LIST_MISSING: string := "insert or update on table \"stocklistitems\" violates foreign key constraint"

  /** A row stored under the next SERIAL id of an existing list keeps the id bound and the foreign key. */
  lemma NewItemKeepsTables(items: map<ItemId, ListItem>, lists: map<ListId, StockList>, next: ItemId, item: ListItem)
    requires KeysBelow(items.Keys, next) && ItemsInLists(items, lists) && item.list in lists
    ensures next !in items
    ensures KeysBelow(items[next := item].Keys, next + 1) && ItemsInLists(items[next := item], lists)
  {
  }

  /** After an item is added, its symbol always has a Stocks row, so the listing shows the item. */
  lemma AddedItemIsListed(items: map<ItemId, ListItem>, stocks: map<Symbol, string>, listId: ListId, symbol: Symbol,
                          shares: int, id: ItemId)
    ensures var stocksAfter := if symbol in stocks then stocks else stocks[symbol := "Company " + symbol];
      var itemsAfter := items[id := ListItem(listId, symbol, shares)];
      exists i :: 0 <= i < |ItemsOf(itemsAfter, stocksAfter, listId)| && ItemsOf(itemsAfter, stocksAfter, listId)[i].itemId == id
  {
    var stocksAfter := if symbol in stocks then stocks else stocks[symbol := "Company " + symbol];
    var itemsAfter := items[id := ListItem(listId, symbol, shares)];
    assert id in itemsAfter && itemsAfter[id].list == listId && itemsAfter[id].symbol in stocksAfter;
    var r := ItemsOf(itemsAfter, stocksAfter, listId);
    assert exists i :: 0 <= i < |r| && r[i].itemId == id;
  }

  /** The table without the rows that belonged to list `listId`. */
  function ItemsWithoutList(items: map<ItemId, ListItem>, listId: ListId): (r: map<ItemId, ListItem>)
    ensures forall id :: id in r <==> id in items && items[id].list != listId
    ensures forall id :: id in r ==> r[id] == items[id]
  {
    map id | id in items && items[id].list != listId :: items[id]
  }

  function ReviewsWithoutList(reviews: map<ReviewId, Review>, listId: ListId): (r: map<ReviewId, Review>)
    ensures forall id :: id in r <==> id in reviews && reviews[id].list != listId
    ensures forall id :: id in r ==> r[id] == reviews[id]
  {
    map id | id in reviews && reviews[id].list != listId :: reviews[id]
  }

  function SharesWithoutList(shared: set<(ListId, UserId)>, listId: ListId): (r: set<(ListId, UserId)>)
    ensures forall s :: s in r <==> s in shared && s.0 != listId
  {
    set s | s in shared && s.0 != listId
  }

  const DELETE_DENIED: string := "You don't have permission to delete this list or it doesn't exist"

  function DeletedMessage(listId: ListId): string {
    "Stock list " + Text.IntToString(listId) + " deleted successfully"
  }

  /** Removing a list with everything that refers to it keeps the foreign keys and the one-review rule. */
  lemma RemovedListKeepsTables(lists: map<ListId, StockList>, items: map<ItemId, ListItem>,
                               reviews: map<ReviewId, Review>, listId: ListId, nextList: ListId, nextReview: ReviewId, nextItem: ItemId)
    requires KeysBelow(lists.Keys, nextList) && KeysBelow(items.Keys, nextItem) && KeysBelow(reviews.Keys, nextReview)
    requires OneReviewPerUserAndList(reviews)
    ensures KeysBelow((lists - {listId}).Keys, nextList) && KeysBelow(ItemsWithoutList(items, listId).Keys, nextItem)
    ensures KeysBelow(ReviewsWithoutList(reviews, listId).Keys, nextReview)
    ensures ItemsInLists(items, lists) ==> ItemsInLists(ItemsWithoutList(items, listId), lists - {listId})
    ensures ReviewsInLists(reviews, lists) ==> ReviewsInLists(ReviewsWithoutList(reviews, listId), lists - {listId})
    ensures OneReviewPerUserAndList(ReviewsWithoutList(reviews, listId))
  {
  }

  /**
   * `delete_stock_list(list_id, user_id)`: 403 unless the user owns the list; otherwise the list is
   * deleted and the database's cascade removes its items, shares and reviews with it.
   */
  method DeleteStockList(db: Database, listId: ListId, user: UserId) returns (response: Response)
    requires db.Valid()
    modifies db`lists, db`listItems, db`sharedLists, db`reviews
    ensures db.Valid()
    ensures !VerifyUserOwnsList(old(db.lists), user, listId) ==>
      response == Response(FORBIDDEN, DELETE_DENIED) && unchanged(db)
    ensures VerifyUserOwnsList(old(db.lists), user, listId) ==>
      && response == Response(OK, DeletedMessage(listId))
      && db.lists == old(db.lists) - {listId}
      && db.listItems == ItemsWithoutList(old(db.listItems), listId)
      && db.sharedLists == SharesWithoutList(old(db.sharedLists), listId)
      && db.reviews == ReviewsWithoutList(old(db.reviews), listId)
  {
    if !(listId in db.lists && db.lists[listId].owner == user) {
      return Response(FORBIDDEN, DELETE_DENIED);
    }
    RemovedListKeepsTables(db.lists, db.listItems, db.reviews, listId, db.nextListId, db.nextReviewId, db.nextItemId);
    db.lists := db.lists - {listId};
    db.listItems := ItemsWithoutList(db.listItems, listId);
    db.sharedLists := SharesWithoutList(db.sharedLists, listId);
    db.reviews := ReviewsWithoutList(db.reviews, listId);
    response := Response(OK, DeletedMessage(listId));
  }
}
