/**
 * The tables of the application's PostgreSQL database that the db layer reads and writes,
 * as one object whose fields are the tables. Tables with a natural key, and tables whose rows
 * get deleted, are maps from their primary key (a serial key comes from a counter of the next
 * id to hand out); tables whose rows are never deleted are sequences in insertion order, and a
 * row's serial id is its position plus one.
 */
module Schema {
  import opened Wrappers

  type UserId = int
  type PortfolioId = int
  type ListId = int
  type ReviewId = int
  type ItemId = int
  type Symbol = string

  /** Money, in cents. */
  type Cents = int

  /**
   * A calendar date written as the number YYYYMMDD. For the zero-padded text `%Y-%m-%d`
   * that the source compares, comparing these numbers gives the same answer.
   */
  type Date = int

  /** A point in time, in seconds. */
  type Seconds = int

  /** The first day for which new price rows are accepted; the loaded history ends the day before. */
  const FIRST_NEW_PRICE_DATE: Date := 20180208

  const PRIVATE: string := "private"
  const SHARED: string := "shared"
  const PUBLIC: string := "public"

  predicate IsVisibility(v: string) {
    v == PRIVATE || v == SHARED || v == PUBLIC
  }

  /** A row of Portfolios. */
  datatype Portfolio = Portfolio(owner: UserId, name: string, balance: Cents)

  /** StockHoldings is keyed by (portfolio_id, symbol). */
  type HoldingKey = (PortfolioId, Symbol)

  /** A row of StockTransactions. */
  datatype StockTransaction = StockTransaction(
    portfolio: PortfolioId, symbol: Symbol, kind: string, shares: int, price: Cents, time: Seconds)

  /** A row of StockPrices, keyed by (symbol, timestamp); open, high and low may be NULL. */
  datatype PriceRow = PriceRow(open: Option<Cents>, high: Option<Cents>, low: Option<Cents>, close: Cents, volume: int)

  type PriceKey = (Symbol, Date)

  /** A row of CashTransactions. */
  datatype CashTransaction = CashTransaction(portfolio: PortfolioId, kind: string, amount: Cents, time: Seconds)

  datatype RequestStatus = Pending | Accepted | Rejected | Deleted

  /** A row of FriendRequests. */
  datatype FriendRequest = FriendRequest(from: UserId, to: UserId, status: RequestStatus, time: Seconds)

  /** A row of StockLists. */
  datatype StockList = StockList(owner: UserId, name: string, visibility: string)

  /** A row of StockListItems. */
  datatype ListItem = ListItem(list: ListId, symbol: Symbol, shares: int)

  /** A row of Reviews. */
  datatype Review = Review(user: UserId, list: ListId, content: string, time: Seconds)

  /** Friends rows are keyed by the pair (user1_id, user2_id), stored smaller id first. */
  function Normalise(a: UserId, b: UserId): (p: (UserId, UserId))
    ensures p.0 <= p.1
    ensures {p.0, p.1} == {a, b}
  {
    if a <= b then (a, b) else (b, a)
  }

  /** The two requests join the same two users, in either direction. */
  predicate SamePair(r: FriendRequest, q: FriendRequest) {
    (r.from == q.from && r.to == q.to) || (r.from == q.to && r.to == q.from)
  }

  // ---------------------------------------------------------------------------
  // Table invariants
  // ---------------------------------------------------------------------------

  /** Every id in use is below the next id the SERIAL column hands out. */
  predicate KeysBelow(ids: set<int>, next: int) {
    forall id :: id in ids ==> id < next
  }

  /** Every StockListItems row belongs to an existing list (the foreign key). */
  predicate ItemsInLists(listItems: map<ItemId, ListItem>, lists: map<ListId, StockList>) {
    forall id :: id in listItems ==> listItems[id].list in lists
  }

  /** Every Reviews row belongs to an existing list (the foreign key). */
  predicate ReviewsInLists(reviews: map<ReviewId, Review>, lists: map<ListId, StockList>) {
    forall id :: id in reviews ==> reviews[id].list in lists
  }

  /** No stored holding has zero or fewer shares. */
  predicate PositiveHoldings(holdings: map<HoldingKey, int>) {
    forall k :: k in holdings ==> holdings[k] > 0
  }

  predicate NormalisedFriends(friends: map<(UserId, UserId), Seconds>) {
    forall p :: p in friends ==> p.0 <= p.1
  }

  /** Each unordered pair of users has at most one pending request. */
  predicate OnePendingPerPair(requests: seq<FriendRequest>) {
    forall i, j :: 0 <= i < j < |requests| && requests[i].status == Pending && requests[j].status == Pending
      ==> !SamePair(requests[i], requests[j])
  }

  /** Each user has at most one review per list. */
  predicate OneReviewPerUserAndList(reviews: map<ReviewId, Review>) {
    forall a, b :: a in reviews && b in reviews && a != b
      ==> reviews[a].user != reviews[b].user || reviews[a].list != reviews[b].list
  }

  class Database {
    var users: map<UserId, string>
    var portfolios: map<PortfolioId, Portfolio>
    var holdings: map<HoldingKey, int>
    var stocks: map<Symbol, string>
    var stockTransactions: seq<StockTransaction>
    var prices: map<PriceKey, PriceRow>
    var cashTransactions: seq<CashTransaction>
    var requests: seq<FriendRequest>
    var friends: map<(UserId, UserId), Seconds>
    var lists: map<ListId, StockList>
    var sharedLists: set<(ListId, UserId)>
    var listItems: map<ItemId, ListItem>
    var reviews: map<ReviewId, Review>
    var nextListId: ListId
    var nextReviewId: ReviewId
    var nextItemId: ItemId

    ghost predicate Valid()
      reads this
    {
      && PositiveHoldings(holdings)
      && NormalisedFriends(friends)
      && OnePendingPerPair(requests)
      && OneReviewPerUserAndList(reviews)
      && KeysBelow(lists.Keys, nextListId)
      && KeysBelow(reviews.Keys, nextReviewId)
      && KeysBelow(listItems.Keys, nextItemId)
      && ItemsInLists(listItems, lists)
      && ReviewsInLists(reviews, lists)
    }

    /** An empty database. */
    constructor ()
      ensures Valid()
      ensures users == map[] && portfolios == map[] && holdings == map[] && stocks == map[]
      ensures stockTransactions == [] && prices == map[] && cashTransactions == []
      ensures requests == [] && friends == map[] && lists == map[] && sharedLists == {}
      ensures listItems == map[] && reviews == map[] && nextListId == 1 && nextReviewId == 1 && nextItemId == 1
    {
      users, portfolios, holdings, stocks := map[], map[], map[], map[];
      stockTransactions, prices, cashTransactions := [], map[], [];
      requests, friends, lists, sharedLists := [], map[], map[], {};
      listItems, reviews, nextListId, nextReviewId, nextItemId := map[], map[], 1, 1, 1;
    }
  }
}
