/**
 * Buying and selling shares for a portfolio (`handle_stock_transaction`) and listing a
 * portfolio's holdings with their current value (`get_stock_holdings`).
 */
module StockTransactions {
  import opened Wrappers
  import opened Http
  import opened Schema
  import Ordering
  import Text

  const BUY: string := "buy"
  const SELL: string := "sell"
  const INVALID_KIND: string := "Invalid transaction type"
  const SHARES_NOT_POSITIVE: string := "Number of shares must be positive"
  const PRICE_NOT_POSITIVE: string := "Price per share must be positive"
  const NO_PORTFOLIO: string := "Portfolio not found"
  const NOT_PORTFOLIO_OWNER: string := "You don't have permission to modify this portfolio"
  const INSUFFICIENT_FUNDS: string := "Insufficient funds for purchase"

  /** Shares of `key` held; a missing StockHoldings row reads as 0, as the response does. */
  function Held(holdings: map<HoldingKey, int>, key: HoldingKey): int {
    if key in holdings then holdings[key] else 0
  }

  function NotEnoughShares(symbol: Symbol): string {
    "Not enough shares of " + symbol + " to sell"
  }

  /** Everything a trade needs to go through, stated independently of the order of the checks. */
  predicate TradePermitted(portfolios: map<PortfolioId, Portfolio>, holdings: map<HoldingKey, int>,
                           portfolioId: PortfolioId, symbol: Symbol, kind: string, shares: int,
                           price: Cents, user: UserId)
  {
    && (kind == BUY || kind == SELL)
    && shares > 0 && price > 0
    && portfolioId in portfolios && portfolios[portfolioId].owner == user
    && (kind == SELL ==> (portfolioId, symbol) in holdings && holdings[(portfolioId, symbol)] >= shares)
    && (kind == BUY ==> portfolios[portfolioId].balance >= shares * price)
  }

  /**
   * The error `handle_stock_transaction` answers with, checked in the source's order,
   * or None when the trade goes ahead.
   */
  function TradeRefusal(portfolios: map<PortfolioId, Portfolio>, holdings: map<HoldingKey, int>,
                        portfolioId: PortfolioId, symbol: Symbol, kind: string, shares: int,
                        price: Cents, user: UserId): (r: Option<Response>)
    ensures r.None? <==> TradePermitted(portfolios, holdings, portfolioId, symbol, kind, shares, price, user)
    ensures r.Some? ==> r.value.status in {BAD_REQUEST, FORBIDDEN, NOT_FOUND}
    ensures r.Some? && r.value.status == NOT_FOUND
      <==> (kind == BUY || kind == SELL) && shares > 0 && price > 0 && portfolioId !in portfolios
    ensures r.Some? && r.value.status == FORBIDDEN
      <==> (kind == BUY || kind == SELL) && shares > 0 && price > 0
           && portfolioId in portfolios && portfolios[portfolioId].owner != user
  {
    if kind != BUY && kind != SELL then Some(Response(BAD_REQUEST, INVALID_KIND))
    else if shares <= 0 then Some(Response(BAD_REQUEST, SHARES_NOT_POSITIVE))
    else if price <= 0 then Some(Response(BAD_REQUEST, PRICE_NOT_POSITIVE))
    else if portfolioId !in portfolios then Some(Response(NOT_FOUND, NO_PORTFOLIO))
    else if portfolios[portfolioId].owner != user then
      Some(Response(FORBIDDEN, NOT_PORTFOLIO_OWNER))
    else if kind == SELL && ((portfolioId, symbol) !in holdings || holdings[(portfolioId, symbol)] < shares) then
      Some(Response(BAD_REQUEST, NotEnoughShares(symbol)))
    else if kind == BUY && portfolios[portfolioId].balance < shares * price then
      Some(Response(BAD_REQUEST, INSUFFICIENT_FUNDS))
    else None
  }

  /** The three input checks come before any table is read: their answer does not depend on the tables. */
  lemma InputChecksPrecedeLookups(p1: map<PortfolioId, Portfolio>, h1: map<HoldingKey, int>,
                                  p2: map<PortfolioId, Portfolio>, h2: map<HoldingKey, int>,
                                  portfolioId: PortfolioId, symbol: Symbol, kind: string, shares: int,
                                  price: Cents, user: UserId)
    requires (kind != BUY && kind != SELL) || shares <= 0 || price <= 0
    ensures TradeRefusal(p1, h1, portfolioId, symbol, kind, shares, price, user)
         == TradeRefusal(p2, h2, portfolioId, symbol, kind, shares, price, user)
    ensures TradeRefusal(p1, h1, portfolioId, symbol, kind, shares, price, user).Some?
    ensures TradeRefusal(p1, h1, portfolioId, symbol, kind, shares, price, user).value.status == BAD_REQUEST
  {
  }

  /** The cash a trade moves: a buy pays `shares * price`, a sell receives it. */
  function BalanceChange(kind: string, shares: int, price: Cents): (d: int)
    ensures shares > 0 && price > 0 ==> (kind == BUY <==> d < 0)
    ensures d == shares * price || d == -(shares * price)
  {
    if kind == BUY then -(shares * price) else shares * price
  }

  /** StockHoldings after the upsert of a buy, or the decrement and clean-up delete of a sell. */
  function HoldingsAfter(holdings: map<HoldingKey, int>, key: HoldingKey, kind: string, shares: int): (r: map<HoldingKey, int>)
    ensures forall k :: k != key ==> (k in r <==> k in holdings)
    ensures forall k :: k != key && k in r ==> r[k] == holdings[k]
    ensures kind == BUY ==> key in r && r[key] == Held(holdings, key) + shares
    ensures kind != BUY && key in holdings ==>
      (key in r <==> holdings[key] - shares > 0) && Held(r, key) == (if holdings[key] - shares > 0 then holdings[key] - shares else 0)
    ensures kind != BUY && key !in holdings ==> r == holdings
    ensures PositiveHoldings(holdings) && shares > 0 ==> PositiveHoldings(r)
  {
    if kind == BUY then holdings[key := Held(holdings, key) + shares]
    else if key !in holdings then holdings
    else if holdings[key] - shares <= 0 then holdings - {key}
    else holdings[key := holdings[key] - shares]
  }

  /** Stocks after the trade: an unknown symbol is registered as "Company SYMBOL". */
  function StocksAfter(stocks: map<Symbol, string>, symbol: Symbol): (r: map<Symbol, string>)
    ensures symbol in r && r.Keys == stocks.Keys + {symbol}
    ensures forall s :: s in stocks ==> r[s] == stocks[s]
    ensures symbol !in stocks ==> r[symbol] == "Company " + symbol
  {
    if symbol in stocks then stocks else stocks[symbol := "Company " + symbol]
  }

  /** The price row a trade records for its day: every price is the trade price, the volume its shares. */
  function TradePriceRow(price: Cents, shares: int): (row: PriceRow)
    ensures row.open == row.high == row.low == Some(row.close) && row.close == price && row.volume == shares
  {
    PriceRow(Some(price), Some(price), Some(price), price, shares)
  }

  /** StockPrices after the trade: a row for (symbol, today) is added only when none exists and today is recent enough. */
  function PricesAfter(prices: map<PriceKey, PriceRow>, symbol: Symbol, today: Date, price: Cents, shares: int): (r: map<PriceKey, PriceRow>)
    ensures forall k :: k in prices ==> k in r && r[k] == prices[k]
    ensures forall k :: k in r && k !in prices ==> k == (symbol, today)
    ensures (symbol, today) in r && (symbol, today) !in prices
      <==> (symbol, today) !in prices && today >= FIRST_NEW_PRICE_DATE
    ensures (symbol, today) !in prices && today >= FIRST_NEW_PRICE_DATE ==> r[(symbol, today)] == TradePriceRow(price, shares)
  {
    if (symbol, today) !in prices && today >= FIRST_NEW_PRICE_DATE then prices[(symbol, today) := TradePriceRow(price, shares)]
    else prices
  }

  /** What `handle_stock_transaction` answers: an error, or 201 with the recorded trade and the new balance and shares. */
  datatype TradeResult =
    | TradeRefused(response: Response)
    | Traded(response: Response, transaction: StockTransaction, updatedBalance: Cents, updatedShares: int, symbol: Symbol)

  /**
   * Buys or sells `shares` of `symbol` for portfolio `portfolioId` at `price` per share on behalf of
   * `user`, on day `today` at time `now`. A refused trade is not committed, so it changes nothing,
   * not even the Stocks row the source inserts before the share and funds checks.
   */
  method HandleStockTransaction(db: Database, portfolioId: PortfolioId, symbol: Symbol, kind: string,
                                shares: int, price: Cents, user: UserId, today: Date, now: Seconds)
    returns (result: TradeResult)
    requires PositiveHoldings(db.holdings)
    modifies db`portfolios, db`holdings, db`stocks, db`stockTransactions, db`prices
    ensures PositiveHoldings(db.holdings)
    ensures var refusal := TradeRefusal(old(db.portfolios), old(db.holdings), portfolioId, symbol, kind, shares, price, user);
      refusal.Some? ==> result == TradeRefused(refusal.value) && unchanged(db)
    ensures var refusal := TradeRefusal(old(db.portfolios), old(db.holdings), portfolioId, symbol, kind, shares, price, user);
      refusal.None? ==>
        var key := (portfolioId, symbol);
        var before := old(db.portfolios)[portfolioId];
        var record := StockTransaction(portfolioId, symbol, kind, shares, price, now);
        && db.portfolios == old(db.portfolios)[portfolioId := before.(balance := before.balance + BalanceChange(kind, shares, price))]
        && db.holdings == HoldingsAfter(old(db.holdings), key, kind, shares)
        && db.stocks == StocksAfter(old(db.stocks), symbol)
        && db.stockTransactions == old(db.stockTransactions) + [record]
        && db.prices == PricesAfter(old(db.prices), symbol, today, price, shares)
        && result == Traded(Response(CREATED, "Stock " + kind + " successful"), record,
                            db.portfolios[portfolioId].balance, Held(db.holdings, key), symbol)
  {
    var refusal := CheckTrade(db, portfolioId, symbol, kind, shares, price, user);
    if refusal.Some? {
      return TradeRefused(refusal.value);
    }
    result := CommitTrade(db, portfolioId, symbol, kind, shares, price, today, now);
  }

  /**
   * The checks of `handle_stock_transaction`, in its order, with the Stocks insert it makes
   * between them. The insert belongs to the uncommitted transaction, so a later refusal
   * rolls it back.
   */
  method CheckTrade(db: Database, portfolioId: PortfolioId, symbol: Symbol, kind: string,
                    shares: int, price: Cents, user: UserId)
    returns (refusal: Option<Response>)
    modifies db`stocks
    ensures refusal == TradeRefusal(db.portfolios, db.holdings, portfolioId, symbol, kind, shares, price, user)
    ensures db.stocks == if refusal.Some? then old(db.stocks) else StocksAfter(old(db.stocks), symbol)
  {
    if kind != BUY && kind != SELL {
      return Some(Response(BAD_REQUEST, INVALID_KIND));
    }
    if shares <= 0 {
      return Some(Response(BAD_REQUEST, SHARES_NOT_POSITIVE));
    }
    if price <= 0 {
      return Some(Response(BAD_REQUEST, PRICE_NOT_POSITIVE));
    }
    if portfolioId !in db.portfolios {
      return Some(Response(NOT_FOUND, NO_PORTFOLIO));
    }
    if db.portfolios[portfolioId].owner != user {
      return Some(Response(FORBIDDEN, NOT_PORTFOLIO_OWNER));
    }

    var stocksBefore := db.stocks;
    if symbol !in db.stocks {
      db.stocks := db.stocks[symbol := "Company " + symbol];
    }

    var key := (portfolioId, symbol);
    if kind == SELL && (key !in db.holdings || db.holdings[key] < shares) {
      db.stocks := stocksBefore;
      return Some(Response(BAD_REQUEST, NotEnoughShares(symbol)));
    }
    var total := shares * price;
    if kind == BUY && db.portfolios[portfolioId].balance < total {
      db.stocks := stocksBefore;
      return Some(Response(BAD_REQUEST, INSUFFICIENT_FUNDS));
    }
    refusal := None;
  }

  /**
   * The committed part of a trade, run once every check has passed: the balance, the holding,
   * the trade record and today's price row, then the response read back from the tables.
   */
  method CommitTrade(db: Database, portfolioId: PortfolioId, symbol: Symbol, kind: string,
                     shares: int, price: Cents, today: Date, now: Seconds)
    returns (result: TradeResult)
    requires (kind == BUY || kind == SELL) && portfolioId in db.portfolios && shares > 0
    requires kind == SELL ==> (portfolioId, symbol) in db.holdings
    requires PositiveHoldings(db.holdings)
    modifies db`portfolios, db`holdings, db`stockTransactions, db`prices
    ensures PositiveHoldings(db.holdings)
    ensures var key := (portfolioId, symbol);
      var before := old(db.portfolios)[portfolioId];
      var record := StockTransaction(portfolioId, symbol, kind, shares, price, now);
      && db.portfolios == old(db.portfolios)[portfolioId := before.(balance := before.balance + BalanceChange(kind, shares, price))]
      && db.holdings == HoldingsAfter(old(db.holdings), key, kind, shares)
      && db.stockTransactions == old(db.stockTransactions) + [record]
      && db.prices == PricesAfter(old(db.prices), symbol, today, price, shares)
      && result == Traded(Response(CREATED, "Stock " + kind + " successful"), record,
                          db.portfolios[portfolioId].balance, Held(db.holdings, key), symbol)
  {
    var key := (portfolioId, symbol);
    var total := shares * price;
    // 1. balance
    var change := if kind == BUY then -total else total;
    var p := db.portfolios[portfolioId];
    db.portfolios := db.portfolios[portfolioId := p.(balance := p.balance + change)];

    // 2. holding: upsert on a buy; decrement, then delete when no shares remain, on a sell
    if kind == BUY {
      db.holdings := db.holdings[key := (if key in db.holdings then db.holdings[key] else 0) + shares];
    } else {
      var left := db.holdings[key] - shares;
      db.holdings := db.holdings[key := left];
      if db.holdings[key] <= 0 {
        db.holdings := db.holdings - {key};
        assert db.holdings == old(db.holdings) - {key};
      }
    }
    assert db.holdings == HoldingsAfter(old(db.holdings), key, kind, shares);

    // 3. the trade record
    var record := StockTransaction(portfolioId, symbol, kind, shares, price, now);
    db.stockTransactions := db.stockTransactions + [record];

    // 4. today's price row, unless one exists or the day is before new prices are accepted
    if (symbol, today) !in db.prices && today >= FIRST_NEW_PRICE_DATE {
      db.prices := db.prices[(symbol, today) := TradePriceRow(price, shares)];
    }

    var updatedShares := if key in db.holdings then db.holdings[key] else 0;
    result := Traded(Response(CREATED, "Stock " + kind + " successful"), record,
                     db.portfolios[portfolioId].balance, updatedShares, symbol);
  }

  /** A permitted trade never leaves the portfolio with a negative balance if it had none. */
  lemma PermittedTradeKeepsBalanceNonNegative(portfolios: map<PortfolioId, Portfolio>, holdings: map<HoldingKey, int>,
                                              portfolioId: PortfolioId, symbol: Symbol, kind: string, shares: int,
                                              price: Cents, user: UserId)
    requires TradeRefusal(portfolios, holdings, portfolioId, symbol, kind, shares, price, user).None?
    requires portfolioId in portfolios && portfolios[portfolioId].balance >= 0
    ensures portfolios[portfolioId].balance + BalanceChange(kind, shares, price) >= 0
  {
  }

  /** Selling everything one holds removes the holding, and the response reports 0 shares. */
  lemma SellingEverythingRemovesHolding(holdings: map<HoldingKey, int>, key: HoldingKey)
    requires key in holdings
    ensures key !in HoldingsAfter(holdings, key, SELL, holdings[key])
    ensures Held(HoldingsAfter(holdings, key, SELL, holdings[key]), key) == 0
  {
  }

  /** A buy followed by a sell of the same shares restores the holdings and the balance change cancels. */
  lemma {:induction false} BuyThenSellRestores(holdings: map<HoldingKey, int>, key: HoldingKey, shares: int, price: Cents)
    requires shares > 0
    ensures HoldingsAfter(HoldingsAfter(holdings, key, BUY, shares), key, SELL, shares)
         == (if key in holdings && holdings[key] > 0 then holdings else holdings - {key})
    ensures BalanceChange(BUY, shares, price) + BalanceChange(SELL, shares, price) == 0
  {
    var afterBuy := HoldingsAfter(holdings, key, BUY, shares);
    var afterSell := HoldingsAfter(afterBuy, key, SELL, shares);
    if key in holdings && holdings[key] > 0 {
      assert afterSell == holdings;
    } else {
      assert afterSell == holdings - {key};
    }
  }

  // ---------------------------------------------------------------------------
  // get_stock_holdings
  // ---------------------------------------------------------------------------

  /** The close of the latest StockPrices row of `symbol` (`ORDER BY timestamp DESC LIMIT 1`), None without rows. */
  function LatestClose(prices: map<PriceKey, PriceRow>, symbol: Symbol): (r: Option<Cents>)
    ensures r.None? <==> forall d :: (symbol, d) !in prices
    ensures r.Some? ==> exists d :: (symbol, d) in prices && prices[(symbol, d)].close == r.value
                                    && forall e :: (symbol, e) in prices ==> e <= d
  {
    var dates := set k | k in prices && k.0 == symbol :: k.1;
    assert forall d :: (symbol, d) in prices ==> d in dates;
    if dates == {} then
      None
    else
      var latest := Ordering.Max(dates);
      assert (symbol, latest) in prices by {
        var k :| k in prices && k.0 == symbol && k.1 == latest;
      }
      Some(prices[(symbol, latest)].close)
  }

  /** One entry of the holdings response. */
  datatype HoldingView = HoldingView(symbol: Symbol, shares: int, companyName: string,
                                     currentPrice: Option<Cents>, totalValue: Option<Cents>)

  /** `num_shares * current_price`, or None when the stock has no price. */
  function TotalValue(shares: int, currentPrice: Option<Cents>): (v: Option<Cents>)
    ensures v.Some? <==> currentPrice.Some?
    ensures v.Some? ==> v.value == shares * currentPrice.value
  {
    match currentPrice
    case None => None
    case Some(price) => Some(shares * price)
  }

  predicate ByCompanyName(a: HoldingView, b: HoldingView) {
    Text.LexLe(a.companyName, b.companyName)
  }

  lemma ByCompanyNameIsTotalPreorder()
    ensures Ordering.TotalPreorder(ByCompanyName)
  {
    forall a: HoldingView, b: HoldingView ensures ByCompanyName(a, b) || ByCompanyName(b, a) {
      Text.LexLeTotal(a.companyName, b.companyName);
    }
    forall a: HoldingView, b: HoldingView, c: HoldingView | ByCompanyName(a, b) && ByCompanyName(b, c)
      ensures ByCompanyName(a, c)
    {
      Text.LexLeTransitive(a.companyName, b.companyName, c.companyName);
    }
  }

  predicate SymbolLe(a: Symbol, b: Symbol) {
    Text.LexLe(a, b)
  }

  lemma SymbolLeIsLinearOrder()
    ensures Ordering.TotalPreorder(SymbolLe) && Ordering.Antisymmetric(SymbolLe)
  {
    forall a: Symbol, b: Symbol ensures SymbolLe(a, b) || SymbolLe(b, a) {
      Text.LexLeTotal(a, b);
    }
    forall a: Symbol, b: Symbol, c: Symbol | SymbolLe(a, b) && SymbolLe(b, c) ensures SymbolLe(a, c) {
      Text.LexLeTransitive(a, b, c);
    }
    forall a: Symbol, b: Symbol | SymbolLe(a, b) && SymbolLe(b, a) ensures a == b {
      Text.LexLeAntisymmetric(a, b);
    }
  }

  /** The symbols the portfolio holds that have a Stocks row (the inner JOIN). */
  function HeldSymbols(holdings: map<HoldingKey, int>, stocks: map<Symbol, string>, portfolioId: PortfolioId): (r: set<Symbol>)
    ensures forall s :: s in r <==> (portfolioId, s) in holdings && s in stocks
  {
    set k | k in holdings && k.0 == portfolioId && k.1 in stocks :: k.1
  }

  /** The row the query returns for one held symbol, before `total_value` is attached. */
  function QueryRow(holdings: map<HoldingKey, int>, stocks: map<Symbol, string>, prices: map<PriceKey, PriceRow>,
                    portfolioId: PortfolioId, symbol: Symbol): HoldingView
    requires (portfolioId, symbol) in holdings && symbol in stocks
  {
    HoldingView(symbol, holdings[(portfolioId, symbol)], stocks[symbol], LatestClose(prices, symbol), None)
  }

  /** The rows of the holdings query, ordered by company name. */
  function HoldingRows(holdings: map<HoldingKey, int>, stocks: map<Symbol, string>, prices: map<PriceKey, PriceRow>,
                       portfolioId: PortfolioId): (rows: seq<HoldingView>)
    ensures |rows| == |HeldSymbols(holdings, stocks, portfolioId)|
    ensures forall s :: s in HeldSymbols(holdings, stocks, portfolioId)
                        <==> exists i :: 0 <= i < |rows| && rows[i].symbol == s
    ensures forall i :: 0 <= i < |rows| ==>
      rows[i].symbol in HeldSymbols(holdings, stocks, portfolioId)
      && rows[i] == QueryRow(holdings, stocks, prices, portfolioId, rows[i].symbol)
    ensures Ordering.SortedBy(rows, ByCompanyName)
  {
    SymbolLeIsLinearOrder();
    ByCompanyNameIsTotalPreorder();
    var held := HeldSymbols(holdings, stocks, portfolioId);
    var symbols := Ordering.Elements(held, SymbolLe);
    var unsorted := seq(|symbols|, i requires 0 <= i < |symbols| => QueryRow(holdings, stocks, prices, portfolioId, symbols[i]));
    var rows := Ordering.Sort(unsorted, ByCompanyName);
    SortedRowsCoverSymbols(holdings, stocks, prices, portfolioId, held, symbols, unsorted, rows);
    rows
  }

  /** Sorting the rows of the held symbols keeps exactly one row per symbol. */
  lemma SortedRowsCoverSymbols(holdings: map<HoldingKey, int>, stocks: map<Symbol, string>, prices: map<PriceKey, PriceRow>,
                               portfolioId: PortfolioId, held: set<Symbol>, symbols: seq<Symbol>,
                               unsorted: seq<HoldingView>, rows: seq<HoldingView>)
    requires held == HeldSymbols(holdings, stocks, portfolioId)
    requires |symbols| == |held| && forall s :: s in symbols <==> s in held
    requires |unsorted| == |symbols|
    requires forall i :: 0 <= i < |symbols| ==> unsorted[i] == QueryRow(holdings, stocks, prices, portfolioId, symbols[i])
    requires multiset(rows) == multiset(unsorted)
    ensures |rows| == |held|
    ensures forall s :: s in held <==> exists i :: 0 <= i < |rows| && rows[i].symbol == s
    ensures forall i :: 0 <= i < |rows| ==>
      rows[i].symbol in held && rows[i] == QueryRow(holdings, stocks, prices, portfolioId, rows[i].symbol)
  {
    assert |rows| == |multiset(rows)| == |multiset(unsorted)| == |unsorted|;
    forall x ensures x in rows <==> x in unsorted {
      assert x in rows <==> x in multiset(rows);
      assert x in unsorted <==> x in multiset(unsorted);
    }
    forall i | 0 <= i < |rows|
      ensures rows[i].symbol in held && rows[i] == QueryRow(holdings, stocks, prices, portfolioId, rows[i].symbol)
    {
      assert rows[i] in unsorted;
      var k :| 0 <= k < |unsorted| && unsorted[k] == rows[i];
      assert symbols[k] in held;
    }
    forall s | s in held ensures exists i :: 0 <= i < |rows| && rows[i].symbol == s {
      var j :| 0 <= j < |symbols| && symbols[j] == s;
      assert unsorted[j] in rows;
    }
  }

  datatype HoldingsResult = HoldingsDenied(response: Response) | HoldingsListed(holdings: seq<HoldingView>)

  /** A fetched row with its `total_value` attached. */
  function WithTotal(row: HoldingView): (v: HoldingView)
    ensures v.totalValue == TotalValue(row.shares, row.currentPrice)
    ensures v.(totalValue := row.totalValue) == row
  {
    row.(totalValue := TotalValue(row.shares, row.currentPrice))
  }

  /**
   * `get_stock_holdings`: 403 unless `user` owns the portfolio; otherwise the holdings rows,
   * each given its `total_value` by the loop over the fetched rows.
   */
  method GetStockHoldings(db: Database, portfolioId: PortfolioId, user: UserId) returns (result: HoldingsResult)
    ensures result.HoldingsDenied? <==> !(portfolioId in db.portfolios && db.portfolios[portfolioId].owner == user)
    ensures result.HoldingsDenied? ==> result.response == Response(FORBIDDEN, "Portfolio not found or access denied")
    ensures result.HoldingsListed? ==>
      var rows := HoldingRows(db.holdings, db.stocks, db.prices, portfolioId);
      && |result.holdings| == |rows|
      && forall i :: 0 <= i < |rows| ==> result.holdings[i] == WithTotal(rows[i])
  {
    if !(portfolioId in db.portfolios && db.portfolios[portfolioId].owner == user) {
      return HoldingsDenied(Response(FORBIDDEN, "Portfolio not found or access denied"));
    }
    var rows := HoldingRows(db.holdings, db.stocks, db.prices, portfolioId);
    var holdings := AttachTotals(rows);
    return HoldingsListed(holdings);
  }

  /** The loop of `get_stock_holdings` that sets each fetched row's `total_value`. */
  method AttachTotals(rows: seq<HoldingView>) returns (holdings: seq<HoldingView>)
    ensures |holdings| == |rows|
    ensures forall i :: 0 <= i < |rows| ==> holdings[i] == WithTotal(rows[i])
  {
    holdings := rows;
    var i := 0;
    while i < |holdings|
      invariant 0 <= i <= |holdings| == |rows|
      invariant forall j :: 0 <= j < i ==> holdings[j] == WithTotal(rows[j])
      invariant forall j :: i <= j < |holdings| ==> holdings[j] == rows[j]
    {
      var holding := holdings[i];
      if holding.currentPrice.Some? {
        holdings := holdings[i := holding.(totalValue := Some(holding.shares * holding.currentPrice.value))];
      } else {
        holdings := holdings[i := holding.(totalValue := None)];
      }
      i := i + 1;
    }
  }
}
