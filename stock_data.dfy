/**
 * The price browser's backend: `get_stock_data`, which builds one filtered, paginated statement
 * over StockPrices together with its COUNT statement, and `get_stock_symbols`.
 * Statements are kept as pieces of text and `%s` placeholders together with a list of bound
 * parameters, as psycopg2 receives them; what the database returns for them is given by
 * separate functions.
 */
module StockData {
  import opened Wrappers
  import opened Http
  import opened Schema
  import Ordering
  import Text
  import StockTransactions

  /** A value bound to one `%s` placeholder. */
  datatype Param = PatternParam(pattern: string) | DateParam(text: string) | IntParam(n: int)

  /** The fixed SQL fragments the two statements are assembled from. */
  datatype Clause =
    | SelectRows | SelectCount | SymbolLike | FromDate | ToDate | NewestFirst | Limit | Offset | LatestPerSymbol

  /** The text of each fragment, up to the line breaks and indentation of the source. */
  function ClauseText(c: Clause): string {
    match c
    case SelectRows => "SELECT * FROM StockPrices WHERE 1=1"
    case SelectCount => "SELECT COUNT(*) FROM StockPrices WHERE 1=1"
    case SymbolLike => " AND symbol ILIKE "
    case FromDate => " AND timestamp >= "
    case ToDate => " AND timestamp <= "
    case NewestFirst => " ORDER BY timestamp DESC, symbol ASC"
    case Limit => " LIMIT "
    case Offset => " OFFSET "
    case LatestPerSymbol =>
      "SELECT * FROM (SELECT DISTINCT ON (symbol) * FROM StockPrices ORDER BY symbol, timestamp DESC) AS latest_prices ORDER BY volume DESC"
  }

  /** A piece of a statement: a fixed fragment, or a `%s` placeholder. */
  datatype Piece = Sql(clause: Clause) | Slot

  /** A statement as psycopg2 receives it: text with placeholders. */
  type Statement = seq<Piece>

  /** The statement text, with `%s` for each placeholder. */
  function Render(s: Statement): string {
    if s == [] then "" else (match s[0] case Sql(c) => ClauseText(c) case Slot => "%s") + Render(s[1..])
  }

  /** The number of `%s` placeholders of a statement. */
  function Slots(s: Statement): nat {
    multiset(s)[Slot]
  }

  const SELECT_ROWS: Statement := [Sql(SelectRows)]
  const SELECT_COUNT: Statement := [Sql(SelectCount)]
  const SYMBOL_CONDITION: Statement := [Sql(SymbolLike), Slot]
  const START_CONDITION: Statement := [Sql(FromDate), Slot]
  const END_CONDITION: Statement := [Sql(ToDate), Slot]
  const NEWEST_FIRST: Statement := [Sql(NewestFirst)]
  const PAGINATION: Statement := [Sql(Limit), Slot, Sql(Offset), Slot]
  /** The default statement without filters: each symbol's latest row, most traded first. */
  const LATEST_PER_SYMBOL: Statement := [Sql(LatestPerSymbol)]

  /**
   * `if symbol or start_date or end_date`. The dates are the query texts as they arrive, "" when
   * absent; PostgreSQL casts a given one to a date when the statement runs.
   */
  predicate Filtered(symbol: string, start: string, end: string) {
    symbol != "" || start != "" || end != ""
  }

  /** The parameters of the filters, in the order the conditions are appended. */
  function FilterParams(symbol: string, start: string, end: string): seq<Param> {
    (if symbol != "" then [PatternParam(Text.ContainsPattern(symbol))] else [])
    + (if start != "" then [DateParam(start)] else [])
    + (if end != "" then [DateParam(end)] else [])
  }

  /** The conditions the filters add to both statements. */
  function Conditions(symbol: string, start: string, end: string): Statement {
    (if symbol != "" then SYMBOL_CONDITION else [])
    + (if start != "" then START_CONDITION else [])
    + (if end != "" then END_CONDITION else [])
  }

  /** Each condition brings exactly one placeholder, in step with its parameter. */
  lemma ConditionsMatchParams(symbol: string, start: string, end: string)
    ensures Slots(Conditions(symbol, start, end)) == |FilterParams(symbol, start, end)|
  {
  }

  datatype StockQuery = StockQuery(query: Statement, countQuery: Statement, params: seq<Param>)

  /**
   * The first part of `get_stock_data`: both statements start from every row and receive the
   * same conditions, symbol first, then the start date, then the end date, each with its parameter.
   */
  method AppendFilters(symbol: string, start: string, end: string)
    returns (query: Statement, countQuery: Statement, params: seq<Param>)
    ensures query == SELECT_ROWS + Conditions(symbol, start, end)
    ensures countQuery == SELECT_COUNT + Conditions(symbol, start, end)
    ensures params == FilterParams(symbol, start, end)
  {
    query := SELECT_ROWS;
    countQuery := SELECT_COUNT;
    params := [];
    ghost var conditions: Statement := [];
    if symbol != "" {
      query := query + SYMBOL_CONDITION;
      countQuery := countQuery + SYMBOL_CONDITION;
      params := params + [PatternParam(Text.ContainsPattern(symbol))];
      conditions := conditions + SYMBOL_CONDITION;
    }
    if start != "" {
      query := query + START_CONDITION;
      countQuery := countQuery + START_CONDITION;
      params := params + [DateParam(start)];
      conditions := conditions + START_CONDITION;
    }
    if end != "" {
      query := query + END_CONDITION;
      countQuery := countQuery + END_CONDITION;
      params := params + [DateParam(end)];
      conditions := conditions + END_CONDITION;
    }
    assert query == SELECT_ROWS + conditions && countQuery == SELECT_COUNT + conditions;
  }

  /**
   * The statement building of `get_stock_data(symbol, start_date, end_date, page, per_page)`:
   * after the filters, the row statement gets its ordering (or is replaced by the default
   * statement when there is no filter) and the pagination, and the parameters end with the limit
   * and the offset `(page - 1) * per_page`. Both statements carry exactly as many placeholders as
   * the parameters bound to them, the COUNT statement taking all but the last two.
   */
  method BuildStockQuery(symbol: string, start: string, end: string, page: int, perPage: int)
    returns (q: StockQuery)
    ensures q.params == FilterParams(symbol, start, end) + [IntParam(perPage), IntParam((page - 1) * perPage)]
    ensures q.countQuery == SELECT_COUNT + Conditions(symbol, start, end)
    ensures Filtered(symbol, start, end) ==>
      q.query == SELECT_ROWS + Conditions(symbol, start, end) + NEWEST_FIRST + PAGINATION
    ensures !Filtered(symbol, start, end) ==> q.query == LATEST_PER_SYMBOL + PAGINATION
    ensures Slots(q.query) == |q.params|
    ensures |q.params| >= 2 && Slots(q.countQuery) == |q.params[..|q.params| - 2]|
    ensures q.params[..|q.params| - 2] == FilterParams(symbol, start, end)
  {
    var query, countQuery, params := AppendFilters(symbol, start, end);
    StatementPlaceholders(symbol, start, end);
    if !Filtered(symbol, start, end) {
      query := LATEST_PER_SYMBOL + PAGINATION;
    } else {
      query := query + NEWEST_FIRST + PAGINATION;
    }
    var offset := (page - 1) * perPage;
    var all := params + [IntParam(perPage), IntParam(offset)];
    assert all[..|all| - 2] == params;
    q := StockQuery(query, countQuery, all);
  }

  /** Both statements carry exactly as many placeholders as the parameters bound to them. */
  lemma StatementPlaceholders(symbol: string, start: string, end: string)
    ensures Slots(SELECT_COUNT + Conditions(symbol, start, end)) == |FilterParams(symbol, start, end)|
    ensures Slots(SELECT_ROWS + Conditions(symbol, start, end) + NEWEST_FIRST + PAGINATION)
         == |FilterParams(symbol, start, end)| + 2
    ensures Slots(LATEST_PER_SYMBOL + PAGINATION) == 2
  {
    var c := Conditions(symbol, start, end);
    ConditionsMatchParams(symbol, start, end);
    assert multiset(SELECT_COUNT + c) == multiset(SELECT_COUNT) + multiset(c);
    assert multiset(SELECT_ROWS + c + NEWEST_FIRST + PAGINATION)
        == multiset(SELECT_ROWS) + multiset(c) + multiset(NEWEST_FIRST) + multiset(PAGINATION);
    assert multiset(LATEST_PER_SYMBOL + PAGINATION) == multiset(LATEST_PER_SYMBOL) + multiset(PAGINATION);
    assert Slots(SELECT_COUNT) == 0;
    assert Slots(SELECT_ROWS) == 0;
    assert Slots(NEWEST_FIRST) == 0;
    assert Slots(LATEST_PER_SYMBOL) == 0;
    assert Slots(PAGINATION) == 2;
  }

  // ---------------------------------------------------------------------------
  // What the statements return
  // ---------------------------------------------------------------------------

  /** One StockPrices row with its key. */
  datatype StockRow = StockRow(key: PriceKey, price: PriceRow)

  /**
   * The WHERE clause: the symbol matches the pattern `%term%` under ILIKE (the term's own `%` and
   * `_` act as wildcards), and the date lies within the inclusive bounds the cast dates set.
   */
  predicate Matches(key: PriceKey, symbol: string, start: Option<Date>, end: Option<Date>) {
    && (symbol == "" || Text.ILikeContains(key.0, symbol))
    && (start.None? || key.1 >= start.value)
    && (end.None? || key.1 <= end.value)
  }

  /** `ORDER BY timestamp DESC, symbol ASC`. */
  predicate NewestThenSymbol(a: PriceKey, b: PriceKey) {
    a.1 > b.1 || (a.1 == b.1 && StockTransactions.SymbolLe(a.0, b.0))
  }

  lemma NewestThenSymbolIsLinearOrder()
    ensures Ordering.TotalPreorder(NewestThenSymbol) && Ordering.Antisymmetric(NewestThenSymbol)
  {
    StockTransactions.SymbolLeIsLinearOrder();
  }

  /** The keys of the filtered statement, in its order; a key is unique, so the order is total. */
  function MatchingKeys(prices: map<PriceKey, PriceRow>, symbol: string, start: Option<Date>, end: Option<Date>)
    : (keys: seq<PriceKey>)
    ensures forall k :: k in keys <==> k in prices && Matches(k, symbol, start, end)
    ensures |keys| == |set k | k in prices && Matches(k, symbol, start, end)|
    ensures Ordering.SortedBy(keys, NewestThenSymbol)
    ensures forall i, j :: 0 <= i < j < |keys| ==> keys[i] != keys[j]
  {
    NewestThenSymbolIsLinearOrder();
    var matching := set k | k in prices && Matches(k, symbol, start, end);
    Ordering.Elements(matching, NewestThenSymbol)
  }

  /** The rows of the filtered statement before LIMIT and OFFSET. */
  function MatchingRows(prices: map<PriceKey, PriceRow>, symbol: string, start: Option<Date>, end: Option<Date>)
    : (rows: seq<StockRow>)
    ensures |rows| == |MatchingKeys(prices, symbol, start, end)|
    ensures forall i :: 0 <= i < |rows| ==>
      rows[i].key == MatchingKeys(prices, symbol, start, end)[i] && rows[i].key in prices
      && rows[i].price == prices[rows[i].key] && Matches(rows[i].key, symbol, start, end)
  {
    var keys := MatchingKeys(prices, symbol, start, end);
    assert forall i :: 0 <= i < |keys| ==> keys[i] in prices;
    seq(|keys|, i requires 0 <= i < |keys| && keys[i] in prices => StockRow(keys[i], prices[keys[i]]))
  }

  /** The latest date of a symbol that has price rows (`DISTINCT ON (symbol) ... timestamp DESC`). */
  function LatestDate(prices: map<PriceKey, PriceRow>, symbol: Symbol): (d: Date)
    requires exists k :: k in prices && k.0 == symbol
    ensures (symbol, d) in prices && forall e :: (symbol, e) in prices ==> e <= d
  {
    var dates := set k | k in prices && k.0 == symbol :: k.1;
    var k :| k in prices && k.0 == symbol;
    assert k.1 in dates;
    var latest := Ordering.Max(dates);
    assert forall e :: (symbol, e) in prices ==> e in dates;
    latest
  }

  predicate MostTradedFirst(a: StockRow, b: StockRow) {
    a.price.volume >= b.price.volume
  }

  /** `symbol` has at least one price row. */
  ghost predicate HasPrices(prices: map<PriceKey, PriceRow>, symbol: Symbol) {
    exists k :: k in prices && k.0 == symbol
  }

  /** `row` is the stored row of its symbol's latest date. */
  ghost predicate IsLatest(prices: map<PriceKey, PriceRow>, row: StockRow) {
    row.key in prices && row.price == prices[row.key] && forall e :: (row.key.0, e) in prices ==> e <= row.key.1
  }

  /** The symbols with price rows, in ascending order. */
  function PricedSymbols(prices: map<PriceKey, PriceRow>): (symbols: seq<Symbol>)
    ensures forall s :: s in symbols <==> HasPrices(prices, s)
    ensures forall i, j :: 0 <= i < j < |symbols| ==> symbols[i] != symbols[j]
  {
    StockTransactions.SymbolLeIsLinearOrder();
    var all := set k | k in prices :: k.0;
    Ordering.Elements(all, StockTransactions.SymbolLe)
  }

  /**
   * The rows of the default statement before LIMIT and OFFSET: each symbol's latest row, by volume
   * descending. Rows of equal volume are left in symbol order, where the database promises no order.
   */
  function LatestRows(prices: map<PriceKey, PriceRow>): (rows: seq<StockRow>)
    ensures forall row :: row in rows ==> IsLatest(prices, row)
    ensures forall k :: k in prices ==> exists row :: row in rows && row.key.0 == k.0
    ensures Ordering.SortedBy(rows, MostTradedFirst)
    ensures |rows| == |PricedSymbols(prices)|
  {
    var latest := LatestOfEachSymbol(prices);
    assert Ordering.TotalPreorder(MostTradedFirst);
    var rows := Ordering.Sort(latest, MostTradedFirst);
    LatestRowsCover(prices, PricedSymbols(prices), latest, rows);
    rows
  }

  /** The inner statement: one latest row per symbol, in symbol order. */
  function LatestOfEachSymbol(prices: map<PriceKey, PriceRow>): (latest: seq<StockRow>)
    ensures var symbols := PricedSymbols(prices);
      && |latest| == |symbols|
      && forall i :: 0 <= i < |symbols| ==> HasPrices(prices, symbols[i]) && latest[i] == LatestRow(prices, symbols[i])
  {
    var symbols := PricedSymbols(prices);
    assert forall i :: 0 <= i < |symbols| ==> HasPrices(prices, symbols[i]) by {
      forall i | 0 <= i < |symbols| ensures HasPrices(prices, symbols[i]) {
        assert symbols[i] in symbols;
      }
    }
    seq(|symbols|, i requires 0 <= i < |symbols| && HasPrices(prices, symbols[i]) =>
      LatestRow(prices, symbols[i]))
  }

  /** The row of a symbol's latest date. */
  function LatestRow(prices: map<PriceKey, PriceRow>, symbol: Symbol): (row: StockRow)
    requires HasPrices(prices, symbol)
    ensures row.key.0 == symbol && IsLatest(prices, row)
  {
    var d := LatestDate(prices, symbol);
    StockRow((symbol, d), prices[(symbol, d)])
  }

  lemma LatestRowsCover(prices: map<PriceKey, PriceRow>, symbols: seq<Symbol>, latest: seq<StockRow>, rows: seq<StockRow>)
    requires forall s :: s in symbols <==> HasPrices(prices, s)
    requires |latest| == |symbols|
    requires forall i :: 0 <= i < |symbols| ==> HasPrices(prices, symbols[i]) && latest[i] == LatestRow(prices, symbols[i])
    requires multiset(rows) == multiset(latest)
    ensures forall row :: row in rows ==> IsLatest(prices, row)
    ensures forall k :: k in prices ==> exists row :: row in rows && row.key.0 == k.0
    ensures |rows| == |symbols|
  {
    assert |rows| == |multiset(rows)| == |multiset(latest)| == |latest|;
    forall row | row in rows ensures IsLatest(prices, row) {
      assert row in multiset(latest);
      var i :| 0 <= i < |latest| && latest[i] == row;
    }
    forall k | k in prices ensures exists row :: row in rows && row.key.0 == k.0 {
      assert HasPrices(prices, k.0);
      var i :| 0 <= i < |symbols| && symbols[i] == k.0;
      assert latest[i] in multiset(rows);
    }
  }

  /** `LIMIT limit OFFSET offset` on a result. */
  function PageOf<T>(rows: seq<T>, offset: nat, limit: nat): (r: seq<T>)
    ensures |r| <= limit
    ensures |r| == if offset >= |rows| then 0 else if |rows| - offset < limit then |rows| - offset else limit
    ensures forall i :: 0 <= i < |r| ==> offset + i < |rows| && r[i] == rows[offset + i]
  {
    if offset >= |rows| then []
    else if |rows| - offset < limit then rows[offset..]
    else rows[offset..offset + limit]
  }

  /** `(total_items + per_page - 1) // per_page`. */
  function TotalPages(totalItems: nat, perPage: int): (pages: int)
    requires perPage > 0
    ensures pages >= 0
  {
    (totalItems + perPage - 1) / perPage
  }

  /** The page count is the ceiling of items over page size: the pages hold every item, with none left empty. */
  lemma TotalPagesIsCeiling(totalItems: nat, perPage: int)
    requires perPage > 0
    ensures TotalPages(totalItems, perPage) * perPage >= totalItems
    ensures (TotalPages(totalItems, perPage) - 1) * perPage < totalItems || (totalItems == 0 && TotalPages(totalItems, perPage) == 0)
  {
    var pages := TotalPages(totalItems, perPage);
    var rest := (totalItems + perPage - 1) % perPage;
    assert totalItems + perPage - 1 == pages * perPage + rest;
    assert 0 <= rest < perPage;
    assert (pages - 1) * perPage == pages * perPage - perPage;
  }

  /**
   * PostgreSQL's cast of a date text, given as a parameter: None when the text is not a date.
   * The bound a date text sets: none for an empty text (the condition is not added), else its cast.
   */
  function Bound(text: string, castDate: string -> Option<Date>): Option<Date> {
    if text == "" then None else castDate(text)
  }

  /** A date text that is given but does not cast makes the statement fail. */
  predicate CastFails(text: string, castDate: string -> Option<Date>) {
    text != "" && castDate(text).None?
  }

  datatype Pagination = Pagination(page: int, perPage: int, totalItems: int, totalPages: int)

  datatype StockDataResult = StockDataPage(stocks: seq<StockRow>, pagination: Pagination) | StockDataFailed(response: Response)

  /** A page of counted rows: the rows are counted and the page count rounded up. */
  function CountedPage(rows: seq<StockRow>, page: int, perPage: int): (r: StockDataResult)
    requires perPage > 0 && (page - 1) * perPage >= 0
    ensures r.StockDataPage? && r.pagination.page == page && r.pagination.perPage == perPage
    ensures r.pagination.totalItems == |rows| && r.pagination.totalPages == TotalPages(|rows|, perPage)
    ensures r.stocks == PageOf(rows, (page - 1) * perPage, perPage)
  {
    StockDataPage(PageOf(rows, (page - 1) * perPage, perPage), Pagination(page, perPage, |rows|, TotalPages(|rows|, perPage)))
  }

  /**
   * `get_stock_data(symbol, start_date, end_date, page, per_page)`: a negative LIMIT or OFFSET and
   * a given date text that PostgreSQL cannot cast (`castDate`) are errors of the database, and with
   * filters a page size of 0 divides by zero; each is a 500. Without filters the totals are
   * `per_page` items on one page; with filters they are counted.
   */
  function GetStockData(prices: map<PriceKey, PriceRow>, symbol: string, start: string, end: string,
                        page: int, perPage: int, castDate: string -> Option<Date>): (r: StockDataResult)
    ensures r.StockDataFailed? <==>
      || perPage < 0 || (page - 1) * perPage < 0
      || CastFails(start, castDate) || CastFails(end, castDate)
      || (Filtered(symbol, start, end) && perPage == 0)
    ensures r.StockDataFailed? ==> r.response.status == SERVER_ERROR
    ensures r.StockDataPage? ==> |r.stocks| <= perPage && r.pagination.page == page && r.pagination.perPage == perPage
    ensures r.StockDataPage? && !Filtered(symbol, start, end) ==>
      r.pagination.totalItems == perPage && r.pagination.totalPages == 1
      && r.stocks == PageOf(LatestRows(prices), (page - 1) * perPage, perPage)
    ensures r.StockDataPage? && Filtered(symbol, start, end) ==>
      && perPage > 0
      && var lo, hi := Bound(start, castDate), Bound(end, castDate);
      && (start != "" ==> lo == castDate(start)) && (end != "" ==> hi == castDate(end))
      && r == CountedPage(MatchingRows(prices, symbol, lo, hi), page, perPage)
      && r.pagination.totalItems == |set k | k in prices && Matches(k, symbol, lo, hi)|
  {
    var offset := (page - 1) * perPage;
    if perPage < 0 then StockDataFailed(Response(SERVER_ERROR, "LIMIT must not be negative"))
    else if offset < 0 then StockDataFailed(Response(SERVER_ERROR, "OFFSET must not be negative"))
    else if !Filtered(symbol, start, end) then
      DefaultData(prices, page, perPage)
    else FilteredData(prices, symbol, start, end, page, perPage, castDate)
  }

  /** The default statement once LIMIT and OFFSET are valid: a page of latest rows, reported as one page of `per_page` items. */
  function DefaultData(prices: map<PriceKey, PriceRow>, page: int, perPage: int): (r: StockDataResult)
    requires perPage >= 0 && (page - 1) * perPage >= 0
    ensures r.StockDataPage? && |r.stocks| <= perPage
    ensures r.pagination == Pagination(page, perPage, perPage, 1)
    ensures r.stocks == PageOf(LatestRows(prices), (page - 1) * perPage, perPage)
  {
    StockDataPage(PageOf(LatestRows(prices), (page - 1) * perPage, perPage), Pagination(page, perPage, perPage, 1))
  }

  /**
   * The filtered statements once LIMIT and OFFSET are valid: a date text that does not cast fails
   * the row statement, a page size of 0 fails the page count, and otherwise the matching rows are
   * counted and paged.
   */
  function FilteredData(prices: map<PriceKey, PriceRow>, symbol: string, start: string, end: string,
                        page: int, perPage: int, castDate: string -> Option<Date>): (r: StockDataResult)
    requires perPage >= 0 && (page - 1) * perPage >= 0
    ensures r.StockDataFailed? <==> CastFails(start, castDate) || CastFails(end, castDate) || perPage == 0
    ensures r.StockDataFailed? ==> r.response.status == SERVER_ERROR
    ensures r.StockDataPage? ==>
      && perPage > 0 && |r.stocks| <= perPage
      && r == CountedPage(MatchingRows(prices, symbol, Bound(start, castDate), Bound(end, castDate)), page, perPage)
      && r.pagination.totalItems == |set k | k in prices && Matches(k, symbol, Bound(start, castDate), Bound(end, castDate))|
  {
    if CastFails(start, castDate) || CastFails(end, castDate) then
      StockDataFailed(Response(SERVER_ERROR, "invalid input syntax for type date"))
    else if perPage == 0 then StockDataFailed(Response(SERVER_ERROR, "integer division or modulo by zero"))
    else CountedPage(MatchingRows(prices, symbol, Bound(start, castDate), Bound(end, castDate)), page, perPage)
  }

  /** An unescaped `_` as the symbol term keeps every row with a non-empty symbol. */
  lemma UnderscoreSymbolKeepsEveryRow(prices: map<PriceKey, PriceRow>, start: Option<Date>, end: Option<Date>)
    ensures forall k :: k in prices && k.0 != "" ==>
      (k in MatchingKeys(prices, "_", start, end) <==> Matches(k, "", start, end))
  {
    forall k | k in prices && k.0 != "" {
      Text.UnderscoreTermMatchesEveryNonEmpty(k.0);
    }
  }

  /** With filters, every row shown matches them, and is the stored row of its key. */
  lemma FilteredRowsMatch(prices: map<PriceKey, PriceRow>, symbol: string, start: Option<Date>, end: Option<Date>,
                          page: int, perPage: int)
    requires perPage > 0 && (page - 1) * perPage >= 0
    ensures var r := CountedPage(MatchingRows(prices, symbol, start, end), page, perPage);
      forall row :: row in r.stocks ==> row.key in prices && row.price == prices[row.key] && Matches(row.key, symbol, start, end)
  {
    var rows := MatchingRows(prices, symbol, start, end);
    var r := CountedPage(rows, page, perPage);
    forall row | row in r.stocks
      ensures row.key in prices && row.price == prices[row.key] && Matches(row.key, symbol, start, end)
    {
      var j :| 0 <= j < |r.stocks| && r.stocks[j] == row;
      assert row == rows[(page - 1) * perPage + j];
    }
  }

  /** Page `page` of the counted rows is within the page count and shows `row`. */
  predicate OnPage(rows: seq<StockRow>, page: int, perPage: int, row: StockRow)
    requires perPage > 0
  {
    && 1 <= page && (page - 1) * perPage >= 0
    && var r := CountedPage(rows, page, perPage);
    && page <= r.pagination.totalPages && row in r.stocks
  }

  /** Every matching row is on some page within the page count of the filtered result. */
  lemma EveryMatchIsOnItsPage(prices: map<PriceKey, PriceRow>, symbol: string, start: Option<Date>,
                              end: Option<Date>, perPage: int, k: PriceKey)
    requires perPage > 0 && k in prices && Matches(k, symbol, start, end)
    ensures exists page :: OnPage(MatchingRows(prices, symbol, start, end), page, perPage, StockRow(k, prices[k]))
  {
    var rows := MatchingRows(prices, symbol, start, end);
    var keys := MatchingKeys(prices, symbol, start, end);
    var i :| 0 <= i < |keys| && keys[i] == k;
    assert rows[i] == StockRow(k, prices[k]);
    PositionIsOnItsPage(rows, i, perPage);
  }

  /** The row at position `i` is on page `i / per_page + 1`. */
  lemma PositionIsOnItsPage(rows: seq<StockRow>, i: nat, perPage: int)
    requires perPage > 0 && i < |rows|
    ensures OnPage(rows, i / perPage + 1, perPage, rows[i])
  {
    PositionIsOnPage(rows, i, perPage);
  }

  /** Position `i` of the rows lies on page `i / per_page + 1`, which is within the page count. */
  lemma PositionIsOnPage<T>(rows: seq<T>, i: nat, perPage: int)
    requires perPage > 0 && i < |rows|
    ensures var page := i / perPage + 1;
      && 0 <= (page - 1) * perPage
      && page <= TotalPages(|rows|, perPage)
      && rows[i] in PageOf(rows, (page - 1) * perPage, perPage)
  {
    var q := i / perPage;
    PageStart(i, perPage);
    PageWithinCount(i, |rows|, perPage);
    assert (q + 1 - 1) * perPage == q * perPage;
    var p := PageOf(rows, q * perPage, perPage);
    assert p[i - q * perPage] == rows[i];
  }

  /** The page holding position `i` starts at most `per_page - 1` positions before it. */
  lemma PageStart(i: nat, perPage: int)
    requires perPage > 0
    ensures 0 <= (i / perPage) * perPage <= i < (i / perPage) * perPage + perPage
  {
    var q := i / perPage;
    assert i == q * perPage + i % perPage;
    MulMonotone(0, q, perPage);
  }

  /** The page holding a position below `n` is no later than the last page of `n` items. */
  lemma PageWithinCount(i: nat, n: nat, perPage: int)
    requires perPage > 0 && i < n
    ensures i / perPage + 1 <= TotalPages(n, perPage)
  {
    var q := i / perPage;
    var t := TotalPages(n, perPage);
    PageStart(i, perPage);
    TotalPagesIsCeiling(n, perPage);
    if t < q + 1 {
      MulMonotone(t, q, perPage);
    }
  }

  lemma MulMonotone(a: int, b: int, c: int)
    requires a <= b && c > 0
    ensures a * c <= b * c
  {
  }

  // ---------------------------------------------------------------------------
  // get_stock_symbols
  // ---------------------------------------------------------------------------

  /** The distinct symbols of StockPrices that contain `search`, ignoring case (all of them for ""). */
  function SearchedSymbols(prices: map<PriceKey, PriceRow>, search: string): (r: set<Symbol>)
    ensures forall s :: s in r <==> (exists k :: k in prices && k.0 == s) && (search == "" || Text.ILikeContains(s, search))
  {
    set k | k in prices && (search == "" || Text.ILikeContains(k.0, search)) :: k.0
  }

  /**
   * `get_stock_symbols(search, limit)`: the first `limit` of the searched symbols in ascending
   * order; a negative limit is an error of the database.
   */
  function GetStockSymbols(prices: map<PriceKey, PriceRow>, search: string, limit: int): (r: Result)
    ensures r.SymbolsFailed? <==> limit < 0
    ensures r.SymbolsListed? ==>
      var found := SearchedSymbols(prices, search);
      && |r.symbols| == (if limit < |found| then limit else |found|)
      && (forall i :: 0 <= i < |r.symbols| ==> r.symbols[i] in found)
      && (forall i, j :: 0 <= i < j < |r.symbols| ==> StockTransactions.SymbolLe(r.symbols[i], r.symbols[j]) && r.symbols[i] != r.symbols[j])
      && (forall s, i :: s in found && s !in r.symbols && 0 <= i < |r.symbols| ==> StockTransactions.SymbolLe(r.symbols[i], s))
  {
    if limit < 0 then SymbolsFailed(Response(SERVER_ERROR, "LIMIT must not be negative"))
    else
      StockTransactions.SymbolLeIsLinearOrder();
      var found := SearchedSymbols(prices, search);
      var all := Ordering.Elements(found, StockTransactions.SymbolLe);
      var n := if limit < |all| then limit else |all|;
      FirstSymbolsAreSmallest(found, all, n);
      SymbolsListed(all[..n])
  }

  datatype Result = SymbolsListed(symbols: seq<Symbol>) | SymbolsFailed(response: Response)

  /** A prefix of the ascending symbols is ascending, and comes before every symbol it leaves out. */
  lemma FirstSymbolsAreSmallest(found: set<Symbol>, all: seq<Symbol>, n: nat)
    requires |all| == |found| && forall s :: s in all <==> s in found
    requires Ordering.SortedBy(all, StockTransactions.SymbolLe) && n <= |all|
    requires forall i, j :: 0 <= i < j < |all| ==> all[i] != all[j]
    ensures var first := all[..n];
      && |first| == n
      && (forall i :: 0 <= i < |first| ==> first[i] in found)
      && (forall i, j :: 0 <= i < j < |first| ==> StockTransactions.SymbolLe(first[i], first[j]) && first[i] != first[j])
      && (forall s, i :: s in found && s !in first && 0 <= i < |first| ==> StockTransactions.SymbolLe(first[i], s))
  {
    var first := all[..n];
    forall i | 0 <= i < |first| ensures first[i] in found {
      assert first[i] == all[i];
    }
    forall i, j | 0 <= i < j < |first| ensures StockTransactions.SymbolLe(first[i], first[j]) && first[i] != first[j] {
      assert first[i] == all[i] && first[j] == all[j];
    }
    forall s, i | s in found && s !in first && 0 <= i < |first| ensures StockTransactions.SymbolLe(first[i], s) {
      var j :| 0 <= j < |all| && all[j] == s;
      assert first[i] == all[i];
    }
  }
}
