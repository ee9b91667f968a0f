# SNFS core in Dafny

This project models the core of SNFS, a social network for stock portfolios. It covers four parts.

- **The database layer of the backend.**
  - Stock trades and holdings.
  - Cash deposits and withdrawals.
  - Portfolios and transfers between them.
  - Friend requests and friendships.
  - Stock lists with their items and shares.
  - Reviews of stock lists.
  - Reading daily stock prices with paging.
- **The request validators of two route files.** These are the stock-list routes and the review routes.
- **Four frontend pages.**
  - The stock-data page: its pagination bar and volume column.
  - The form that adds a day of stock prices.
  - The review viewer.
  - The review writer.

**Database.** All tables of the shared PostgreSQL database live in one `Schema.Database` class.

- Each table is a field: a `map` keyed by its primary key, a `seq` for tables with a serial id, or a `set` for pure relations.
- `Valid()` collects the constraints of the schema: foreign keys, the normalised pair order of `Friends`, serial counters above every id in use, and positive holdings.
- Each db function that writes is a `method` with `modifies` on exactly the tables it touches.
- Its `ensures` states the new tables in terms of the old ones, through pure functions that are proved about separately.
- A refused request is never committed: the connection is closed without `commit`, so the method leaves the database `unchanged`. The one exception is a SERIAL counter: an INSERT that fails still draws its value, and the rollback does not give it back.
- Reads are pure functions of the tables. `ORDER BY` is a sorted sequence (module `Ordering`).
- `ILIKE` is PostgreSQL's LIKE pattern match after case folding (`Text.LikeMatch`). The search filters bind `%term%` without escaping the term, so a `%`, `_` or `\` typed in a search acts as a pattern character. For a term without those characters the match is a case-insensitive substring test (`Text.LiteralTermIsSubstring`).

**Value conventions.**

- Money is integer cents, dates are integers `YYYYMMDD`, and time is an integer number of seconds.
- The current time and today's date are parameters.

**Route handlers.** Each one becomes a function from the request values (a JSON body or query arguments) to an `Outcome`.

- `Reject(response)` is the error answer.
- `Forward(call)` is the db-layer call the handler makes, with the arguments it passes.
- Python's truthiness (`Http.Truthy`), `len`, `str` and `int(...)` are modelled on a small JSON value type.
- So is the way PostgreSQL converts a bound string next to an integer column (`Routes.SqlInt`).

**Frontend pages.** Each page is a class whose fields are the React state and refs the logic reads.

- An `async` handler is split into a `Begin…` method (up to the `fetch`) and a `Complete…` method (after the reply).
- The reply (`Ui.Reply`) is a parameter.
- So are local storage and the URL parameters.

## Model

| member | source | states |
|---|---|---|
| StockTransactions.TradeRefusal | backend/app/db/stock_transactions_db.py:15-86 | A trade is refused exactly when it is not permitted (valid type, positive shares and price, existing owned portfolio, enough shares to sell, enough funds to buy); 404 exactly for a missing portfolio after valid inputs, 403 exactly for another user's portfolio |
| StockTransactions.InputChecksPrecedeLookups | backend/app/db/stock_transactions_db.py:15-24 | The type, share and price checks answer the same whatever the tables hold |
| StockTransactions.BalanceChange | backend/app/db/stock_transactions_db.py:77-92 | A buy costs `shares * price`, a sell brings it in |
| StockTransactions.HoldingsAfter | backend/app/db/stock_transactions_db.py:99-126 | A buy adds the shares to the holding (creating it); a sell subtracts them and deletes a holding left at zero or below; a sell of a missing holding changes nothing; no other holding changes; positive holdings stay positive |
| StockTransactions.StocksAfter | backend/app/db/stock_transactions_db.py:46-54 | An unknown symbol is registered as "Company SYMBOL"; known stocks are untouched |
| StockTransactions.TradePriceRow | backend/app/db/stock_transactions_db.py:152-166 | The recorded price row has open, high, low and close equal to the trade price and the shares as volume |
| StockTransactions.PricesAfter | backend/app/db/stock_transactions_db.py:143-166 | A price row for (symbol, today) is added exactly when none exists and today is on or after 2018-02-08; existing rows are kept |
| StockTransactions.HandleStockTransaction | backend/app/db/stock_transactions_db.py:8-199 | A refused trade answers TradeRefusal's error and changes no table; a permitted one updates balance, holdings, stocks, trade log and prices as the functions above say, and answers 201 with the new balance and shares |
| StockTransactions.CheckTrade | backend/app/db/stock_transactions_db.py:15-86 | The checks in source order yield TradeRefusal; the Stocks insert survives only when the trade goes ahead |
| StockTransactions.CommitTrade | backend/app/db/stock_transactions_db.py:88-193 | The committed updates and the response read back afterwards (0 shares when the holding was deleted) |
| StockTransactions.PermittedTradeKeepsBalanceNonNegative | backend/app/db/stock_transactions_db.py:77-86 | A permitted trade never drives a non-negative balance below zero |
| StockTransactions.SellingEverythingRemovesHolding | backend/app/db/stock_transactions_db.py:119-126 | Selling all shares deletes the holding and the response reports 0 |
| StockTransactions.BuyThenSellRestores | backend/app/db/stock_transactions_db.py:89-126 | Buying and then selling the same shares restores the holdings and the net balance change is zero |
| StockTransactions.LatestClose | backend/app/db/stock_transactions_db.py:254-258 | The close of the symbol's latest price row, None exactly when it has no rows |
| StockTransactions.TotalValue | backend/app/db/stock_transactions_db.py:269-275 | `num_shares * current_price`, None exactly when there is no price |
| StockTransactions.ByCompanyNameIsTotalPreorder | backend/app/db/stock_transactions_db.py:261 | Ordering by company name is a total preorder, so sorting by it is well defined |
| StockTransactions.SymbolLeIsLinearOrder | backend/app/db/stock_db.py:178 | Ordering symbols is a linear order |
| StockTransactions.HeldSymbols | backend/app/db/stock_transactions_db.py:243-262 | The symbols held by the portfolio that have a Stocks row (the inner join) |
| StockTransactions.HoldingRows | backend/app/db/stock_transactions_db.py:243-262 | One row per held symbol, each the query's row for it, ordered by company name |
| StockTransactions.SortedRowsCoverSymbols | backend/app/db/stock_transactions_db.py:243-262 | Sorting the per-symbol rows keeps exactly one row per held symbol |
| StockTransactions.WithTotal | backend/app/db/stock_transactions_db.py:269-275 | Attaching `total_value` changes no other field |
| StockTransactions.GetStockHoldings | backend/app/db/stock_transactions_db.py:237-281 | 403 exactly when the user does not own the portfolio; otherwise the holdings rows in order, each with its total value |
| StockTransactions.AttachTotals | backend/app/db/stock_transactions_db.py:269-275 | The loop gives every row its total value and keeps the order |
| CashTransactions.SignedAmount | backend/app/db/cash_transactions_db.py:27-29 | A deposit adds the amount, anything else subtracts it |
| CashTransactions.HandleCashTransaction | backend/app/db/cash_transactions_db.py:7-76 | An invalid type is a 400 with no change; a withdrawal the balance does not cover, or a missing portfolio, is a 400 with no change; otherwise the balance moves by the signed amount and exactly one ledger entry is appended |
| CashTransactions.WithdrawalNeverOverdraws | backend/app/db/cash_transactions_db.py:18-23 | An accepted withdrawal never leaves a negative balance |
| CashTransactions.NegativeDepositOverdraws | backend/app/db/cash_transactions_db.py:18-23 | The amount's sign is unchecked: a negative deposit goes through and can leave a negative balance |
| CashTransactions.DepositThenWithdrawRestores | backend/app/db/cash_transactions_db.py:7-76 | A deposit and then a withdrawal of the same amount: the withdrawal goes through exactly when the balance was not negative, and then the balance is back where it was and both entries are appended in order |
| CashTransactions.EntriesOf | backend/app/db/cash_transactions_db.py:97-105 | Exactly the ledger entries of the portfolio, with their serial ids |
| CashTransactions.GetCashTransactions | backend/app/db/cash_transactions_db.py:79-113 | 403 exactly when the user does not own the portfolio; otherwise a permutation of its entries, newest first |
| Portfolios.SumBalancesRemove | backend/app/db/portfolios_db.py:93-100 | Any portfolio's balance can be taken out of the total first |
| Portfolios.SumBalancesFrame | backend/app/db/portfolios_db.py:93-100 | The total over some portfolios depends only on their balances |
| Portfolios.TotalBalanceAfterUpdate | backend/app/db/portfolios_db.py:93-100 | Changing one balance by d changes the total money by d |
| Portfolios.TransferRefusal | backend/app/db/portfolios_db.py:72-90 | A transfer is refused exactly when a portfolio is missing (404) or the source balance is below the amount (400) |
| Portfolios.Dollars | backend/app/db/portfolios_db.py:105 | The amount prints with a point and two digits of cents |
| Portfolios.UnsignedDollars | backend/app/db/portfolios_db.py:105 | Whole dollars, a point and two digits of cents |
| Portfolios.UnsignedDollarsReadsBack | backend/app/db/portfolios_db.py:105 | The printed dollars and cents read back as the number of cents |
| Portfolios.DollarsReadsBack | backend/app/db/portfolios_db.py:105 | A leading `-` exactly for a negative amount; the rest reads back as the amount's magnitude in cents |
| Portfolios.Transferred | backend/app/db/portfolios_db.py:93-100 | The source loses the amount and the target gains it, nothing else changes, a self-transfer changes nothing, and the total money is preserved |
| Portfolios.TransferFunds | backend/app/db/portfolios_db.py:67-113 | A refusal answers its error and changes nothing; otherwise the balances become Transferred's and the message names the amount; total money is preserved |
| Portfolios.TransferIgnoresOwnership | backend/app/db/portfolios_db.py:67-100 | A transfer between portfolios of different owners goes through when the source balance covers it |
| Portfolios.NegativeTransferReversesDirection | backend/app/db/portfolios_db.py:79-100 | A negative amount passes the check and moves money from the target to the source |
| Portfolios.ViewUserPortfolios | backend/app/db/portfolios_db.py:29-45 | Exactly the user's portfolios, by ascending id; the "No portfolios found" message exactly when there are none |
| Portfolios.RowsListOwned | backend/app/db/portfolios_db.py:34-41 | Rows built from the owned ids in ascending order are exactly the user's portfolios, ascending |
| Portfolios.GetPortfolioById | backend/app/db/portfolios_db.py:48-64 | Found exactly when the id exists and the user owns it; 404 otherwise |
| Portfolios.LookupAgreesWithListing | backend/app/db/portfolios_db.py:29-64 | A portfolio is found by id exactly when the user's listing contains it |
| FriendRequests.LatestBetween | backend/app/db/requests_db.py:73-80 | The newest request between the two users in either direction, None exactly when there is none |
| FriendRequests.SendRefusal | backend/app/db/requests_db.py:48-89 | A request is refused (400) exactly when the users are friends, a request between them is pending, or the newest request between them is now rejected or deleted and was created less than five minutes ago |
| FriendRequests.SendRefusalIsSymmetric | backend/app/db/requests_db.py:48-89 | The refusal is the same whichever user sends |
| FriendRequests.LatestBetweenIsSymmetric | backend/app/db/requests_db.py:73-80 | The newest request between two users does not depend on their order |
| FriendRequests.SendRequest | backend/app/db/requests_db.py:41-106 | A refusal changes nothing; otherwise exactly one pending request is appended and returned |
| FriendRequests.NewPendingKeepsOnePerPair | backend/app/db/requests_db.py:60-70 | A new pending request between users with none pending keeps at most one pending request per pair |
| FriendRequests.GetRequestById | backend/app/db/requests_db.py:21-38 | The request with the id, found only while it is pending |
| FriendRequests.AddFriendship | backend/app/db/requests_db.py:135-143 | The normalised pair is added once (ON CONFLICT DO NOTHING) and existing friendships keep their dates |
| FriendRequests.AcceptRequest | backend/app/db/requests_db.py:109-150 | A missing or processed request is a 404 with no change; otherwise the request becomes accepted and the friendship is added |
| FriendRequests.AcceptedPairCannotResend | backend/app/db/requests_db.py:48-57 | After an accept, neither user can send the other a request: they are already friends |
| FriendRequests.PendingBlocksEitherDirection | backend/app/db/requests_db.py:60-70 | A pending request refuses a new one in both directions |
| FriendRequests.RejectRequest | backend/app/db/requests_db.py:153-172 | The request becomes rejected whatever its status; 200 even for an unknown id, which changes nothing |
| FriendRequests.RejectOverridesAccepted | backend/app/db/requests_db.py:157-166 | An accepted request can be turned into a rejected one, and is then no longer found |
| FriendRequests.RejectionCooldown | backend/app/db/requests_db.py:73-89 | When the newest request between two users was created at `t` and is now rejected, the other user may send a new request exactly once five minutes have passed since `t` |
| FriendRequests.CooldownRunsFromCreation | backend/app/db/requests_db.py:73-89 | A request sent at `t` and later rejected (which changes only its status, lines 153-166) blocks a new request exactly until five minutes after `t`, however late the rejection came |
| FriendRequests.InboxRows | backend/app/db/requests_db.py:181-193 | Exactly the pending requests to the user whose sender exists, joined with the sender's name |
| FriendRequests.Format | backend/app/db/requests_db.py:197-213 | The sender fields move into a nested sender; the other fields are kept |
| FriendRequests.SortedInbox | backend/app/db/requests_db.py:181-193 | The inbox rows newest first, one per inbox request |
| FriendRequests.SortedRowsMatchInbox | backend/app/db/requests_db.py:181-193 | A permutation of the inbox rows holds exactly the inbox requests |
| FriendRequests.GetReceivedRequests | backend/app/db/requests_db.py:175-220 | The reformatted inbox, in the same order |
| FriendRequests.ReceivedRequestsArePendingForUser | backend/app/db/requests_db.py:175-220 | Every entry is a pending request to the user with its sender nested, newest first, and every such request appears |
| Friends.OtherEnd | backend/app/db/friends_db.py:17-20 | The other user of a pair containing the user |
| Friends.GetUsersFriends | backend/app/db/friends_db.py:6-29 | Exactly one row per friendship of the user whose other end exists, with the friendship date |
| Friends.FriendsListingIsMutual | backend/app/db/friends_db.py:17-21 | a lists b exactly when b lists a, with the same date |
| Friends.WithoutFriendship | backend/app/db/friends_db.py:36-45 | The friendships minus the normalised pair |
| Friends.RemoveFriend | backend/app/db/friends_db.py:32-49 | The normalised pair is deleted and the answer is 200 even when there was none |
| Friends.RemovalIsSymmetric | backend/app/db/friends_db.py:36 | Removing (a, b) and (b, a) deletes the same friendship |
| Friends.RemovalEndsFriendship | backend/app/db/friends_db.py:32-49 | After removal neither lists the other and the "already friends" refusal no longer applies |
| Reviews.CanAccessList | backend/app/db/reviews_db.py:8-47 | Missing lists are closed; public ones are open; the creator always has access; otherwise access exactly for shared lists with a share row |
| Reviews.PrivateListIsOwnerOnly | backend/app/db/reviews_db.py:28-43 | A private list is accessible to its creator only, share rows notwithstanding |
| Reviews.ListingAgreesWithAccess | backend/app/db/reviews_db.py:8-47 | For a logged-in user, the stock-list listing shows a list exactly when the access check admits them, except when a non-shared list has a share row for a non-owner |
| Reviews.SharedPrivateListIsListedButClosed | backend/app/db/stock_lists_db.py:73-92 | The exception: a private list with a share row is listed as shared but the access check refuses it |
| Reviews.NewReviewKeepsTables | backend/app/db/reviews_db.py:61-72 | A review stored under the next serial id keeps the id bound, the foreign key and one review per user and list |
| Reviews.AddReview | backend/app/db/reviews_db.py:50-96 | 403 without access and 400 for a second review, both with no change; a user without a Users row is a 500 that stores nothing but still draws the next id; otherwise the review is stored under the next id |
| Reviews.UpdateReview | backend/app/db/reviews_db.py:99-130 | Only the author may edit (403 otherwise, no change), and only the content changes |
| Reviews.DeleteReview | backend/app/db/reviews_db.py:133-166 | Only the author may delete (403 otherwise, no change), and only that review goes |
| Reviews.DeleteReopensReview | backend/app/db/reviews_db.py:54-57 | After deleting their review the author may add another to the same list |
| Reviews.AddThenDeleteRestores | backend/app/db/reviews_db.py:61-157 | Adding a review and deleting it again leaves the table as it was |
| Reviews.UpdateKeepsOnePerPair | backend/app/db/reviews_db.py:105-121 | Editing never creates a second review for a user and list |
| Reviews.ReviewRows | backend/app/db/reviews_db.py:185-217 | Exactly the list's reviews whose author exists, joined with the author's name |
| Reviews.ReviewRowsCover | backend/app/db/reviews_db.py:185-217 | Rows built from the review ids are exactly the joined rows |
| Reviews.GetReviewsForList | backend/app/db/reviews_db.py:169-235 | 404 for a missing list or creator; public lists for anyone; otherwise 400 without a user and 403 without access; listed reviews are a permutation of the joined rows, newest first |
| Reviews.ReviewersCanRead | backend/app/db/reviews_db.py:169-235 | Whoever may review a list may also read its reviews |
| Reviews.ListedReviewsBelongToList | backend/app/db/reviews_db.py:185-217 | Every listed review belongs to the requested list |
| StockLists.Access | backend/app/db/stock_lists_db.py:80-82 | Owned exactly for the creator, shared exactly for a non-creator with a share row, public otherwise |
| StockLists.ListedRows | backend/app/db/stock_lists_db.py:73-99 | Exactly the listed lists, each with its row, by descending id |
| StockLists.ListedRowsCover | backend/app/db/stock_lists_db.py:73-99 | Rows built from the listed ids in descending order are exactly the listed rows |
| StockLists.ItemsOf | backend/app/db/stock_lists_db.py:106-117 | Exactly the list's items whose symbol has a Stocks row, by ascending id, with company names |
| StockLists.ItemRowsCover | backend/app/db/stock_lists_db.py:106-117 | Views built from the ascending item ids are exactly the list's visible items |
| StockLists.GetAccessibleStockLists | backend/app/db/stock_lists_db.py:59-123 | The listing rows in order, each given its own items by the loop |
| StockLists.ListedWithUser | backend/app/db/stock_lists_db.py:86-92 | With a user, a list is listed exactly when the user owns it, has a share row, or it is public |
| StockLists.AnonymousSeesOnlyPublic | backend/app/db/stock_lists_db.py:86-92 | Without a user only public lists appear, all tagged public |
| StockLists.SearchNarrowsListing | backend/app/db/stock_lists_db.py:95-97 | A search keeps exactly the listed lists whose name matches the pattern `%term%` under ILIKE |
| StockLists.VerifyUserOwnsList | backend/app/db/stock_lists_db.py:125-139 | True exactly when the list exists and the user created it |
| StockLists.CreateStockList | backend/app/db/stock_lists_db.py:7-24 | The list is stored under the next id; a user without a Users row is a 500 that stores nothing but still draws the next id |
| StockLists.AddItemToStockList | backend/app/db/stock_lists_db.py:27-56 | An unknown symbol is registered, then the item is stored under the next id; an unknown list is a 500 that keeps no row, not even the new Stocks row, but still draws the next item id |
| StockLists.NewItemKeepsTables | backend/app/db/stock_lists_db.py:42-48 | An item stored under the next id of an existing list keeps the id bound and the foreign key |
| StockLists.AddedItemIsListed | backend/app/db/stock_lists_db.py:32-48 | After an item is added, the list's items include it |
| StockLists.ItemsWithoutList | backend/app/db/stock_lists_db.py:147-157 | Exactly the items of other lists, unchanged |
| StockLists.ReviewsWithoutList | backend/app/db/stock_lists_db.py:147-157 | Exactly the reviews of other lists, unchanged |
| StockLists.SharesWithoutList | backend/app/db/stock_lists_db.py:147-157 | Exactly the share rows of other lists |
| StockLists.RemovedListKeepsTables | backend/app/db/stock_lists_db.py:147-157 | Removing a list with what refers to it keeps the id bounds, the foreign keys and one review per user and list |
| StockLists.DeleteStockList | backend/app/db/stock_lists_db.py:141-164 | 403 with no change unless the user owns the list; otherwise the list, its items, shares and reviews go |
| StockData.ConditionsMatchParams | backend/app/db/stock_db.py:98-115 | Each appended condition carries exactly one placeholder, in step with its parameter |
| StockData.AppendFilters | backend/app/db/stock_db.py:98-115 | Both statements receive the same conditions and the parameters follow them in order |
| StockData.BuildStockQuery | backend/app/db/stock_db.py:92-134 | The row statement is ordered and paginated (or the default latest-per-symbol statement without filters); both statements carry exactly as many placeholders as their parameters |
| StockData.StatementPlaceholders | backend/app/db/stock_db.py:98-134 | The placeholder counts of the three statement shapes match their parameters |
| StockData.NewestThenSymbolIsLinearOrder | backend/app/db/stock_db.py:129 | `timestamp DESC, symbol ASC` is a linear order on price keys |
| StockData.MatchingKeys | backend/app/db/stock_db.py:98-129 | Exactly the keys whose symbol matches the pattern `%symbol%` under ILIKE (wildcards in the term included) and whose date lies within the bounds, each once, newest first then by symbol |
| StockData.UnderscoreSymbolKeepsEveryRow | backend/app/db/stock_db.py:102-105 | The symbol term `_` keeps every row with a non-empty symbol that the date bounds keep |
| StockData.MatchingRows | backend/app/db/stock_db.py:98-129 | The stored rows of the matching keys in that order |
| StockData.LatestDate | backend/app/db/stock_db.py:118-126 | The symbol's latest date with a price row |
| StockData.PricedSymbols | backend/app/db/stock_db.py:118-126 | Each symbol with price rows, once |
| StockData.LatestRows | backend/app/db/stock_db.py:118-126 | Each symbol's latest row, exactly one per priced symbol (every symbol represented and as many rows as symbols), by volume descending |
| StockData.LatestOfEachSymbol | backend/app/db/stock_db.py:118-124 | One latest row per priced symbol |
| StockData.LatestRow | backend/app/db/stock_db.py:118-124 | The stored row of the symbol's latest date |
| StockData.LatestRowsCover | backend/app/db/stock_db.py:118-126 | Reordering the latest rows keeps only latest rows, every symbol represented, and as many rows as symbols, so one row per symbol |
| StockData.PageOf | backend/app/db/stock_db.py:132-134 | LIMIT and OFFSET: at most `limit` rows, the rows from `offset` on |
| StockData.TotalPagesIsCeiling | backend/app/db/stock_db.py:141-147 | The page count is the ceiling of items over page size |
| StockData.CountedPage | backend/app/db/stock_db.py:141-157 | The page's rows and the counted totals |
| StockData.GetStockData | backend/app/db/stock_db.py:92-161 | A 500 exactly for a negative LIMIT or OFFSET, for a given start or end date text that PostgreSQL cannot cast, or, with filters, for a page size of 0; without filters the latest rows with totals of one page; with filters the counted page of the rows matching the symbol pattern and the cast date bounds |
| StockData.FilteredData | backend/app/db/stock_db.py:107-157 | With filters: a 500 exactly for a given date text that does not cast or a page size of 0; otherwise the counted page of the rows matching the symbol pattern and the cast bounds |
| StockData.FilteredRowsMatch | backend/app/db/stock_db.py:98-134 | Every row on a filtered page matches the filters and is stored |
| StockData.EveryMatchIsOnItsPage | backend/app/db/stock_db.py:132-147 | Every matching row is on some page within the page count |
| StockData.PositionIsOnItsPage | backend/app/db/stock_db.py:132-147 | The row at position i is on page i / per_page + 1 |
| StockData.PositionIsOnPage | backend/app/db/stock_db.py:132-147 | Position i lies on page i / per_page + 1, which is within the page count |
| StockData.SearchedSymbols | backend/app/db/stock_db.py:168-176 | The distinct symbols that match the pattern `%search%` under ILIKE (all of them for an empty search) |
| StockData.GetStockSymbols | backend/app/db/stock_db.py:163-188 | The first `limit` searched symbols in ascending order; a negative limit is a 500 |
| StockData.FirstSymbolsAreSmallest | backend/app/db/stock_db.py:178 | The symbols returned come before every symbol the limit leaves out |
| Routes.PyLen | backend/app/routes/review_routes.py:17 | `len` of a string or list, a TypeError on anything else |
| Routes.PyStr | backend/app/routes/stock_list_routes.py:161 | `str` of a string is itself, of an integer its decimal text |
| Routes.SqlInt | backend/app/routes/stock_list_routes.py:49 | The integer a bound value compares as: an integer itself, a string by the rules of `int` |
| Routes.OwnsList | backend/app/routes/stock_list_routes.py:49 | True exactly when both values read as integers and the user created the list |
| Routes.ReadUserArg | backend/app/routes/stock_list_routes.py:58-66 | A non-empty argument that is not an integer is a 400; an empty or absent one is no user; otherwise its value |
| Routes.ReadUserArgOfPrintedId | backend/app/routes/stock_list_routes.py:62-66 | A printed user id is read back as itself |
| Routes.ReadUserArgRefusesLetters | backend/app/routes/stock_list_routes.py:62-66 | An argument with a letter is refused |
| ReviewRoutes.LengthRefusal | backend/app/routes/review_routes.py:17-18 | None exactly when the content has a length of at most 4000; a 400 for a long string or list, a 500 otherwise |
| ReviewRoutes.CreateReview | backend/app/routes/review_routes.py:6-20 | Forwarded exactly when user, list and content are truthy and the content is within the limit; a missing field and a long text get their 400s |
| ReviewRoutes.EditReview | backend/app/routes/review_routes.py:22-35 | Forwarded exactly when user and content are truthy and the content is within the limit |
| ReviewRoutes.GetReviews | backend/app/routes/review_routes.py:37-48 | Refused exactly when the user argument is not an integer; otherwise the list with the parsed user |
| ReviewRoutes.RemoveReview | backend/app/routes/review_routes.py:55-64 | Forwarded exactly when a truthy user id is given |
| ReviewRoutes.LimitIsInclusive | backend/app/routes/review_routes.py:17-18 | A 4000-character review passes and a 4001-character one is refused |
| ReviewRoutes.EditAcceptsWhatCreateAccepts | backend/app/routes/review_routes.py:6-35 | Every body create forwards, edit forwards with the same user and content |
| ReviewRoutes.ForwardedTextIsBounded | backend/app/routes/review_routes.py:6-20 | A forwarded content is a non-empty string or list of at most 4000 elements |
| ReviewRoutes.GetReviewsOfPrintedId | backend/app/routes/review_routes.py:41-47 | A printed user id reaches the db layer as itself |
| ReviewRoutes.ZeroUserReadsAsAnonymous | backend/app/routes/review_routes.py:41-48 | `user_id=0` parses, and the db layer then answers as for an anonymous request |
| StockListRoutes.ListFieldsRefusal | backend/app/routes/stock_list_routes.py:22-30 | None exactly when user, name are truthy and the visibility is one of the three; the missing-fields 400 comes before the visibility 400 |
| StockListRoutes.CreateList | backend/app/routes/stock_list_routes.py:19-32 | Forwarded exactly when the field guards pass, with the body's values |
| StockListRoutes.AddItem | backend/app/routes/stock_list_routes.py:35-52 | Missing list, symbol or share count is a 400; with a truthy user, a non-owner is a 403; otherwise forwarded |
| StockListRoutes.GetLists | backend/app/routes/stock_list_routes.py:55-69 | Refused exactly when the user argument is not an integer; otherwise the listing call |
| StockListRoutes.DeleteList | backend/app/routes/stock_list_routes.py:78-86 | Forwarded exactly when a truthy user id is given |
| StockListRoutes.GetListById | backend/app/routes/stock_list_routes.py:89-100 | Refused exactly when the user argument is not an integer |
| StockListRoutes.UpdateList | backend/app/routes/stock_list_routes.py:103-120 | Forwarded exactly when the create guards pass and the user owns the list |
| StockListRoutes.RemoveItem | backend/app/routes/stock_list_routes.py:123-137 | Forwarded exactly when list, user and symbol are truthy and the user owns the list |
| StockListRoutes.ShareList | backend/app/routes/stock_list_routes.py:149-163 | Missing fields are a 400; an unknown username is a 404 naming it; otherwise forwarded with the found id |
| StockListRoutes.UnknownUsernameIsNamed | backend/app/routes/stock_list_routes.py:158-161 | The 404 quotes the username verbatim |
| StockListRoutes.UpdateGuardsExtendCreate | backend/app/routes/stock_list_routes.py:19-120 | Update refuses what create refuses with the same answer, and forwards a valid body exactly from the owner |
| StockListRoutes.ZeroSharesPass | backend/app/routes/stock_list_routes.py:41-46 | Zero shares pass the required-fields guard |
| StockListRoutes.AddItemIgnoresOwnershipWithoutUser | backend/app/routes/stock_list_routes.py:48-50 | Without a user, adding an item never checks ownership |
| StockListRoutes.ForwardedChangesComeFromOwner | backend/app/routes/stock_list_routes.py:103-137 | A forwarded update or item removal comes from the list's creator |
| StockListRoutes.GetListsOfPrintedId | backend/app/routes/stock_list_routes.py:62-69 | A printed user id reaches the db layer as itself |
| StockListRoutes.ZeroUserListsAsAnonymous | backend/app/routes/stock_list_routes.py:62-69 | `user_id=0` yields the same listing as no user |
| Schema.Normalise | backend/app/db/requests_db.py:118-120 | The pair is stored smaller id first and holds the same two users |
| Text.ILikeContainsIgnoresCase | backend/app/db/stock_db.py:103-105 | Upper-casing the text or the term does not change the outcome of the ILIKE search |
| Text.EmptyTermMatches | backend/app/db/stock_db.py:103-105 | The pattern `%%` matches every text |
| Text.EndingInPercentCompletes | backend/app/db/stock_db.py:105 | A pattern ending in `%` never ends in a lone escape character |
| Text.ContainsPatternEscapesComplete | backend/app/db/stock_db.py:105 | The search pattern `%term%` is never one PostgreSQL rejects, whatever the term |
| Text.PercentMatchesAll | backend/app/db/stock_db.py:103-105 | `%` alone matches every text |
| Text.LeadingPercent | backend/app/db/stock_db.py:103-105 | A leading `%` lets the rest of the pattern match any suffix of the text |
| Text.LiteralPrefix | backend/app/db/stock_db.py:103-105 | A prefix without wildcards matches only itself |
| Text.LiteralTermIsSubstring | backend/app/db/stock_db.py:103-105 | For a term without `%`, `_` or `\`, the ILIKE search is exactly a case-insensitive substring test |
| Text.UnderscoreTermMatchesEveryNonEmpty | backend/app/db/stock_db.py:103-105 | The unescaped term `_` matches every non-empty text |
| Text.DigitsValueAppend | backend/app/db/stock_transactions_db.py:149 | Appending digits shifts the value of the head left by their count |
| Text.DigitsValueBound | backend/app/db/stock_transactions_db.py:149 | A value written with n digits is below 10^n |
| Text.DigitsOrderIsNumericOrder | backend/app/db/stock_transactions_db.py:149 | Digit strings of one length compare as text exactly as their values compare |
| Text.LexLeSplit | backend/app/db/stock_transactions_db.py:149 | Compared as text, heads of one length decide unless they are equal |
| Text.TrimEmptyIffBlank | frontend/app/reviews/write/page.tsx:173 | `trim()` is empty exactly when every character is whitespace |
| Text.NatToStringRoundTrip | backend/app/db/reviews_db.py:160 | Printing a number in decimal and reading the digits back gives the number |
| Text.ParsePyIntOfIntToString | backend/app/routes/stock_list_routes.py:64 | `int(str(i)) == i` |
| Text.ParsePyIntRejectsLetters | backend/app/routes/stock_list_routes.py:64-66 | `int` fails on text with a letter |
| Text.JsParseInt | frontend/app/stocks/add/page.tsx:109 | NaN exactly when no digit follows the optional sign |
| Text.JsParseFloat | frontend/app/stocks/add/page.tsx:105-108 | NaN exactly when no decimal digits start the text after the sign |
| StocksViewPage.Window | frontend/app/stocks/view/page.tsx:156-166 | The window lies within 1..total, contains the page and has min(5, total) buttons |
| StocksViewPage.RenderPagination | frontend/app/stocks/view/page.tsx:152-226 | The buttons are the window's pages in order, first/last buttons and ellipses exactly when the window leaves pages out, Previous/Next disabled exactly at the ends |
| StocksViewPage.HandlePageChange | frontend/app/stocks/view/page.tsx:125-129 | The page becomes the requested one exactly when it is within 1..total; otherwise it stays |
| StocksViewPage.PageChangeStaysInBounds | frontend/app/stocks/view/page.tsx:125-129 | A page change keeps the page within 1..total |
| StocksViewPage.EveryButtonNavigates | frontend/app/stocks/view/page.tsx:177-219 | Every offered button moves to its page |
| StocksViewPage.DisabledButtonsAreNoOps | frontend/app/stocks/view/page.tsx:125-129 | Previous on page 1 and Next on the last page change nothing |
| StocksViewPage.FormatVolume | frontend/app/stocks/view/page.tsx:138-145 | "M" from a million, "K" from a thousand, none below, and the scaled number times its unit is the volume |
| AddStockPage.ParseIsoDate | frontend/app/stocks/add/page.tsx:73 | A date is read only from a `YYYY-MM-DD` text with month 1-12 and day 1-31, and its value is the number YYYYMMDD of those digits |
| AddStockPage.IsoDigitsValue | frontend/app/stocks/add/page.tsx:73 | Without its dashes a well-formed date text spells its YYYYMMDD number |
| AddStockPage.IsoTextOrderIsDateOrder | backend/app/db/stock_transactions_db.py:149 | Well-formed date texts compare as text exactly as their dates compare |
| AddStockPage.MinDateIsFirstNewPriceDate | frontend/app/stocks/add/page.tsx:26 | The form's floor is the backend's first date for new price rows |
| AddStockPage.ValidateDate | frontend/app/stocks/add/page.tsx:70-82 | False for an empty text; false with the toast for a date before the floor; true otherwise |
| AddStockPage.OptionalPrice | frontend/app/stocks/add/page.tsx:105-107 | An empty field is null; otherwise its parse, NaN included |
| AddStockPage.Validate | frontend/app/stocks/add/page.tsx:85-127 | The checks in order (login, required fields, date, numbers, high below low); posts exactly when all pass, with the upper-cased symbol, open, high and low null when empty and otherwise their `parseFloat`, close and volume parsed, high never below low |
| AddStockPage.CheckNumbers | frontend/app/stocks/add/page.tsx:104-145 | An unparsable field refuses with the numbers toast, then a high below the low with its toast; otherwise the payload carries the user, the upper-cased symbol, the date, each optional price as null when empty and otherwise its `parseFloat`, and the parsed close and volume |
| AddStockPage.DateFloorIsInclusive | frontend/app/stocks/add/page.tsx:70-82 | A valid form is accepted exactly from 2018-02-08 on |
| AddStockPage.EqualHighAndLowAccepted | frontend/app/stocks/add/page.tsx:124-127 | Equal high and low pass |
| AddStockPage.Filled | frontend/app/stocks/add/page.tsx:60-67 | An empty field follows its source; a filled one is kept |
| AddStockPage.FillIsIdempotent | frontend/app/stocks/add/page.tsx:60-67 | Running the auto-fill again changes nothing |
| AddStockPage.AddStockForm.AutoFill | frontend/app/stocks/add/page.tsx:60-67 | High follows open and low follows close while empty |
| AddStockPage.AddStockForm.BeginSubmit | frontend/app/stocks/add/page.tsx:85-130 | The outcome is Validate's and the form is submitting exactly when it posts |
| AddStockPage.AddStockForm.CompleteSubmit | frontend/app/stocks/add/page.tsx:132-172 | Success clears the form with a toast naming symbol and date; an error keeps every field and shows the error |
| ReviewsViewPage.Viewer | frontend/app/reviews/view/page.tsx:59 | A missing user and user id 0 both read as the guest |
| ReviewsViewPage.ListAndUserKeysDiffer | frontend/app/reviews/view/page.tsx:59-109 | A list's cache key never equals a user's |
| ReviewsViewPage.ListKeysSeparateLists | frontend/app/reviews/view/page.tsx:59 | Different lists get different keys for one viewer |
| ReviewsViewPage.UserAndGuestKeysDiffer | frontend/app/reviews/view/page.tsx:59 | A logged-in user and the guest get different keys |
| ReviewsViewPage.ReviewsView.FetchReviewsForList | frontend/app/reviews/view/page.tsx:51-68 | An empty id shows a toast; a running fetch or a cached key skips; otherwise the key is cached, loading is set and the URL carries the user |
| ReviewsViewPage.ReviewsView.CompleteListFetch | frontend/app/reviews/view/page.tsx:69-102 | An error empties reviews and list; success shows the reviews (a non-array as empty) and the list; the cache is untouched |
| ReviewsViewPage.ReviewsView.FetchUserReviews | frontend/app/reviews/view/page.tsx:105-120 | Nothing for id 0; a running fetch or a cached key skips; otherwise the key is cached and the request goes out |
| ReviewsViewPage.ReviewsView.CompleteUserFetch | frontend/app/reviews/view/page.tsx:121-150 | An error empties the reviews; success shows them with no list |
| ReviewsViewPage.ReviewsView.OnSearchParams | frontend/app/reviews/view/page.tsx:152-173 | The cache is cleared, then the named list is fetched, else the stored user's reviews |
| ReviewsViewPage.ReviewsView.HandleSearch | frontend/app/reviews/view/page.tsx:175-180 | Without a list id nothing is sent and the user is asked for one; otherwise the cache is cleared, so the list is fetched again unless a fetch is running |
| ReviewsViewPage.ReviewsView.HandleViewModeSwitch | frontend/app/reviews/view/page.tsx:183-187 | The cache is cleared and the user's reviews are fetched |
| ReviewsViewPage.FailedListFetchStaysCached | frontend/app/reviews/view/page.tsx:59-66 | A direct repeat of a failed list fetch is skipped: its key stays cached |
| ReviewsViewPage.EffectRerunRefetchesList | frontend/app/reviews/view/page.tsx:152-173 | Each run of the URL effect clears the cache first, so a failed list fetch goes out again when the effect runs again |
| WriteReviewPage.PayloadBody | frontend/app/reviews/write/page.tsx:180-189 | The posted body carries the user, the parsed list id (null for NaN) and the content |
| WriteReviewPage.CheckSubmit | frontend/app/reviews/write/page.tsx:162-176 | Login, then a checked list, then a non-blank text; posts exactly when all hold |
| WriteReviewPage.PostedReviewIsNotBlank | frontend/app/reviews/write/page.tsx:173-176 | A posted review has a non-whitespace character |
| WriteReviewPage.LengthLimitIsServerSide | frontend/app/reviews/write/page.tsx:159-208 | `handleSubmitReview` has no length guard of its own: a text over 4000 characters with a visible character passes its checks and the endpoint refuses it (the textarea's `maxLength` is not modelled) |
| WriteReviewPage.WriteReview.StartCheck | frontend/app/reviews/write/page.tsx:44-51 | A check goes out exactly when none is running and the key is not cached |
| WriteReviewPage.WriteReview.CheckStockListExistence | frontend/app/reviews/write/page.tsx:36-79 | An id and a user are required; then StartCheck |
| WriteReviewPage.WriteReview.CheckListDirectly | frontend/app/reviews/write/page.tsx:82-116 | StartCheck for the given user |
| WriteReviewPage.WriteReview.CompleteCheck | frontend/app/reviews/write/page.tsx:54-79 | Only a found list adds the key and sets listExists; a failure clears it |
| WriteReviewPage.WriteReview.SetListId | frontend/app/reviews/write/page.tsx:152-157 | A changed non-empty list id is unchecked; the same id or an empty one leaves the check state alone |
| WriteReviewPage.WriteReview.OnSearchParams | frontend/app/reviews/write/page.tsx:119-149 | Acts only while the first render is pending: takes the user and list id, unchecks the list only when the id changes, and schedules the direct check |
| WriteReviewPage.RerunKeepsFoundList | frontend/app/reviews/write/page.tsx:116-157 | A run of the URL effect after the list was found keeps it found |
| WriteReviewPage.WriteReview.HandleCheckListClick | frontend/app/reviews/write/page.tsx:211-218 | The key is deleted first, so a check goes out unless one is running |
| WriteReviewPage.WriteReview.BeginSubmit | frontend/app/reviews/write/page.tsx:159-180 | The outcome is CheckSubmit's and the page is submitting exactly when it posts |
| WriteReviewPage.WriteReview.CompleteSubmit | frontend/app/reviews/write/page.tsx:192-208 | Success navigates to the list's reviews; errors show their text; submitting is reset |
| WriteReviewPage.FailedCheckIsRetried | frontend/app/reviews/write/page.tsx:54-79 | A failed check leaves the key out, so the same check goes out again |
| WriteReviewPage.FoundListIsCachedUntilClicked | frontend/app/reviews/write/page.tsx:44-218 | After a list is found the same check is skipped, but the button re-checks |

## Left out

- `get_portfolio_statistics` and `get_portfolio_stock_transactions` (backend/app/db/stock_transactions_db.py) are not part of this model. They are reporting queries (window functions, covariance, correlation) over floating point.
- `create_portfolio` and `get_user_reviews` are not part of this model. Each is a single INSERT or SELECT with no logic beyond the ones modelled.
- `get_user_id_by_username` is not part of this model. `StockListRoutes.ShareList` takes its answer as a parameter.
- The routes `get_lists_for_user`, `get_user_lists` and `get_user_review_list` are not part of this model. They only forward their arguments.
- Table creation, the CSV load, background threads, the car and user modules, and the other routes and pages are not part of this model.
- Only the current time and today's date are read as parameters. The clock, the network, local storage and timers are not modelled. The 100 ms timer of the review writer fires as a separate call.
- Python's `int` also accepts underscores and non-ASCII digits. `Text.ParsePyInt` models ASCII decimal text with blanks and a sign only.
- PostgreSQL's 32-bit integer range is not modelled: ids and amounts are unbounded. NUMERIC balances are integer cents.
- A JSON body that is not an object is not modelled. JSON objects nested inside a body are not modelled either.
- `Text.JsParseInt` ignores the hexadecimal prefix `parseInt` reads without a radix. `Text.JsParseFloat` does not read exponents or `Infinity`.
- `WriteReviewPage.CompleteCheck` sees a good reply reduced to the list's name.
- `StocksViewPage.FormatVolume` returns the scaled number before `toFixed(2)` rounds it. Locale number and date formatting are not modelled.
- `AddStockPage.ParseIsoDate` does not check calendar validity. Browser input constraints (`min`, `max`, `step`, `required`, and the review textarea's `maxLength={4000}` at frontend/app/reviews/write/page.tsx:283) are not modelled.
- React scheduling is reduced to the `Begin…`/`Complete…` split. Re-renders and effect ordering beyond the effects modelled are left out.
- A failing foreign key is reported as a 500 without its driver message.
- StockLists.DeleteStockList: removes the list's items, shares and reviews together with it, as the cascade named in backend/app/db/stock_lists_db.py:156 promises. The schema file that declares the cascade is not part of this model.
- Rows that tie on the sort key come in no particular order in PostgreSQL. The model fixes one order. Likewise the items query of `get_accessible_stock_lists` (backend/app/db/stock_lists_db.py:106-113) has no `ORDER BY`, so each list's items come in no particular order; `StockLists.ItemsOf` fixes ascending item id.
- `ORDER BY` on text follows the database's collation. `Text.LexLe` and `StockTransactions.SymbolLe` compare code points, as the "C" collation does.
- PostgreSQL's reading of a date text is a parameter `castDate` of `StockData.GetStockData`. Which texts it accepts, and the dates it gives them, are not modelled.
- The import at backend/app/routes/stock_list_routes.py:2-14 names six functions that backend/app/db/stock_lists_db.py does not define: `get_user_stock_lists`, `share_stock_list`, `get_stock_list_by_id`, `update_stock_list`, `remove_item_from_stock_list` and `get_user_id_by_username`. As written, loading that route module fails with ImportError, so none of its routes is reachable. The model gives each handler's checks as if the import succeeded.
- JSON floats are not part of `Http.Json`. A float where the review routes take `len(content)` raises TypeError, which is answered with a 500; that path is not modelled.
- `Text.Upper` and `Text.Lower` map ASCII letters only. JavaScript's `toUpperCase` and PostgreSQL's case folding map other letters too (`"ß"` becomes `"SS"`).
- Which renders run an effect again is not modelled. The URL effect of the review viewer runs again whenever `fetchReviewsForList` or `fetchUserReviews` change, and they change with `listId`, `user` and `loading`; each run also stores a freshly parsed user. `ReviewsViewPage.ReviewsView.OnSearchParams` is one run, and `ReviewsViewPage.EffectRerunRefetchesList` shows two. On the review writer, `WriteReviewPage.RerunKeepsFoundList` shows a second run of its URL effect.
- `Schema.PriceRow` makes `close` and `volume` non-null, while the DDL allows NULL in both (backend/app/db/stock_db.py:20-21) and `ORDER BY volume DESC` puts NULL volumes first (line 125). Such rows come only from the CSV load, which is not part of this model.
- StockTransactions.TradeRefusal: compares exact integer cents, while the source multiplies `num_shares * price_per_share` as floats (backend/app/db/stock_transactions_db.py:77-78) and compares `float(balance) < amount` (backend/app/db/portfolios_db.py:86-89). Rounding can therefore refuse a trade the model permits: 3 shares at 0.10 cost 0.30000000000000004 as a float, more than a balance of 0.30. Likewise `AddStockPage.Validate` compares the parsed prices as exact reals where JavaScript compares doubles.
- StockTransactions.HandleStockTransaction: states only the positive-holdings part of `Schema.Database.Valid()`. The trade touches no foreign key of the other tables, so the rest of the schema constraints are not restated.
