/**
 * Reading a user's portfolios (`view_user_portfolios`, `get_portfolio_by_id`) and moving cash
 * between two portfolios (`transfer_funds`).
 */
module Portfolios {
  import opened Wrappers
  import opened Http
  import opened Schema
  import Ordering
  import Text

  // ---------------------------------------------------------------------------
  // The sum of all balances
  // ---------------------------------------------------------------------------

  /** The sum of the balances of the portfolios in `ids`. */
  ghost function SumBalances(portfolios: map<PortfolioId, Portfolio>, ids: set<PortfolioId>): int
    requires ids <= portfolios.Keys
    decreases ids
  {
    if ids == {} then 0
    else
      SmallestIdExists(ids);
      var i :| i in ids && forall j :: j in ids ==> i <= j;
      portfolios[i].balance + SumBalances(portfolios, ids - {i})
  }

  lemma SmallestIdExists(ids: set<PortfolioId>)
    requires ids != {}
    ensures exists i :: i in ids && forall j :: j in ids ==> i <= j
  {
    Ordering.LeastExists(ids, AscendingId);
  }

  predicate AscendingId(a: PortfolioId, b: PortfolioId) {
    a <= b
  }

  /** All the money held in portfolios. */
  ghost function TotalBalance(portfolios: map<PortfolioId, Portfolio>): int {
    SumBalances(portfolios, portfolios.Keys)
  }

  /** Any member of `ids` can be taken out of the sum first. */
  lemma {:induction false} SumBalancesRemove(portfolios: map<PortfolioId, Portfolio>, ids: set<PortfolioId>, j: PortfolioId)
    requires ids <= portfolios.Keys && j in ids
    ensures SumBalances(portfolios, ids) == portfolios[j].balance + SumBalances(portfolios, ids - {j})
    decreases ids
  {
    SmallestIdExists(ids);
    var i :| i in ids && forall k :: k in ids ==> i <= k;
    if i != j {
      SumBalancesRemove(portfolios, ids - {i}, j);
      SumBalancesRemove(portfolios, ids - {j}, i);
      assert ids - {i} - {j} == ids - {j} - {i};
    }
  }

  /** The sum over `ids` only depends on the balances of the portfolios in `ids`. */
  lemma {:induction false} SumBalancesFrame(p: map<PortfolioId, Portfolio>, q: map<PortfolioId, Portfolio>, ids: set<PortfolioId>)
    requires ids <= p.Keys && ids <= q.Keys
    requires forall i :: i in ids ==> p[i].balance == q[i].balance
    ensures SumBalances(p, ids) == SumBalances(q, ids)
    decreases ids
  {
    if ids != {} {
      SmallestIdExists(ids);
      var i :| i in ids && forall k :: k in ids ==> i <= k;
      SumBalancesFrame(p, q, ids - {i});
      SumBalancesRemove(q, ids, i);
    }
  }

  /** Changing one balance by `delta` changes the total by `delta`. */
  lemma TotalBalanceAfterUpdate(portfolios: map<PortfolioId, Portfolio>, id: PortfolioId, delta: int)
    requires id in portfolios
    ensures var p := portfolios[id];
      TotalBalance(portfolios[id := p.(balance := p.balance + delta)]) == TotalBalance(portfolios) + delta
  {
    var p := portfolios[id];
    var after := portfolios[id := p.(balance := p.balance + delta)];
    assert after.Keys == portfolios.Keys;
    SumBalancesRemove(portfolios, portfolios.Keys, id);
    SumBalancesRemove(after, after.Keys, id);
    SumBalancesFrame(portfolios, after, portfolios.Keys - {id});
  }

  // ---------------------------------------------------------------------------
  // transfer_funds
  // ---------------------------------------------------------------------------

  /**
   * The refusals of `transfer_funds`, in its order. Only existence and the source balance are
   * checked: neither who owns the portfolios nor the sign of `amount`.
   */
  function TransferRefusal(portfolios: map<PortfolioId, Portfolio>, from: PortfolioId, to: PortfolioId, amount: Cents): (r: Option<Response>)
    ensures r.None? <==> from in portfolios && to in portfolios && portfolios[from].balance >= amount
    ensures r.Some? ==> r.value.status == (if from in portfolios && to in portfolios then BAD_REQUEST else NOT_FOUND)
  {
    if from !in portfolios then Some(Response(NOT_FOUND, "Source portfolio not found"))
    else if to !in portfolios then Some(Response(NOT_FOUND, "Target portfolio not found"))
    else if portfolios[from].balance < amount then Some(Response(BAD_REQUEST, "Insufficient funds in source portfolio"))
    else None
  }

  /** `amount` in dollars with two decimals, as `f"{amount:.2f}"` prints a whole number of cents. */
  function Dollars(amount: Cents): (r: string)
    ensures |r| >= 4 && r[|r| - 3] == '.' && Text.AllDigits(r[|r| - 2..])
  {
    (if amount < 0 then "-" else "") + UnsignedDollars(if amount < 0 then -amount else amount)
  }

  /** `m` cents as whole dollars, a point and two digits of cents. */
  function UnsignedDollars(m: nat): (r: string)
    ensures |r| >= 4 && r[|r| - 3] == '.' && Text.AllDigits(r[..|r| - 3]) && Text.AllDigits(r[|r| - 2..])
  {
    var cents := m % 100;
    Text.NatToString(m / 100) + "." + [Text.DigitChar(cents / 10), Text.DigitChar(cents % 10)]
  }

  /** The dollars and the cents printed read back as `m` cents. */
  lemma UnsignedDollarsReadsBack(m: nat)
    ensures var r := UnsignedDollars(m);
      Text.DigitsValue(r[..|r| - 3]) * 100 + Text.DigitsValue(r[|r| - 2..]) == m
  {
    var r := UnsignedDollars(m);
    var (whole, cents) := (Text.NatToString(m / 100), m % 100);
    var fraction := [Text.DigitChar(cents / 10), Text.DigitChar(cents % 10)];
    assert r[..|r| - 3] == whole && r[|r| - 2..] == fraction;
    Text.NatToStringRoundTrip(m / 100);
    assert fraction[..1][..0] == [] && fraction[..1] == [fraction[0]];
    assert Text.DigitsValue([fraction[0]]) == cents / 10;
  }

  /**
   * Reading the printed amount back: a leading `-` exactly for a negative amount, then whole
   * dollars, a point and two digits of cents, which together give the amount's magnitude in cents.
   */
  lemma DollarsReadsBack(amount: Cents)
    ensures var r := Dollars(amount);
      var unsigned := if amount < 0 then r[1..] else r;
      && (r[0] == '-' <==> amount < 0)
      && |unsigned| >= 4 && unsigned[|unsigned| - 3] == '.'
      && Text.AllDigits(unsigned[..|unsigned| - 3]) && Text.AllDigits(unsigned[|unsigned| - 2..])
      && Text.DigitsValue(unsigned[..|unsigned| - 3]) * 100 + Text.DigitsValue(unsigned[|unsigned| - 2..])
         == if amount < 0 then -amount else amount
  {
    var magnitude := if amount < 0 then -amount else amount;
    var r, unsigned := Dollars(amount), UnsignedDollars(magnitude);
    assert (if amount < 0 then r[1..] else r) == unsigned;
    assert Text.IsDigit(unsigned[0]) by {
      assert unsigned[0] == unsigned[..|unsigned| - 3][0];
    }
    UnsignedDollarsReadsBack(magnitude);
  }

  function TransferMessage(from: PortfolioId, to: PortfolioId, amount: Cents): string {
    "Transferred $" + Dollars(amount) + " from portfolio " + Text.IntToString(from)
      + " to portfolio " + Text.IntToString(to)
  }

  /** The balances after the two UPDATEs: the source first loses `amount`, then the target gains it. */
  function Transferred(portfolios: map<PortfolioId, Portfolio>, from: PortfolioId, to: PortfolioId, amount: Cents)
    : (r: map<PortfolioId, Portfolio>)
    requires from in portfolios && to in portfolios
    ensures r.Keys == portfolios.Keys
    ensures forall id :: id in r ==> r[id].owner == portfolios[id].owner && r[id].name == portfolios[id].name
    ensures forall id :: id in r && id != from && id != to ==> r[id] == portfolios[id]
    ensures from != to ==> (r[from].balance == portfolios[from].balance - amount
                            && r[to].balance == portfolios[to].balance + amount)
    ensures from == to ==> r == portfolios
    ensures TotalBalance(r) == TotalBalance(portfolios)
  {
    var p := portfolios[from];
    var debited := portfolios[from := p.(balance := p.balance - amount)];
    var q := debited[to];
    var r := debited[to := q.(balance := q.balance + amount)];
    TotalBalanceAfterUpdate(portfolios, from, -amount);
    TotalBalanceAfterUpdate(debited, to, amount);
    assert from == to ==> r == portfolios;
    r
  }

  /** `transfer_funds(from, to, amount)`: a refusal changes nothing; otherwise both UPDATEs are committed. */
  method TransferFunds(db: Database, from: PortfolioId, to: PortfolioId, amount: Cents) returns (response: Response)
    modifies db`portfolios
    ensures var refusal := TransferRefusal(old(db.portfolios), from, to, amount);
      refusal.Some? ==> response == refusal.value && db.portfolios == old(db.portfolios)
    ensures var refusal := TransferRefusal(old(db.portfolios), from, to, amount);
      refusal.None? ==> (response == Response(OK, TransferMessage(from, to, amount))
                         && db.portfolios == Transferred(old(db.portfolios), from, to, amount))
    ensures TotalBalance(db.portfolios) == TotalBalance(old(db.portfolios))
  {
    if from !in db.portfolios {
      return Response(NOT_FOUND, "Source portfolio not found");
    }
    if to !in db.portfolios {
      return Response(NOT_FOUND, "Target portfolio not found");
    }
    if db.portfolios[from].balance < amount {
      return Response(BAD_REQUEST, "Insufficient funds in source portfolio");
    }
    var source := db.portfolios[from];
    db.portfolios := db.portfolios[from := source.(balance := source.balance - amount)];
    var target := db.portfolios[to];
    db.portfolios := db.portfolios[to := target.(balance := target.balance + amount)];
    response := Response(OK, TransferMessage(from, to, amount));
  }

  /**
   * Nothing ties a transfer to its caller: a transfer between portfolios of different owners goes
   * through whenever the source balance covers it.
   */
  lemma TransferIgnoresOwnership(portfolios: map<PortfolioId, Portfolio>, from: PortfolioId, to: PortfolioId, amount: Cents)
    requires from in portfolios && to in portfolios && from != to
    requires portfolios[from].owner != portfolios[to].owner && portfolios[from].balance >= amount
    ensures TransferRefusal(portfolios, from, to, amount).None?
    ensures Transferred(portfolios, from, to, amount)[to].balance == portfolios[to].balance + amount
  {
  }

  /** Nor is the amount required to be positive: a negative transfer pulls money out of the target. */
  lemma NegativeTransferReversesDirection(portfolios: map<PortfolioId, Portfolio>, from: PortfolioId, to: PortfolioId, amount: Cents)
    requires from in portfolios && to in portfolios && from != to
    requires amount < 0 && portfolios[from].balance >= 0
    ensures TransferRefusal(portfolios, from, to, amount).None?
    ensures Transferred(portfolios, from, to, amount)[from].balance > portfolios[from].balance
    ensures Transferred(portfolios, from, to, amount)[to].balance < portfolios[to].balance
  {
  }

  // ---------------------------------------------------------------------------
  // view_user_portfolios and get_portfolio_by_id
  // ---------------------------------------------------------------------------

  /** A Portfolios row with its id. */
  datatype PortfolioRow = PortfolioRow(id: PortfolioId, portfolio: Portfolio)

  /** 200 always; an empty list also carries the message "No portfolios found". */
  datatype PortfolioList = PortfolioList(message: Option<string>, rows: seq<PortfolioRow>)

  /** `SELECT * FROM Portfolios WHERE user_id = %s ORDER BY portfolio_id ASC`. */
  function ViewUserPortfolios(portfolios: map<PortfolioId, Portfolio>, user: UserId): (r: PortfolioList)
    ensures forall i :: 0 <= i < |r.rows| ==>
      r.rows[i].id in portfolios && r.rows[i].portfolio == portfolios[r.rows[i].id] && r.rows[i].portfolio.owner == user
    ensures forall id :: id in portfolios && portfolios[id].owner == user ==>
      exists i :: 0 <= i < |r.rows| && r.rows[i].id == id
    ensures forall i, j :: 0 <= i < j < |r.rows| ==> r.rows[i].id < r.rows[j].id
    ensures r.message.Some? <==> r.rows == []
    ensures r.message.Some? ==> r.message.value == "No portfolios found"
  {
    var owned := set id | id in portfolios && portfolios[id].owner == user;
    var ids := Ordering.Elements(owned, AscendingId);
    assert forall i :: 0 <= i < |ids| ==> ids[i] in owned;
    var rows := seq(|ids|, i requires 0 <= i < |ids| => PortfolioRow(ids[i], portfolios[ids[i]]));
    RowsListOwned(portfolios, user, owned, ids, rows);
    if rows == [] then PortfolioList(Some("No portfolios found"), [])
    else PortfolioList(None, rows)
  }

  /** The rows built from the owned ids, in id order, are exactly the user's portfolios, ascending. */
  lemma RowsListOwned(portfolios: map<PortfolioId, Portfolio>, user: UserId, owned: set<PortfolioId>,
                      ids: seq<PortfolioId>, rows: seq<PortfolioRow>)
    requires forall id :: id in owned <==> id in portfolios && portfolios[id].owner == user
    requires forall id :: id in ids <==> id in owned
    requires Ordering.SortedBy(ids, AscendingId) && forall i, j :: 0 <= i < j < |ids| ==> ids[i] != ids[j]
    requires |rows| == |ids|
    requires forall i :: 0 <= i < |ids| ==> ids[i] in portfolios && rows[i] == PortfolioRow(ids[i], portfolios[ids[i]])
    ensures forall i :: 0 <= i < |rows| ==>
      rows[i].id in portfolios && rows[i].portfolio == portfolios[rows[i].id] && rows[i].portfolio.owner == user
    ensures forall id :: id in portfolios && portfolios[id].owner == user ==>
      exists i :: 0 <= i < |rows| && rows[i].id == id
    ensures forall i, j :: 0 <= i < j < |rows| ==> rows[i].id < rows[j].id
  {
    forall i | 0 <= i < |rows|
      ensures rows[i].id in portfolios && rows[i].portfolio == portfolios[rows[i].id] && rows[i].portfolio.owner == user
    {
      assert ids[i] in owned;
    }
    forall id | id in portfolios && portfolios[id].owner == user
      ensures exists i :: 0 <= i < |rows| && rows[i].id == id
    {
      assert id in owned;
      var i :| 0 <= i < |ids| && ids[i] == id;
      assert rows[i].id == id;
    }
    forall i, j | 0 <= i < j < |rows| ensures rows[i].id < rows[j].id {
      assert AscendingId(ids[i], ids[j]) && ids[i] != ids[j];
    }
  }

  datatype PortfolioLookup = PortfolioFound(row: PortfolioRow) | PortfolioMissing(response: Response)

  /** `get_portfolio_by_id`: the row when both the id and the owner match, 404 otherwise. */
  function GetPortfolioById(portfolios: map<PortfolioId, Portfolio>, id: PortfolioId, user: UserId): (r: PortfolioLookup)
    ensures r.PortfolioFound? <==> id in portfolios && portfolios[id].owner == user
    ensures r.PortfolioFound? ==> r.row == PortfolioRow(id, portfolios[id])
    ensures r.PortfolioMissing? ==> r.response == Response(NOT_FOUND, "Portfolio not found or access denied")
  {
    if id in portfolios && portfolios[id].owner == user then PortfolioFound(PortfolioRow(id, portfolios[id]))
    else PortfolioMissing(Response(NOT_FOUND, "Portfolio not found or access denied"))
  }

  /** A portfolio is found by id exactly when `view_user_portfolios` lists it for the same user. */
  lemma LookupAgreesWithListing(portfolios: map<PortfolioId, Portfolio>, id: PortfolioId, user: UserId)
    ensures GetPortfolioById(portfolios, id, user).PortfolioFound?
        <==> exists i :: 0 <= i < |ViewUserPortfolios(portfolios, user).rows|
                         && ViewUserPortfolios(portfolios, user).rows[i].id == id
  {
    var rows := ViewUserPortfolios(portfolios, user).rows;
    if exists i :: 0 <= i < |rows| && rows[i].id == id {
      var i :| 0 <= i < |rows| && rows[i].id == id;
      assert rows[i].id in portfolios && rows[i].portfolio.owner == user;
    }
  }
}
