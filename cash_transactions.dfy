/**
 * Deposits and withdrawals on a portfolio's cash balance (`handle_cash_transaction`) and the
 * owner-only listing of a portfolio's cash ledger (`get_cash_transactions`).
 */
module CashTransactions {
  import opened Http
  import opened Schema
  import Ordering

  const DEPOSIT: string := "deposit"
  const WITHDRAWAL: string := "withdrawal"

  /**
   * The guard of the single `UPDATE ... WHERE` statement: the portfolio exists and the
   * operation is a deposit, or a withdrawal the balance covers. The sign of `amount` is not checked.
   */
  predicate UpdateApplies(portfolios: map<PortfolioId, Portfolio>, portfolioId: PortfolioId, kind: string, amount: Cents) {
    portfolioId in portfolios
    && (kind == DEPOSIT || (portfolios[portfolioId].balance >= amount && kind == WITHDRAWAL))
  }

  /** `amount * CASE type WHEN 'deposit' THEN 1 ELSE -1 END`. */
  function SignedAmount(kind: string, amount: Cents): (d: Cents)
    ensures kind == DEPOSIT ==> d == amount
    ensures kind != DEPOSIT ==> d == -amount
  {
    amount * (if kind == DEPOSIT then 1 else -1)
  }

  /** The message of a successful operation, `f"{transaction_type.capitalize()} successful"`. */
  function SuccessMessage(kind: string): string
    requires kind == DEPOSIT || kind == WITHDRAWAL
  {
    if kind == DEPOSIT then "Deposit successful" else "Withdrawal successful"
  }

  /** The error of an operation whose UPDATE matched no row; a missing portfolio is reported by type only. */
  function FailureMessage(kind: string): string {
    if kind == WITHDRAWAL then "Withdrawal failed: Insufficient funds" else "Deposit failed: Invalid portfolio"
  }

  datatype CashResult =
    | CashRefused(response: Response)
    | CashDone(response: Response, transaction: CashTransaction, transactionId: int, newBalance: Cents)

  /**
   * `handle_cash_transaction` at time `now`: a type check, then the guarded balance UPDATE,
   * with the ledger INSERT taking place exactly when the UPDATE changed a row.
   */
  method HandleCashTransaction(db: Database, portfolioId: PortfolioId, kind: string, amount: Cents, now: Seconds)
    returns (result: CashResult)
    requires db.Valid()
    modifies db`portfolios, db`cashTransactions
    ensures db.Valid()
    ensures kind != DEPOSIT && kind != WITHDRAWAL ==>
      result == CashRefused(Response(BAD_REQUEST, "Invalid transaction type")) && unchanged(db)
    ensures (kind == DEPOSIT || kind == WITHDRAWAL) && !UpdateApplies(old(db.portfolios), portfolioId, kind, amount) ==>
      result == CashRefused(Response(BAD_REQUEST, FailureMessage(kind))) && unchanged(db)
    ensures (kind == DEPOSIT || kind == WITHDRAWAL) && UpdateApplies(old(db.portfolios), portfolioId, kind, amount) ==>
      var before := old(db.portfolios)[portfolioId];
      var entry := CashTransaction(portfolioId, kind, amount, now);
      && db.portfolios == old(db.portfolios)[portfolioId := before.(balance := before.balance + SignedAmount(kind, amount))]
      && db.cashTransactions == old(db.cashTransactions) + [entry]
      && result == CashDone(Response(CREATED, SuccessMessage(kind)), entry, |db.cashTransactions|,
                            db.portfolios[portfolioId].balance)
    ensures result.CashDone? <==> |db.cashTransactions| == |old(db.cashTransactions)| + 1
    ensures result.CashRefused? <==> db.cashTransactions == old(db.cashTransactions)
  {
    if kind != DEPOSIT && kind != WITHDRAWAL {
      return CashRefused(Response(BAD_REQUEST, "Invalid transaction type"));
    }
    // WITH balance_update AS (UPDATE ... RETURNING balance)
    var updated := false;
    if portfolioId in db.portfolios
      && (kind == DEPOSIT || (db.portfolios[portfolioId].balance >= amount && kind == WITHDRAWAL))
    {
      var p := db.portfolios[portfolioId];
      db.portfolios := db.portfolios[portfolioId := p.(balance := p.balance + amount * (if kind == DEPOSIT then 1 else -1))];
      updated := true;
    }
    // INSERT INTO CashTransactions ... WHERE EXISTS (SELECT 1 FROM balance_update)
    if updated {
      var entry := CashTransaction(portfolioId, kind, amount, now);
      db.cashTransactions := db.cashTransactions + [entry];
      return CashDone(Response(CREATED, SuccessMessage(kind)), entry, |db.cashTransactions|,
                      db.portfolios[portfolioId].balance);
    }
    return CashRefused(Response(BAD_REQUEST, FailureMessage(kind)));
  }

  /** A withdrawal goes through only when the balance covers it, and then never leaves a negative balance behind. */
  lemma WithdrawalNeverOverdraws(portfolios: map<PortfolioId, Portfolio>, portfolioId: PortfolioId, amount: Cents)
    requires UpdateApplies(portfolios, portfolioId, WITHDRAWAL, amount)
    ensures portfolios[portfolioId].balance >= amount
    ensures portfolios[portfolioId].balance + SignedAmount(WITHDRAWAL, amount) >= 0
  {
  }

  /**
   * The sign of the amount is not checked: a deposit of a negative amount always goes through,
   * and can drive the balance below zero.
   */
  lemma NegativeDepositOverdraws(portfolios: map<PortfolioId, Portfolio>, portfolioId: PortfolioId, amount: Cents)
    requires portfolioId in portfolios && amount < -portfolios[portfolioId].balance
    ensures UpdateApplies(portfolios, portfolioId, DEPOSIT, amount)
    ensures portfolios[portfolioId].balance + SignedAmount(DEPOSIT, amount) < 0
  {
  }

  /**
   * A deposit followed by a withdrawal of the same amount on one portfolio: the withdrawal goes
   * through exactly when the balance was not negative before, and then the balance is back where
   * it was and the ledger holds both entries, in order.
   */
  method DepositThenWithdrawRestores(db: Database, portfolioId: PortfolioId, amount: Cents, now: Seconds, later: Seconds)
    returns (deposit: CashResult, withdrawal: CashResult)
    requires db.Valid() && portfolioId in db.portfolios
    modifies db`portfolios, db`cashTransactions
    ensures deposit.CashDone?
    ensures withdrawal.CashDone? <==> old(db.portfolios[portfolioId].balance) >= 0
    ensures withdrawal.CashDone? ==>
      && db.portfolios == old(db.portfolios)
      && db.cashTransactions == old(db.cashTransactions)
         + [CashTransaction(portfolioId, DEPOSIT, amount, now), CashTransaction(portfolioId, WITHDRAWAL, amount, later)]
  {
    deposit := HandleCashTransaction(db, portfolioId, DEPOSIT, amount, now);
    withdrawal := HandleCashTransaction(db, portfolioId, WITHDRAWAL, amount, later);
    if withdrawal.CashDone? {
      assert db.portfolios[portfolioId] == old(db.portfolios[portfolioId]);
      assert db.portfolios == old(db.portfolios);
    }
  }

  // ---------------------------------------------------------------------------
  // get_cash_transactions
  // ---------------------------------------------------------------------------

  /** One row of the listing: `transaction_id, type, amount, timestamp`. */
  datatype LedgerRow = LedgerRow(id: int, kind: string, amount: Cents, time: Seconds)

  predicate NewerFirst(a: LedgerRow, b: LedgerRow) {
    a.time >= b.time
  }

  /** The ledger entries of `portfolioId` in insertion order, with their serial ids. */
  function EntriesOf(ledger: seq<CashTransaction>, portfolioId: PortfolioId): (rows: seq<LedgerRow>)
    ensures forall r :: r in rows <==>
      (1 <= r.id <= |ledger| && ledger[r.id - 1].portfolio == portfolioId
       && r == LedgerRow(r.id, ledger[r.id - 1].kind, ledger[r.id - 1].amount, ledger[r.id - 1].time))
    decreases |ledger|
  {
    if ledger == [] then []
    else
      var n := |ledger|;
      var last := ledger[n - 1];
      var front := EntriesOf(ledger[..n - 1], portfolioId);
      assert forall i :: 0 <= i < n - 1 ==> ledger[..n - 1][i] == ledger[i];
      if last.portfolio == portfolioId then front + [LedgerRow(n, last.kind, last.amount, last.time)]
      else front
  }

  datatype LedgerResult = LedgerDenied(response: Response) | LedgerListed(rows: seq<LedgerRow>)

  /** `get_cash_transactions`: 403 unless `user` owns the portfolio; otherwise its entries, newest first. */
  function GetCashTransactions(portfolios: map<PortfolioId, Portfolio>, ledger: seq<CashTransaction>,
                               portfolioId: PortfolioId, user: UserId): (r: LedgerResult)
    ensures r.LedgerDenied? <==> !(portfolioId in portfolios && portfolios[portfolioId].owner == user)
    ensures r.LedgerDenied? ==> r.response == Response(FORBIDDEN, "Unauthorized access")
    ensures r.LedgerListed? ==>
      && Ordering.SortedBy(r.rows, NewerFirst)
      && multiset(r.rows) == multiset(EntriesOf(ledger, portfolioId))
  {
    if !(portfolioId in portfolios && portfolios[portfolioId].owner == user) then
      LedgerDenied(Response(FORBIDDEN, "Unauthorized access"))
    else
      assert Ordering.TotalPreorder(NewerFirst);
      LedgerListed(Ordering.Sort(EntriesOf(ledger, portfolioId), NewerFirst))
  }
}
