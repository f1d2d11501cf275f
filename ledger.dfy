/** The balance ledger: a seller's completed sales minus the payouts that
    still hold money (requested, in progress or paid), and the read-only
    balance query of `GET /api/sales/balance`. */
module Ledger {
  import opened Basics
  import opened Records
  import opened Ordering

  /** A payout in one of these states is counted against the balance;
      FAILED and REJECTED payouts give the money back. */
  predicate HoldsFunds(s: PayoutStatus) {
    s == PayoutStatus.Pending || s == Processing || s == Paid
  }

  /** A transaction's term in the total sales of user `u`. */
  function SaleTerm(u: Id): Transaction -> int {
    (t: Transaction) => if t.sellerId == u && t.status == TxStatus.Completed then t.amount else 0
  }

  /** A payout's term in the total payouts of user `u`. */
  function PayoutTerm(u: Id): Payout -> int {
    (p: Payout) => if p.userId == u && HoldsFunds(p.status) then p.amount else 0
  }

  /** Sum of the amounts of `u`'s COMPLETED sales; 0 when there are none. */
  function TotalSales(db: DB, u: Id): int {
    SumBy(db.transactions, SaleTerm(u))
  }

  /** Sum of the amounts of `u`'s payouts that hold funds; 0 when none. */
  function TotalPayouts(db: DB, u: Id): int {
    SumBy(db.payouts, PayoutTerm(u))
  }

  function AvailableBalance(db: DB, u: Id): int {
    TotalSales(db, u) - TotalPayouts(db, u)
  }

  /** With no completed sale and no fund-holding payout the balance is 0. */
  lemma EmptyLedgerIsZero(db: DB, u: Id)
    requires forall k :: k in db.transactions ==>
      db.transactions[k].sellerId != u || db.transactions[k].status != TxStatus.Completed
    requires forall k :: k in db.payouts ==>
      db.payouts[k].userId != u || !HoldsFunds(db.payouts[k].status)
    ensures TotalSales(db, u) == 0 && TotalPayouts(db, u) == 0 && AvailableBalance(db, u) == 0
  {
    SumByZero(db.transactions, SaleTerm(u));
    SumByZero(db.payouts, PayoutTerm(u));
  }

  /** Payouts only ever hold positive amounts, so the payout total is never
      negative. */
  lemma TotalPayoutsNonNegative(db: DB, u: Id)
    requires PayoutsPositive(db)
    ensures TotalPayouts(db, u) >= 0
  {
    SumByNonNegative(db.payouts, PayoutTerm(u));
  }

  /** Writing one transaction changes `u`'s sales by exactly the change of
      that transaction's term: a record that is not a COMPLETED sale of `u`
      before or after the write leaves the balance as it was. */
  lemma SalesAfterWrite(db: DB, u: Id, k: Id, t: Transaction)
    ensures TotalSales(db.(transactions := db.transactions[k := t]), u)
         == TotalSales(db, u)
            - (if k in db.transactions then SaleTerm(u)(db.transactions[k]) else 0)
            + SaleTerm(u)(t)
  {
    SumByUpdate(db.transactions, SaleTerm(u), k, t);
  }

  /** Writing one payout changes `u`'s payout total by exactly the change of
      that payout's term: a FAILED or REJECTED payout, or another user's,
      does not move the balance. */
  lemma PayoutsAfterWrite(db: DB, u: Id, k: Id, p: Payout)
    ensures TotalPayouts(db.(payouts := db.payouts[k := p]), u)
         == TotalPayouts(db, u)
            - (if k in db.payouts then PayoutTerm(u)(db.payouts[k]) else 0)
            + PayoutTerm(u)(p)
  {
    SumByUpdate(db.payouts, PayoutTerm(u), k, p);
  }

  /** Inserting a FAILED or REJECTED payout, or any payout of another user,
      leaves the balance of `u` unchanged. */
  lemma InertPayoutKeepsBalance(db: DB, u: Id, k: Id, p: Payout)
    requires k !in db.payouts
    requires p.userId != u || !HoldsFunds(p.status)
    ensures AvailableBalance(db.(payouts := db.payouts[k := p]), u) == AvailableBalance(db, u)
  {
    PayoutsAfterWrite(db, u, k, p);
  }

  /** Inserting a transaction that is not COMPLETED, or one sold by someone
      else, leaves the balance of `u` unchanged. */
  lemma InertTransactionKeepsBalance(db: DB, u: Id, k: Id, t: Transaction)
    requires k !in db.transactions
    requires t.sellerId != u || t.status != TxStatus.Completed
    ensures AvailableBalance(db.(transactions := db.transactions[k := t]), u) == AvailableBalance(db, u)
  {
    SalesAfterWrite(db, u, k, t);
  }

  /** What `GET /api/sales/balance` answers. */
  datatype BalanceReply = Unauthenticated | Balance(totalSales: Cents, totalPayouts: Cents, availableBalance: Cents)

  /** The balance query: no caller gives 401; otherwise the two sums and
      their difference, not clamped at zero. */
  function BalanceQuery(db: DB, session: Option<Session>): (r: BalanceReply)
    ensures session.None? <==> r.Unauthenticated?
    ensures r.Balance? ==> r.availableBalance == r.totalSales - r.totalPayouts
    ensures r.Balance? ==>
              r.totalSales == TotalSales(db, session.value.userId) &&
              r.totalPayouts == TotalPayouts(db, session.value.userId)
  {
    match session
    case None => Unauthenticated
    case Some(s) =>
      var sales := TotalSales(db, s.userId);
      var payouts := TotalPayouts(db, s.userId);
      Balance(sales, payouts, sales - payouts)
  }
}
