/** `POST /api/payouts/request`: a seller withdraws the whole available
    balance to a PIX key. */
module Payouts {
  import opened Basics
  import opened Records
  import opened Ledger
  import Ordering
  import StripeWebhook

  /** The handler as a state transition. */
  function RequestPayout(db: DB, session: Option<Session>, pixKey: string): (r: Reply)
    // a refused request creates no payout and changes nothing
    ensures r.code != Ok ==> r.db == db && r.created.None?
    ensures r.code in {Ok, Unauthorized, BadRequest, ServerError}
    ensures session.None? ==> r.code == Unauthorized
    ensures session.Some? && pixKey == "" ==> r.code == BadRequest
    ensures session.Some? && pixKey != "" && AvailableBalance(db, session.value.userId) <= 0 ==> r.code == BadRequest
    // the insert's foreign key fails for a caller with no user row
    ensures r.code == ServerError <==>
              session.Some? && pixKey != "" && AvailableBalance(db, session.value.userId) > 0 &&
              session.value.userId !in db.users
    // a request that passes every guard succeeds
    ensures r.code == Ok <==>
              session.Some? && pixKey != "" && AvailableBalance(db, session.value.userId) > 0 &&
              session.value.userId in db.users
    // success: exactly one new PENDING payout for the full, strictly
    // positive balance, to the given key
    ensures r.code == Ok ==>
              session.Some? && pixKey != "" &&
              var u := session.value.userId;
              && AvailableBalance(db, u) > 0
              && r.created == Some(db.nextId)
              && r.db == db.(payouts := db.payouts[db.nextId := Payout(u, AvailableBalance(db, u), pixKey, PayoutStatus.Pending)],
                             nextId := db.nextId + 1)
  {
    if session.None? then Reply(Unauthorized, None, db)
    else if pixKey == "" then Reply(BadRequest, None, db)
    else
      var u := session.value.userId;
      var totalSales := TotalSales(db, u);
      var totalPayouts := TotalPayouts(db, u);
      var availableBalance := totalSales - totalPayouts;
      if availableBalance <= 0 then Reply(BadRequest, None, db)
      else if u !in db.users then Reply(ServerError, None, db)  // the insert's foreign key fails
      else
        var k := db.nextId;
        Reply(Ok, Some(k), db.(payouts := db.payouts[k := Payout(u, availableBalance, pixKey, PayoutStatus.Pending)], nextId := k + 1))
  }

  lemma RequestPayoutPreservesWellformed(db: DB, session: Option<Session>, pixKey: string)
    requires Wellformed(db)
    ensures Wellformed(RequestPayout(db, session, pixKey).db)
  {
    var r := RequestPayout(db, session, pixKey);
    if r.code == Ok {
      var u := session.value.userId;
      PayoutInsertPreserves(db, Payout(u, AvailableBalance(db, u), pixKey, PayoutStatus.Pending));
    }
  }

  /** Inserting, under the next identifier, a positive payout of an
      existing user keeps the store well-formed. */
  lemma PayoutInsertPreserves(db: DB, p: Payout)
    requires Wellformed(db) && p.userId in db.users && p.amount > 0
    ensures Wellformed(db.(payouts := db.payouts[db.nextId := p], nextId := db.nextId + 1))
  {
    var db1 := db.(payouts := db.payouts[db.nextId := p], nextId := db.nextId + 1);
    assert RefsIntact(db1) && KeysBelowNext(db1) && PayoutsPositive(db1);
    assert OneTransactionPerTicket(db1) && OneDisputePerTransaction(db1) && PurchasedTicketsSold(db1);
  }

  /** Right after a successful request the caller's balance is exactly 0. */
  lemma PayoutDrainsBalance(db: DB, session: Option<Session>, pixKey: string)
    requires KeysBelowNext(db)
    requires RequestPayout(db, session, pixKey).code == Ok
    ensures AvailableBalance(RequestPayout(db, session, pixKey).db, session.value.userId) == 0
  {
    var u := session.value.userId;
    var p := Payout(u, AvailableBalance(db, u), pixKey, PayoutStatus.Pending);
    PayoutsAfterWrite(db, u, db.nextId, p);
  }

  /** So a second request in sequence is refused with 400 and creates
      nothing. */
  lemma SecondPayoutRefused(db: DB, session: Option<Session>, pixKey: string, pixKey2: string)
    requires KeysBelowNext(db)
    requires RequestPayout(db, session, pixKey).code == Ok
    ensures var db1 := RequestPayout(db, session, pixKey).db;
            RequestPayout(db1, session, pixKey2) == Reply(BadRequest, None, db1)
  {
    PayoutDrainsBalance(db, session, pixKey);
  }

  /** A request touches no other user's balance. */
  lemma PayoutKeepsOtherBalances(db: DB, session: Option<Session>, pixKey: string, v: Id)
    requires KeysBelowNext(db)
    requires session.Some? && session.value.userId != v
    ensures AvailableBalance(RequestPayout(db, session, pixKey).db, v) == AvailableBalance(db, v)
  {
    var r := RequestPayout(db, session, pixKey);
    if r.code == Ok {
      var u := session.value.userId;
      InertPayoutKeepsBalance(db, v, db.nextId, Payout(u, AvailableBalance(db, u), pixKey, PayoutStatus.Pending));
    }
  }

  /** The balance is not clamped at zero, and a late expiry notice drives it
      below zero: a seller with a COMPLETED sale requests a payout (which
      drains a positive balance to 0, or is refused when the balance is not
      positive), then the checkout session of that sale expires. The sale
      leaves the total, the payout stays, and the balance ends at the
      clamped prior balance minus the sale's amount. */
  lemma ExpiryAfterPayoutLeavesDebt(db: DB, u: Id, email: string, pixKey: string, signature: string, id: Id)
    requires Wellformed(db)
    requires pixKey != "" && signature != ""
    requires id in db.transactions && db.transactions[id].status == TxStatus.Completed
    requires db.transactions[id].sellerId == u && db.transactions[id].amount > 0
    ensures var db1 := RequestPayout(db, Some(Session(u, email)), pixKey).db;
            var db2 := StripeWebhook.Webhook(db1, signature,
                         Some(StripeWebhook.WebhookEvent(StripeWebhook.CheckoutExpired, Some(id)))).db;
            && AvailableBalance(db2, u)
               == (if AvailableBalance(db, u) > 0 then 0 else AvailableBalance(db, u)) - db.transactions[id].amount
            && AvailableBalance(db2, u) < 0
  {
    var session := Some(Session(u, email));
    var r1 := RequestPayout(db, session, pixKey);
    var db1 := r1.db;
    var e := StripeWebhook.WebhookEvent(StripeWebhook.CheckoutExpired, Some(id));
    var db2 := StripeWebhook.Webhook(db1, signature, Some(e)).db;
    if r1.code == Ok {
      PayoutDrainsBalance(db, session, pixKey);
    } else {
      assert u in db.users;
    }
    // the payout does not touch the transaction; the expiry does not touch payouts
    assert db1.transactions == db.transactions;
    StripeWebhook.ExpiryDebitsCompletedSale(db1, signature, id);
    assert db2.payouts == db1.payouts;
  }
}
