/** `POST /api/webhooks/stripe`: reconciliation of the payment gateway's
    signed notifications with the store. Signature checking belongs to the
    gateway library; the model receives its verdict as `verified`, the
    decoded event when the signature checked out and None otherwise. */
module StripeWebhook {
  import opened Basics
  import opened Records
  import Ledger

  const CheckoutCompleted: string := "checkout.session.completed"
  const CheckoutExpired: string := "checkout.session.expired"

  /** The decoded event: its type and the `transactionId` the checkout
      session carried in its metadata (None when absent or empty). */
  datatype WebhookEvent = WebhookEvent(eventType: string, transactionId: Option<Id>)

  /** `checkout.session.completed` for a known transaction: the transaction
      becomes COMPLETED and its ticket SOLD, whatever they were. */
  function Complete(db: DB, txId: Id): (r: Reply)
    requires txId in db.transactions
    ensures r.created.None?
    ensures r.code == Ok || r.code == ServerError
    ensures r.code == ServerError <==> db.transactions[txId].ticketId !in db.tickets
    ensures r.code == ServerError ==> r.db == db
    ensures r.code == Ok ==>
              var tx := db.transactions[txId];
              r.db == db.(transactions := db.transactions[txId := tx.(status := TxStatus.Completed)],
                          tickets := db.tickets[tx.ticketId := db.tickets[tx.ticketId].(status := Sold)])
  {
    var tx := db.transactions[txId];
    if tx.ticketId !in db.tickets then
      // the ticket update throws and the database transaction rolls back
      Reply(ServerError, None, db)
    else
      Reply(Ok, None,
            db.(transactions := db.transactions[txId := tx.(status := TxStatus.Completed)],
                tickets := db.tickets[tx.ticketId := db.tickets[tx.ticketId].(status := Sold)]))
  }

  /** The handler as a state transition. */
  function Webhook(db: DB, signature: string, verified: Option<WebhookEvent>): (r: Reply)
    ensures r.created.None?
    // an unsigned or badly signed request is refused and never dispatched
    ensures r.code == BadRequest <==> signature == "" || verified.None?
    ensures r.code == BadRequest ==> r.db == db
    // only transactions and tickets are ever written
    ensures r.db.users == db.users && r.db.events == db.events && r.db.disputes == db.disputes
    ensures r.db.payouts == db.payouts && r.db.nextId == db.nextId
    ensures r.db.transactions.Keys == db.transactions.Keys && r.db.tickets.Keys == db.tickets.Keys
    ensures signature != "" && verified.Some? ==>
              var e := verified.value;
              // events that carry no transaction id, and unknown event types, are acknowledged
              && (e.transactionId.None? ==> r == Reply(Ok, None, db))
              && (e.eventType != CheckoutCompleted && e.eventType != CheckoutExpired ==> r == Reply(Ok, None, db))
              // completion: acknowledged without change when the transaction is unknown
              && (e.eventType == CheckoutCompleted && e.transactionId.Some? ==>
                    r == if e.transactionId.value in db.transactions then Complete(db, e.transactionId.value)
                         else Reply(Ok, None, db))
              // expiry: FAILED whatever the prior status, ticket untouched; an
              // unknown transaction makes the update throw (500)
              && (e.eventType == CheckoutExpired && e.transactionId.Some? ==>
                    var id := e.transactionId.value;
                    r == if id in db.transactions
                         then Reply(Ok, None, db.(transactions := db.transactions[id := db.transactions[id].(status := TxStatus.Failed)]))
                         else Reply(ServerError, None, db))
  {
    if signature == "" then Reply(BadRequest, None, db)
    else if verified.None? then Reply(BadRequest, None, db)
    else
      var e := verified.value;
      if e.eventType == CheckoutCompleted then
        if e.transactionId.None? then Reply(Ok, None, db)
        else if e.transactionId.value !in db.transactions then Reply(Ok, None, db)
        else Complete(db, e.transactionId.value)
      else if e.eventType == CheckoutExpired then
        if e.transactionId.None? then Reply(Ok, None, db)
        else
          var id := e.transactionId.value;
          if id !in db.transactions then Reply(ServerError, None, db)
          else Reply(Ok, None, db.(transactions := db.transactions[id := db.transactions[id].(status := TxStatus.Failed)]))
      else Reply(Ok, None, db)
  }

  lemma WebhookPreservesWellformed(db: DB, signature: string, verified: Option<WebhookEvent>)
    requires Wellformed(db)
    ensures Wellformed(Webhook(db, signature, verified).db)
  {
    if signature != "" && verified.Some? && verified.value.transactionId.Some? {
      var e, id := verified.value, verified.value.transactionId.value;
      if id in db.transactions && e.eventType == CheckoutCompleted {
        var tx := db.transactions[id];
        TxStatusWritePreserves(db, id, TxStatus.Completed);
        var db1 := db.(transactions := db.transactions[id := tx.(status := TxStatus.Completed)]);
        TicketSoldWritePreserves(db1, tx.ticketId);
        assert Webhook(db, signature, verified).db == db1.(tickets := db1.tickets[tx.ticketId := db1.tickets[tx.ticketId].(status := Sold)]);
      } else if id in db.transactions && e.eventType == CheckoutExpired {
        TxStatusWritePreserves(db, id, TxStatus.Failed);
      }
    }
  }

  /** At-least-once delivery is harmless: delivering the same event a second
      time gives the same answer and the same store as delivering it once. */
  lemma {:induction false} WebhookIdempotent(db: DB, signature: string, verified: Option<WebhookEvent>)
    requires RefsIntact(db)
    ensures var r1 := Webhook(db, signature, verified);
            Webhook(r1.db, signature, verified) == r1
  {
    var r1 := Webhook(db, signature, verified);
    if signature != "" && verified.Some? && verified.value.transactionId.Some? {
      var e, id := verified.value, verified.value.transactionId.value;
      if id in db.transactions && e.eventType == CheckoutCompleted {
        var tx := db.transactions[id];
        var db1 := r1.db;
        assert db1.transactions[id] == tx.(status := TxStatus.Completed);
        assert db1.transactions[id := db1.transactions[id].(status := TxStatus.Completed)] == db1.transactions;
        assert db1.tickets[tx.ticketId := db1.tickets[tx.ticketId].(status := Sold)] == db1.tickets;
      } else if id in db.transactions && e.eventType == CheckoutExpired {
        var db1 := r1.db;
        assert db1.transactions[id := db1.transactions[id].(status := TxStatus.Failed)] == db1.transactions;
      }
    }
  }

  /** An expiry notice that arrives after the completion notice (a buyer
      who opened two checkout sessions for one transaction, paid through one
      and let the other expire) turns the COMPLETED transaction FAILED and
      leaves the ticket SOLD. */
  lemma ExpiryAfterCompletion(db: DB, signature: string, id: Id)
    requires RefsIntact(db) && signature != "" && id in db.transactions
    ensures var db1 := Webhook(db, signature, Some(WebhookEvent(CheckoutCompleted, Some(id)))).db;
            var db2 := Webhook(db1, signature, Some(WebhookEvent(CheckoutExpired, Some(id)))).db;
            && db1.transactions[id].status == TxStatus.Completed
            && db2.transactions[id].status == TxStatus.Failed
            && db2.tickets[db.transactions[id].ticketId].status == Sold
  {
  }

  /** Completing a transaction that was not yet COMPLETED credits its
      amount to the seller's sales, and to nobody else's. */
  lemma CompletionCreditsSeller(db: DB, signature: string, id: Id, u: Id)
    requires RefsIntact(db) && signature != "" && id in db.transactions
    requires db.transactions[id].status != TxStatus.Completed
    ensures var db1 := Webhook(db, signature, Some(WebhookEvent(CheckoutCompleted, Some(id)))).db;
            var tx := db.transactions[id];
            Ledger.TotalSales(db1, u) == Ledger.TotalSales(db, u) + (if u == tx.sellerId then tx.amount else 0)
  {
    var tx := db.transactions[id];
    var db1 := Webhook(db, signature, Some(WebhookEvent(CheckoutCompleted, Some(id)))).db;
    Ledger.SalesAfterWrite(db, u, id, tx.(status := TxStatus.Completed));
    assert db1.transactions == db.transactions[id := tx.(status := TxStatus.Completed)];
  }

  /** As written, a late expiry notice takes a completed sale back out of
      the seller's total, after the seller may already have withdrawn it. */
  lemma ExpiryDebitsCompletedSale(db: DB, signature: string, id: Id)
    requires signature != "" && id in db.transactions
    requires db.transactions[id].status == TxStatus.Completed
    ensures var db1 := Webhook(db, signature, Some(WebhookEvent(CheckoutExpired, Some(id)))).db;
            var tx := db.transactions[id];
            Ledger.TotalSales(db1, tx.sellerId) == Ledger.TotalSales(db, tx.sellerId) - tx.amount
  {
    var tx := db.transactions[id];
    Ledger.SalesAfterWrite(db, tx.sellerId, id, tx.(status := TxStatus.Failed));
  }
}
