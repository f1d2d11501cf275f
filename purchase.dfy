/** `POST /api/tickets/purchase`: the reservation of a ticket by the
    caller. The ticket is marked SOLD and a PENDING transaction is
    inserted in one database transaction. */
module TicketPurchase {
  import opened Basics
  import opened Records
  import Ledger
  import Ordering

  /** The row a successful purchase inserts: amount copied from the price,
      buyer the caller, seller the ticket's seller. */
  function NewTransaction(t: Ticket, ticketId: Id, buyerId: Id, now: int): (tx: Transaction)
    ensures tx.ticketId == ticketId && tx.buyerId == buyerId && tx.sellerId == t.sellerId
    ensures tx.amount == t.price && tx.status == TxStatus.Pending && tx.createdAt == now
  {
    Transaction(ticketId, buyerId, t.sellerId, t.price, TxStatus.Pending, now)
  }

  /** The handler as a state transition. `now` is the database clock. */
  function Purchase(db: DB, session: Option<Session>, ticketId: Option<Id>, now: int): (r: Reply)
    // a refused request changes nothing
    ensures r.code != Ok ==> r.db == db && r.created.None?
    // the guards, in the order the handler checks them
    ensures session.None? ==> r.code == Unauthorized
    ensures session.Some? && ticketId.None? ==> r.code == BadRequest
    ensures session.Some? && ticketId.Some? && ticketId.value !in db.tickets ==> r.code == NotFound
    ensures session.Some? && ticketId.Some? && ticketId.value in db.tickets ==>
              (db.tickets[ticketId.value].status != Available ==> r.code == BadRequest) &&
              (db.tickets[ticketId.value].sellerId == session.value.userId ==> r.code == BadRequest)
    // the insert fails, and rolls back the ticket update, on an unknown
    // buyer or on a ticket that some transaction already names (the
    // ticket-transaction relation is one-to-one)
    ensures r.code == ServerError <==>
              session.Some? && ticketId.Some? && ticketId.value in db.tickets &&
              db.tickets[ticketId.value].status == Available &&
              db.tickets[ticketId.value].sellerId != session.value.userId &&
              (session.value.userId !in db.users || TransactionsOf(db, ticketId.value) != {})
    ensures r.code in {Ok, Unauthorized, BadRequest, NotFound, ServerError}
    // a request that passes every guard succeeds
    ensures r.code == Ok <==>
              session.Some? && ticketId.Some? && ticketId.value in db.tickets &&
              db.tickets[ticketId.value].status == Available &&
              db.tickets[ticketId.value].sellerId != session.value.userId &&
              session.value.userId in db.users && TransactionsOf(db, ticketId.value) == {}
    // success: both writes, and nothing else
    ensures r.code == Ok ==>
              session.Some? && ticketId.Some? && ticketId.value in db.tickets &&
              var t := db.tickets[ticketId.value];
              && t.status == Available && t.sellerId != session.value.userId
              && session.value.userId in db.users && TransactionsOf(db, ticketId.value) == {}
              && r.created == Some(db.nextId)
              && r.db == db.(tickets := db.tickets[ticketId.value := t.(status := Sold)],
                             transactions := db.transactions[db.nextId := NewTransaction(t, ticketId.value, session.value.userId, now)],
                             nextId := db.nextId + 1)
  {
    if session.None? then Reply(Unauthorized, None, db)
    else if ticketId.None? then Reply(BadRequest, None, db)
    else if ticketId.value !in db.tickets then Reply(NotFound, None, db)
    else
      var tid, caller := ticketId.value, session.value.userId;
      var t := db.tickets[tid];
      if t.status != Available then Reply(BadRequest, None, db)
      else if t.sellerId == caller then Reply(BadRequest, None, db)
      else if caller !in db.users || TransactionsOf(db, tid) != {} then Reply(ServerError, None, db)
      else
        var k := db.nextId;
        Reply(Ok, Some(k),
              db.(tickets := db.tickets[tid := t.(status := Sold)],
                  transactions := db.transactions[k := NewTransaction(t, tid, caller, now)],
                  nextId := k + 1))
  }

  lemma PurchasePreservesWellformed(db: DB, session: Option<Session>, ticketId: Option<Id>, now: int)
    requires Wellformed(db)
    ensures Wellformed(Purchase(db, session, ticketId, now).db)
  {
    var r := Purchase(db, session, ticketId, now);
    if r.code == Ok {
      var t := db.tickets[ticketId.value];
      SaleWritePreserves(db, ticketId.value, NewTransaction(t, ticketId.value, session.value.userId, now));
    }
  }

  /** Marking an AVAILABLE ticket SOLD and inserting, under the next
      identifier, a transaction for it between existing users keeps the
      store well-formed. */
  lemma SaleWritePreserves(db: DB, tid: Id, tx: Transaction)
    requires Wellformed(db)
    requires tid in db.tickets && db.tickets[tid].status == Available
    requires tx.ticketId == tid && tx.buyerId in db.users && tx.sellerId in db.users
    ensures Wellformed(db.(tickets := db.tickets[tid := db.tickets[tid].(status := Sold)],
                           transactions := db.transactions[db.nextId := tx],
                           nextId := db.nextId + 1))
  {
    // an AVAILABLE ticket has no transaction yet
    assert forall j :: j in db.transactions ==> db.transactions[j].ticketId != tid;
    var mid := db.(tickets := db.tickets[tid := db.tickets[tid].(status := Sold)]);
    TicketSoldWritePreserves(db, tid);
    TransactionInsertPreserves(mid, tx);
  }

  /** Inserting, under the next identifier, the first transaction of a SOLD
      ticket, between existing users, keeps the store well-formed. */
  lemma TransactionInsertPreserves(db: DB, tx: Transaction)
    requires Wellformed(db)
    requires tx.ticketId in db.tickets && db.tickets[tx.ticketId].status == Sold
    requires forall j :: j in db.transactions ==> db.transactions[j].ticketId != tx.ticketId
    requires tx.buyerId in db.users && tx.sellerId in db.users
    ensures Wellformed(db.(transactions := db.transactions[db.nextId := tx], nextId := db.nextId + 1))
  {
    var k := db.nextId;
    var db1 := db.(transactions := db.transactions[k := tx], nextId := k + 1);
    assert RefsIntact(db1);
    assert KeysBelowNext(db1);
    assert OneTransactionPerTicket(db1) by {
      forall k1, k2 | k1 in db1.transactions && k2 in db1.transactions &&
                      db1.transactions[k1].ticketId == db1.transactions[k2].ticketId
        ensures k1 == k2
      {
        if k1 != k && k2 != k {
          assert db1.transactions[k1] == db.transactions[k1] && db1.transactions[k2] == db.transactions[k2];
        }
      }
    }
    assert PurchasedTicketsSold(db1);
    assert OneDisputePerTransaction(db1) && PayoutsPositive(db1);
  }

  /** A successful purchase adds exactly one transaction, under a fresh
      id. */
  lemma PurchaseAddsExactlyOne(db: DB, session: Option<Session>, ticketId: Option<Id>, now: int)
    requires KeysBelowNext(db)
    requires Purchase(db, session, ticketId, now).code == Ok
    ensures var r := Purchase(db, session, ticketId, now);
            && r.created.Some? && r.created.value !in db.transactions
            && r.db.transactions.Keys == db.transactions.Keys + {r.created.value}
            && |r.db.transactions| == |db.transactions| + 1
  {
    var r := Purchase(db, session, ticketId, now);
    var k := db.nextId;
    var tx := NewTransaction(db.tickets[ticketId.value], ticketId.value, session.value.userId, now);
    assert r.db.transactions == db.transactions[k := tx];
    assert k !in db.transactions;
    Ordering.MapInsertGrows(db.transactions, k, tx);
  }

  /** Nothing else changes: every earlier transaction and every other
      ticket is as it was, and users, events, disputes and payouts are
      untouched. */
  lemma PurchaseKeepsTheRest(db: DB, session: Option<Session>, ticketId: Option<Id>, now: int)
    requires KeysBelowNext(db)
    requires Purchase(db, session, ticketId, now).code == Ok
    ensures var r := Purchase(db, session, ticketId, now);
            && (forall k :: k in db.transactions ==> k in r.db.transactions && r.db.transactions[k] == db.transactions[k])
            && (forall k :: k in db.tickets && k != ticketId.value ==> k in r.db.tickets && r.db.tickets[k] == db.tickets[k])
            && r.db.users == db.users && r.db.events == db.events
            && r.db.disputes == db.disputes && r.db.payouts == db.payouts
  {
    assert db.nextId !in db.transactions;
  }

  /** After a successful purchase the new transaction is the only one for
      the ticket. */
  lemma PurchaseSoleTransaction(db: DB, session: Option<Session>, ticketId: Option<Id>, now: int)
    requires Purchase(db, session, ticketId, now).code == Ok
    ensures var r := Purchase(db, session, ticketId, now);
            TransactionsOf(r.db, ticketId.value) == {r.created.value}
  {
    var r := Purchase(db, session, ticketId, now);
    var tid, k := ticketId.value, db.nextId;
    assert TransactionsOf(db, tid) == {};
    // no earlier transaction names the ticket, so only the new one does
    assert forall j :: j in db.transactions ==> j !in TransactionsOf(db, tid);
  }

  /** Once a purchase of a ticket has succeeded, any later purchase of the
      same ticket is refused with 400 and changes nothing. */
  lemma SecondPurchaseRefused(db: DB, s1: Option<Session>, s2: Option<Session>, ticketId: Id, now1: int, now2: int)
    requires Purchase(db, s1, Some(ticketId), now1).code == Ok
    ensures var db1 := Purchase(db, s1, Some(ticketId), now1).db;
            s2.Some? ==> Purchase(db1, s2, Some(ticketId), now2) == Reply(BadRequest, None, db1)
  {
  }

  /** A purchase moves no balance: the new transaction is PENDING. */
  lemma PurchaseKeepsBalances(db: DB, session: Option<Session>, ticketId: Option<Id>, now: int, u: Id)
    requires Wellformed(db)
    ensures Ledger.AvailableBalance(Purchase(db, session, ticketId, now).db, u) == Ledger.AvailableBalance(db, u)
  {
    var r := Purchase(db, session, ticketId, now);
    if r.code == Ok {
      var t := db.tickets[ticketId.value];
      var tx := NewTransaction(t, ticketId.value, session.value.userId, now);
      var mid := db.(transactions := db.transactions[db.nextId := tx]);
      Ledger.InertTransactionKeepsBalance(db, u, db.nextId, tx);
      assert Ledger.AvailableBalance(r.db, u) == Ledger.AvailableBalance(mid, u) by {
        assert r.db.transactions == mid.transactions && r.db.payouts == mid.payouts;
      }
    }
  }
}
