/** The four record kinds the marketplace reads and writes (tickets,
    transactions, disputes, payouts), the user and event rows they point
    at, and the whole database as one value. */
module Records {
  import opened Basics

  datatype TicketStatus = Available | Sold
  datatype TxStatus = Pending | Completed | Failed | Refunded
  datatype DisputeStatus = Open
  datatype PayoutStatus = Pending | Processing | Paid | Failed | Rejected

  datatype User = User(email: string)
  datatype Event = Event(title: string)

  /** A listed ticket; empty seating descriptors are stored as None. */
  datatype Ticket = Ticket(
    eventId: Id,
    sellerId: Id,
    price: Cents,
    section: Option<string>,
    row: Option<string>,
    seat: Option<string>,
    status: TicketStatus,
    createdAt: int)

  /** One purchase of one ticket by one buyer. */
  datatype Transaction = Transaction(
    ticketId: Id,
    buyerId: Id,
    sellerId: Id,
    amount: Cents,
    status: TxStatus,
    createdAt: int)

  datatype Dispute = Dispute(
    transactionId: Id,
    openerId: Id,
    reason: string,
    description: string,
    status: DisputeStatus)

  datatype Payout = Payout(
    userId: Id,
    amount: Cents,
    pixKey: string,
    status: PayoutStatus)

  /** The database. `nextId` is the identifier the next inserted record
      receives. */
  datatype DB = DB(
    users: map<Id, User>,
    events: map<Id, Event>,
    tickets: map<Id, Ticket>,
    transactions: map<Id, Transaction>,
    disputes: map<Id, Dispute>,
    payouts: map<Id, Payout>,
    nextId: Id)

  // Each invariant is stated table by table, so that a write to one table
  // leaves the conjuncts about the others untouched.

  predicate TicketRefsIn(tickets: map<Id, Ticket>, events: set<Id>, users: set<Id>) {
    forall k :: k in tickets ==> tickets[k].eventId in events && tickets[k].sellerId in users
  }

  predicate TransactionRefsIn(txs: map<Id, Transaction>, tickets: set<Id>, users: set<Id>) {
    forall k :: k in txs ==> txs[k].ticketId in tickets && txs[k].buyerId in users && txs[k].sellerId in users
  }

  predicate DisputeRefsIn(disputes: map<Id, Dispute>, txs: set<Id>, users: set<Id>) {
    forall k :: k in disputes ==> disputes[k].transactionId in txs && disputes[k].openerId in users
  }

  predicate PayoutRefsIn(payouts: map<Id, Payout>, users: set<Id>) {
    forall k :: k in payouts ==> payouts[k].userId in users
  }

  /** Foreign keys: every reference a record holds names an existing row. */
  predicate RefsIntact(db: DB) {
    && TicketRefsIn(db.tickets, db.events.Keys, db.users.Keys)
    && TransactionRefsIn(db.transactions, db.tickets.Keys, db.users.Keys)
    && DisputeRefsIn(db.disputes, db.transactions.Keys, db.users.Keys)
    && PayoutRefsIn(db.payouts, db.users.Keys)
  }

  predicate KeysBelow<V>(m: map<Id, V>, bound: Id) {
    forall k :: k in m ==> k < bound
  }

  /** Inserted records all have identifiers below `nextId`. */
  predicate KeysBelowNext(db: DB) {
    && KeysBelow(db.tickets, db.nextId)
    && KeysBelow(db.transactions, db.nextId)
    && KeysBelow(db.disputes, db.nextId)
    && KeysBelow(db.payouts, db.nextId)
  }

  predicate TicketsUnique(txs: map<Id, Transaction>) {
    forall k1, k2 :: (k1 in txs && k2 in txs && txs[k1].ticketId == txs[k2].ticketId) ==> k1 == k2
  }

  /** The transaction for a ticket is unique (the relation is one-to-one). */
  predicate OneTransactionPerTicket(db: DB) {
    TicketsUnique(db.transactions)
  }

  predicate TransactionsUnique(disputes: map<Id, Dispute>) {
    forall k1, k2 :: (k1 in disputes && k2 in disputes &&
                      disputes[k1].transactionId == disputes[k2].transactionId) ==> k1 == k2
  }

  /** The dispute for a transaction is unique. */
  predicate OneDisputePerTransaction(db: DB) {
    TransactionsUnique(db.disputes)
  }

  predicate SoldWhereBought(txs: map<Id, Transaction>, tickets: map<Id, Ticket>) {
    forall k :: k in txs && txs[k].ticketId in tickets ==> tickets[txs[k].ticketId].status == Sold
  }

  /** A ticket that some transaction refers to is SOLD: purchase marks it
      SOLD when the transaction is created and nothing here marks it back. */
  predicate PurchasedTicketsSold(db: DB) {
    SoldWhereBought(db.transactions, db.tickets)
  }

  predicate PayoutsPositive(db: DB) {
    forall k :: k in db.payouts ==> db.payouts[k].amount > 0
  }

  /** The invariant every handler preserves. */
  predicate Wellformed(db: DB) {
    && RefsIntact(db)
    && KeysBelowNext(db)
    && OneTransactionPerTicket(db)
    && OneDisputePerTransaction(db)
    && PurchasedTicketsSold(db)
    && PayoutsPositive(db)
  }

  /** Ids of the transactions recorded for a ticket. */
  function TransactionsOf(db: DB, ticketId: Id): set<Id> {
    set k | k in db.transactions && db.transactions[k].ticketId == ticketId
  }

  /** In a well-formed database an AVAILABLE ticket has no transaction. */
  lemma AvailableTicketUnpurchased(db: DB, ticketId: Id)
    requires Wellformed(db)
    requires ticketId in db.tickets && db.tickets[ticketId].status == Available
    ensures TransactionsOf(db, ticketId) == {}
  {
  }

  /** Changing the status of an existing transaction keeps the store
      well-formed. */
  lemma TxStatusWritePreserves(db: DB, id: Id, s: TxStatus)
    requires Wellformed(db) && id in db.transactions
    ensures Wellformed(db.(transactions := db.transactions[id := db.transactions[id].(status := s)]))
  {
    var db1 := db.(transactions := db.transactions[id := db.transactions[id].(status := s)]);
    // only a status changes: every field a predicate reads stays as it was
    assert db1.transactions.Keys == db.transactions.Keys;
    assert forall k :: k in db1.transactions ==>
             db1.transactions[k] == db.transactions[k].(status := db1.transactions[k].status);
    assert RefsIntact(db1) by {
      forall k | k in db1.transactions
        ensures db1.transactions[k].ticketId in db1.tickets && db1.transactions[k].buyerId in db1.users &&
                db1.transactions[k].sellerId in db1.users
      {
        assert db.transactions[k].ticketId == db1.transactions[k].ticketId;
      }
    }
    assert OneTransactionPerTicket(db1) by {
      forall k1, k2 | k1 in db1.transactions && k2 in db1.transactions &&
                      db1.transactions[k1].ticketId == db1.transactions[k2].ticketId
        ensures k1 == k2
      {
        assert db.transactions[k1].ticketId == db.transactions[k2].ticketId;
      }
    }
    assert PurchasedTicketsSold(db1) by {
      forall k | k in db1.transactions && db1.transactions[k].ticketId in db1.tickets
        ensures db1.tickets[db1.transactions[k].ticketId].status == Sold
      {
        assert db.transactions[k].ticketId == db1.transactions[k].ticketId;
      }
    }
  }

  /** Marking an existing ticket SOLD keeps the store well-formed. */
  lemma TicketSoldWritePreserves(db: DB, id: Id)
    requires Wellformed(db) && id in db.tickets
    ensures Wellformed(db.(tickets := db.tickets[id := db.tickets[id].(status := Sold)]))
  {
    var db1 := db.(tickets := db.tickets[id := db.tickets[id].(status := Sold)]);
    assert db1.tickets.Keys == db.tickets.Keys;
    assert RefsIntact(db1);
    assert KeysBelowNext(db1);
    assert PurchasedTicketsSold(db1);
  }

  /** The result of a handler: its status code, the identifier of the row
      it inserted (if any) and the database afterwards. */
  datatype Reply = Reply(code: Code, created: Option<Id>, db: DB)
}
