/** The read-only queries over transactions: `GET /api/transactions` and
    the two helpers of `src/data/tickets.ts` (a buyer's purchases, a
    seller's tickets). */
module Queries {
  import opened Basics
  import opened Records
  import opened Ordering

  /** Newest first: a descending `createdAt`, as an ascending key. */
  function TxNewestFirst(txs: map<Id, Transaction>): Id -> int {
    k => if k in txs then -txs[k].createdAt else 0
  }

  function TicketNewestFirst(tickets: map<Id, Ticket>): Id -> int {
    k => if k in tickets then -tickets[k].createdAt else 0
  }

  // ---- GET /api/transactions ----

  /** The `where` object the handler builds: `buyerId` and `sellerId`
      restrict conjunctively; with neither, the caller's purchases and
      sales. The parameters are not checked against the caller. */
  predicate Matches(tx: Transaction, caller: Id, buyerId: Option<Id>, sellerId: Option<Id>) {
    && (buyerId.Some? ==> tx.buyerId == buyerId.value)
    && (sellerId.Some? ==> tx.sellerId == sellerId.value)
    && (buyerId.None? && sellerId.None? ==> tx.buyerId == caller || tx.sellerId == caller)
  }

  function MatchesFilter(caller: Id, buyerId: Option<Id>, sellerId: Option<Id>): Transaction -> bool {
    (tx: Transaction) => Matches(tx, caller, buyerId, sellerId)
  }

  datatype ListReply = Unauthenticated | Listed(ids: seq<Id>)

  /** The handler: 401 without a caller; otherwise every matching
      transaction exactly once, newest first. */
  function ListTransactions(db: DB, session: Option<Session>, buyerId: Option<Id>, sellerId: Option<Id>): (r: ListReply)
    ensures session.None? <==> r.Unauthenticated?
    ensures r.Listed? ==>
              multiset(r.ids) == multiset(KeysSatisfying(db.transactions, MatchesFilter(session.value.userId, buyerId, sellerId)))
    ensures r.Listed? ==>
              forall i :: 0 <= i < |r.ids| ==>
                r.ids[i] in db.transactions && Matches(db.transactions[r.ids[i]], session.value.userId, buyerId, sellerId)
    ensures r.Listed? ==>
              forall i, j :: 0 <= i < j < |r.ids| ==>
                db.transactions[r.ids[i]].createdAt >= db.transactions[r.ids[j]].createdAt
  {
    match session
    case None => Unauthenticated
    case Some(s) =>
      var ids := SelectSorted(db.transactions, MatchesFilter(s.userId, buyerId, sellerId), TxNewestFirst(db.transactions));
      assert forall i :: 0 <= i < |ids| ==> Matches(db.transactions[ids[i]], s.userId, buyerId, sellerId);
      Listed(ids)
  }

  /** With an explicit `buyerId` the caller does not matter: whoever asks
      is shown the same transactions. */
  lemma BuyerFilterIgnoresCaller(db: DB, s1: Session, s2: Session, buyerId: Id, sellerId: Option<Id>)
    ensures var r1 := ListTransactions(db, Some(s1), Some(buyerId), sellerId);
            var r2 := ListTransactions(db, Some(s2), Some(buyerId), sellerId);
            r1.Listed? && r2.Listed? && multiset(r1.ids) == multiset(r2.ids)
  {
    var f1, f2 := MatchesFilter(s1.userId, Some(buyerId), sellerId), MatchesFilter(s2.userId, Some(buyerId), sellerId);
    forall tx ensures f1(tx) == f2(tx) {
      assert f1(tx) == Matches(tx, s1.userId, Some(buyerId), sellerId);
    }
    assert KeysSatisfying(db.transactions, f1) == KeysSatisfying(db.transactions, f2);
  }

  // ---- getPurchasedTickets ----

  /** A purchase the buyer still holds: PENDING or COMPLETED. */
  predicate Held(tx: Transaction, userId: Id) {
    tx.buyerId == userId && (tx.status == TxStatus.Pending || tx.status == TxStatus.Completed)
  }

  function HeldFilter(userId: Id): Transaction -> bool {
    (tx: Transaction) => Held(tx, userId)
  }

  /** A ticket row flattened with its transaction's id and creation time. */
  datatype PurchasedTicket = PurchasedTicket(ticketId: Id, ticket: Ticket, transactionId: Id, purchaseDate: int)

  function TransactionIds(ps: seq<PurchasedTicket>): (ids: seq<Id>)
    ensures |ids| == |ps| && forall i :: 0 <= i < |ps| ==> ids[i] == ps[i].transactionId
  {
    if ps == [] then [] else [ps[0].transactionId] + TransactionIds(ps[1..])
  }

  function Flatten(db: DB, ids: seq<Id>): (r: seq<PurchasedTicket>)
    requires forall i :: 0 <= i < |ids| ==> ids[i] in db.transactions && db.transactions[ids[i]].ticketId in db.tickets
    ensures |r| == |ids|
    ensures forall i :: 0 <= i < |ids| ==>
              var tx := db.transactions[ids[i]];
              r[i] == PurchasedTicket(tx.ticketId, db.tickets[tx.ticketId], ids[i], tx.createdAt)
  {
    if ids == [] then []
    else
      var tx := db.transactions[ids[0]];
      [PurchasedTicket(tx.ticketId, db.tickets[tx.ticketId], ids[0], tx.createdAt)] + Flatten(db, ids[1..])
  }

  /** `p` is the flattened row of one of the user's held purchases: its
      transaction, that transaction's ticket and creation time. */
  predicate IsPurchase(db: DB, userId: Id, p: PurchasedTicket) {
    && p.transactionId in db.transactions
    && Held(db.transactions[p.transactionId], userId)
    && p.ticketId == db.transactions[p.transactionId].ticketId
    && p.ticketId in db.tickets && p.ticket == db.tickets[p.ticketId]
    && p.purchaseDate == db.transactions[p.transactionId].createdAt
  }

  /** The buyer's held purchases, one per transaction, newest first; a
      failed query (`queryFailed`) yields the empty list. */
  function PurchasedTickets(db: DB, userId: Id, queryFailed: bool): (r: seq<PurchasedTicket>)
    requires RefsIntact(db)
    ensures queryFailed ==> r == []
    ensures !queryFailed ==> multiset(TransactionIds(r)) == multiset(KeysSatisfying(db.transactions, HeldFilter(userId)))
    ensures forall i :: 0 <= i < |r| ==> IsPurchase(db, userId, r[i])
    ensures forall i, j :: 0 <= i < j < |r| ==> r[i].purchaseDate >= r[j].purchaseDate
  {
    if queryFailed then []
    else
      var ids := SelectSorted(db.transactions, HeldFilter(userId), TxNewestFirst(db.transactions));
      assert TransactionRefsIn(db.transactions, db.tickets.Keys, db.users.Keys);
      var r := Flatten(db, ids);
      PurchaseRows(db, userId, ids, r);
      r
  }

  lemma PurchaseRows(db: DB, userId: Id, ids: seq<Id>, r: seq<PurchasedTicket>)
    requires forall i :: 0 <= i < |ids| ==> ids[i] in db.transactions && HeldFilter(userId)(db.transactions[ids[i]])
    requires forall i :: 0 <= i < |ids| ==> db.transactions[ids[i]].ticketId in db.tickets
    requires |r| == |ids|
    requires forall i :: 0 <= i < |ids| ==>
               var tx := db.transactions[ids[i]];
               r[i] == PurchasedTicket(tx.ticketId, db.tickets[tx.ticketId], ids[i], tx.createdAt)
    ensures TransactionIds(r) == ids
    ensures forall i :: 0 <= i < |r| ==> IsPurchase(db, userId, r[i])
  {
  }

  // ---- getSoldTickets ----

  function SellerFilter(userId: Id): Ticket -> bool {
    (t: Ticket) => t.sellerId == userId
  }

  /** All of the seller's tickets, whatever their status, newest first; a
      failed query yields the empty list. */
  function SoldTickets(db: DB, userId: Id, queryFailed: bool): (r: seq<Id>)
    ensures queryFailed ==> r == []
    ensures !queryFailed ==> multiset(r) == multiset(KeysSatisfying(db.tickets, SellerFilter(userId)))
    ensures forall i :: 0 <= i < |r| ==> r[i] in db.tickets && db.tickets[r[i]].sellerId == userId
    ensures forall i, j :: 0 <= i < j < |r| ==> db.tickets[r[i]].createdAt >= db.tickets[r[j]].createdAt
  {
    if queryFailed then []
    else
      var r := SelectSorted(db.tickets, SellerFilter(userId), TicketNewestFirst(db.tickets));
      assert forall i :: 0 <= i < |r| ==> db.tickets[r[i]].sellerId == userId;
      r
  }
}
