/** The store the route handlers share, as one object whose tables the
    handlers update in place. Each method is one handler run as a single
    atomic step (one database transaction); its result is tied to the
    handler's transition function, about which the properties are proved. */
module Store {
  import opened Basics
  import opened Records
  import TicketPurchase
  import StripeWebhook
  import Disputes
  import Payouts
  import TicketListing
  import Ledger

  class Marketplace {
    var users: map<Id, User>
    var events: map<Id, Event>
    var tickets: map<Id, Ticket>
    var transactions: map<Id, Transaction>
    var disputes: map<Id, Dispute>
    var payouts: map<Id, Payout>
    var nextId: Id

    /** The tables as a value. */
    function State(): DB
      reads this
    {
      DB(users, events, tickets, transactions, disputes, payouts, nextId)
    }

    ghost predicate Valid()
      reads this
    {
      Wellformed(State())
    }

    /** A store with the given users and events and nothing listed yet. */
    constructor (users: map<Id, User>, events: map<Id, Event>)
      ensures Valid()
      ensures State() == DB(users, events, map[], map[], map[], map[], 0)
    {
      this.users := users;
      this.events := events;
      tickets := map[];
      transactions := map[];
      disputes := map[];
      payouts := map[];
      nextId := 0;
    }

    /** `POST /api/tickets/purchase`. */
    method Purchase(session: Option<Session>, ticketId: Option<Id>, now: int) returns (code: Code, created: Option<Id>)
      requires Valid()
      modifies this
      ensures Valid()
      ensures var r := TicketPurchase.Purchase(old(State()), session, ticketId, now);
              code == r.code && created == r.created && State() == r.db
    {
      ghost var db0 := State();
      if session.None? {
        return Unauthorized, None;
      }
      if ticketId.None? {
        return BadRequest, None;
      }
      var tid, caller := ticketId.value, session.value.userId;
      if tid !in tickets {
        return NotFound, None;
      }
      var t := tickets[tid];
      if t.status != Available || t.sellerId == caller {
        return BadRequest, None;
      }
      if caller !in users {
        // the insert's foreign key fails and the ticket update rolls back
        return ServerError, None;
      }
      // the insert's unique ticket reference cannot fail: in a valid store
      // an AVAILABLE ticket has no transaction
      AvailableTicketUnpurchased(db0, tid);
      tickets := tickets[tid := t.(status := Sold)];
      transactions := transactions[nextId := TicketPurchase.NewTransaction(t, tid, caller, now)];
      created := Some(nextId);
      nextId := nextId + 1;
      code := Ok;
      PurchaseKeepsValid(db0, session, ticketId, now, State());
    }

    /** `POST /api/webhooks/stripe`; `verified` is the outcome of the
        signature check. */
    method HandleWebhook(signature: string, verified: Option<StripeWebhook.WebhookEvent>) returns (code: Code)
      requires Valid()
      modifies this
      ensures Valid()
      ensures var r := StripeWebhook.Webhook(old(State()), signature, verified);
              code == r.code && State() == r.db
    {
      StripeWebhook.WebhookPreservesWellformed(State(), signature, verified);
      if signature == "" || verified.None? {
        return BadRequest;
      }
      var e := verified.value;
      if e.eventType == StripeWebhook.CheckoutCompleted {
        if e.transactionId.None? || e.transactionId.value !in transactions {
          return Ok;
        }
        code := CompleteTransaction(e.transactionId.value);
      } else if e.eventType == StripeWebhook.CheckoutExpired {
        if e.transactionId.None? {
          return Ok;
        }
        code := ExpireTransaction(e.transactionId.value);
      } else {
        code := Ok;
      }
    }

    /** The completion branch: the transaction COMPLETED and its ticket SOLD,
        together or not at all. */
    method CompleteTransaction(id: Id) returns (code: Code)
      requires id in transactions
      modifies this
      ensures var r := StripeWebhook.Complete(old(State()), id);
              code == r.code && State() == r.db
    {
      var tx := transactions[id];
      if tx.ticketId !in tickets {
        return ServerError;
      }
      transactions := transactions[id := tx.(status := TxStatus.Completed)];
      tickets := tickets[tx.ticketId := tickets[tx.ticketId].(status := Sold)];
      return Ok;
    }

    /** The expiry branch: the transaction FAILED whatever its status; an
        unknown id makes the update throw. */
    method ExpireTransaction(id: Id) returns (code: Code)
      modifies this
      ensures code == (if id in old(transactions) then Ok else ServerError)
      ensures id in old(transactions) ==>
                State() == old(State()).(transactions := old(transactions)[id := old(transactions)[id].(status := TxStatus.Failed)])
      ensures id !in old(transactions) ==> State() == old(State())
    {
      if id !in transactions {
        return ServerError;
      }
      transactions := transactions[id := transactions[id].(status := TxStatus.Failed)];
      return Ok;
    }

    /** `POST /api/disputes`. */
    method OpenDispute(session: Option<Session>, txId: Option<Id>, reason: string, description: string)
      returns (code: Code, created: Option<Id>)
      requires Valid()
      modifies this
      ensures Valid()
      ensures var r := Disputes.OpenDispute(old(State()), session, txId, reason, description);
              code == r.code && created == r.created && State() == r.db
    {
      ghost var db0 := State();
      if session.None? {
        return Unauthorized, None;
      }
      if txId.None? || reason == "" || description == "" {
        return BadRequest, None;
      }
      var id, caller := txId.value, session.value.userId;
      if id !in transactions {
        return NotFound, None;
      }
      if caller !in users || transactions[id].buyerId != caller {
        return Forbidden, None;
      }
      if transactions[id].status != TxStatus.Completed {
        return BadRequest, None;
      }
      if Disputes.HasDispute(State(), id) {
        return Conflict, None;
      }
      disputes := disputes[nextId := Dispute(id, caller, reason, description, Open)];
      created := Some(nextId);
      nextId := nextId + 1;
      code := Ok;
      OpenDisputeKeepsValid(db0, session, txId, reason, description, State());
    }

    /** `POST /api/payouts/request`. */
    method RequestPayout(session: Option<Session>, pixKey: string) returns (code: Code, created: Option<Id>)
      requires Valid()
      modifies this
      ensures Valid()
      ensures var r := Payouts.RequestPayout(old(State()), session, pixKey);
              code == r.code && created == r.created && State() == r.db
    {
      var db0 := State();
      if session.None? {
        return Unauthorized, None;
      }
      if pixKey == "" {
        return BadRequest, None;
      }
      var u := session.value.userId;
      var totalSales := Ledger.TotalSales(db0, u);
      var totalPayouts := Ledger.TotalPayouts(db0, u);
      var availableBalance := totalSales - totalPayouts;
      if availableBalance <= 0 {
        return BadRequest, None;
      }
      if u !in users {
        return ServerError, None;
      }
      created := InsertPayout(Payout(u, availableBalance, pixKey, PayoutStatus.Pending));
      code := Ok;
      RequestPayoutKeepsValid(db0, session, pixKey, State());
    }

    /** The insert of a payout row under the next identifier. */
    method InsertPayout(p: Payout) returns (created: Option<Id>)
      modifies this
      ensures created == Some(old(nextId))
      ensures State() == old(State()).(payouts := old(payouts)[old(nextId) := p], nextId := old(nextId) + 1)
    {
      payouts := payouts[nextId := p];
      created := Some(nextId);
      nextId := nextId + 1;
    }

    /** `POST /api/tickets`. */
    method CreateTicket(price: Option<Cents>, section: string, row: string, seat: string,
                        eventId: Option<Id>, sellerId: Option<Id>, now: int)
      returns (code: Code, created: Option<Id>)
      requires Valid()
      modifies this
      ensures Valid()
      ensures var r := TicketListing.CreateTicket(old(State()), price, section, row, seat, eventId, sellerId, now);
              code == r.code && created == r.created && State() == r.db
    {
      ghost var db0 := State();
      if price.None? || price == Some(0) || eventId.None? || sellerId.None? {
        return BadRequest, None;
      }
      if eventId.value !in events || sellerId.value !in users {
        return ServerError, None;
      }
      tickets := tickets[nextId := Ticket(eventId.value, sellerId.value, price.value,
                                          TicketListing.Blank(section), TicketListing.Blank(row),
                                          TicketListing.Blank(seat), Available, now)];
      created := Some(nextId);
      nextId := nextId + 1;
      code := Created;
      CreateTicketKeepsValid(db0, price, section, row, seat, eventId, sellerId, now, State());
    }
  }

  // The preservation lemmas restated for a state named by the caller, so
  // that the methods above need not match it against the transition.

  lemma PurchaseKeepsValid(db0: DB, session: Option<Session>, ticketId: Option<Id>, now: int, post: DB)
    requires Wellformed(db0) && post == TicketPurchase.Purchase(db0, session, ticketId, now).db
    ensures Wellformed(post)
  {
    TicketPurchase.PurchasePreservesWellformed(db0, session, ticketId, now);
  }

  lemma OpenDisputeKeepsValid(db0: DB, session: Option<Session>, txId: Option<Id>, reason: string, description: string, post: DB)
    requires Wellformed(db0) && post == Disputes.OpenDispute(db0, session, txId, reason, description).db
    ensures Wellformed(post)
  {
    Disputes.OpenDisputePreservesWellformed(db0, session, txId, reason, description);
  }

  lemma RequestPayoutKeepsValid(db0: DB, session: Option<Session>, pixKey: string, post: DB)
    requires Wellformed(db0) && post == Payouts.RequestPayout(db0, session, pixKey).db
    ensures Wellformed(post)
  {
    Payouts.RequestPayoutPreservesWellformed(db0, session, pixKey);
  }

  lemma CreateTicketKeepsValid(db0: DB, price: Option<Cents>, section: string, row: string, seat: string,
                               eventId: Option<Id>, sellerId: Option<Id>, now: int, post: DB)
    requires Wellformed(db0) && post == TicketListing.CreateTicket(db0, price, section, row, seat, eventId, sellerId, now).db
    ensures Wellformed(post)
  {
    TicketListing.CreateTicketPreservesWellformed(db0, price, section, row, seat, eventId, sellerId, now);
  }
}
