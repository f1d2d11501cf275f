/** `GET /api/tickets` (the AVAILABLE listing, cheapest first) and
    `POST /api/tickets` (a seller lists a ticket). */
module TicketListing {
  import opened Basics
  import opened Records
  import opened Ordering

  /** The listing's filter: AVAILABLE, and of the given event if any. */
  predicate Listed(t: Ticket, eventId: Option<Id>) {
    t.status == Available && (eventId.Some? ==> t.eventId == eventId.value)
  }

  function ListedFilter(eventId: Option<Id>): Ticket -> bool {
    (t: Ticket) => Listed(t, eventId)
  }

  function PriceOf(tickets: map<Id, Ticket>): Id -> int {
    k => if k in tickets then tickets[k].price else 0
  }

  /** The listing: every ticket that passes the filter, exactly once, in
      ascending price order. Reads only. */
  function ListTickets(db: DB, eventId: Option<Id>): (r: seq<Id>)
    ensures multiset(r) == multiset(KeysSatisfying(db.tickets, ListedFilter(eventId)))
    ensures forall i :: 0 <= i < |r| ==>
              r[i] in db.tickets && db.tickets[r[i]].status == Available &&
              (eventId.Some? ==> db.tickets[r[i]].eventId == eventId.value)
    ensures forall i, j :: 0 <= i < j < |r| ==> db.tickets[r[i]].price <= db.tickets[r[j]].price
  {
    var r := SelectSorted(db.tickets, ListedFilter(eventId), PriceOf(db.tickets));
    assert forall i :: 0 <= i < |r| ==> Listed(db.tickets[r[i]], eventId);
    r
  }

  /** `value || null`: an empty descriptor is stored as None. */
  function Blank(s: string): (v: Option<string>)
    ensures v.None? <==> s == ""
    ensures v.Some? ==> v.value == s
  {
    if s == "" then None else Some(s)
  }

  /** `POST /api/tickets`. The price, event and seller come from the body;
      a missing or zero price counts as missing. `now` is the database
      clock. */
  function CreateTicket(db: DB, price: Option<Cents>, section: string, row: string, seat: string,
                        eventId: Option<Id>, sellerId: Option<Id>, now: int): (r: Reply)
    ensures r.code in {Created, BadRequest, ServerError}
    ensures r.code != Created ==> r.db == db && r.created.None?
    ensures r.code == BadRequest <==> price.None? || price == Some(0) || eventId.None? || sellerId.None?
    // the insert fails on a dangling event or seller
    ensures r.code == ServerError <==>
              price.Some? && price != Some(0) && eventId.Some? && sellerId.Some? &&
              (eventId.value !in db.events || sellerId.value !in db.users)
    ensures r.code == Created ==>
              r.created == Some(db.nextId) &&
              r.db == db.(tickets := db.tickets[db.nextId := Ticket(eventId.value, sellerId.value, price.value,
                                                                   Blank(section), Blank(row), Blank(seat), Available, now)],
                          nextId := db.nextId + 1)
  {
    if price.None? || price == Some(0) || eventId.None? || sellerId.None? then Reply(BadRequest, None, db)
    else if eventId.value !in db.events || sellerId.value !in db.users then Reply(ServerError, None, db)
    else
      var k := db.nextId;
      var t := Ticket(eventId.value, sellerId.value, price.value, Blank(section), Blank(row), Blank(seat), Available, now);
      Reply(Created, Some(k), db.(tickets := db.tickets[k := t], nextId := k + 1))
  }

  lemma CreateTicketPreservesWellformed(db: DB, price: Option<Cents>, section: string, row: string, seat: string,
                                        eventId: Option<Id>, sellerId: Option<Id>, now: int)
    requires Wellformed(db)
    ensures Wellformed(CreateTicket(db, price, section, row, seat, eventId, sellerId, now).db)
  {
    var r := CreateTicket(db, price, section, row, seat, eventId, sellerId, now);
    if r.code == Created {
      assert PurchasedTicketsSold(r.db) by {
        forall k | k in r.db.transactions && r.db.transactions[k].ticketId in r.db.tickets
          ensures r.db.tickets[r.db.transactions[k].ticketId].status == Sold
        {
          assert r.db.transactions[k].ticketId < db.nextId;
        }
      }
    }
  }

  /** A newly created ticket is on sale at once: it shows in the listing,
      both unfiltered and filtered by its event. */
  lemma CreatedTicketIsListed(db: DB, price: Option<Cents>, section: string, row: string, seat: string,
                              eventId: Option<Id>, sellerId: Option<Id>, now: int)
    requires CreateTicket(db, price, section, row, seat, eventId, sellerId, now).code == Created
    ensures var r := CreateTicket(db, price, section, row, seat, eventId, sellerId, now);
            r.created.value in ListTickets(r.db, None) && r.created.value in ListTickets(r.db, eventId)
  {
    var r := CreateTicket(db, price, section, row, seat, eventId, sellerId, now);
    var k := r.created.value;
    assert k in KeysSatisfying(r.db.tickets, ListedFilter(None));
    assert k in multiset(ListTickets(r.db, None));
    assert k in KeysSatisfying(r.db.tickets, ListedFilter(eventId));
    assert k in multiset(ListTickets(r.db, eventId));
  }
}
