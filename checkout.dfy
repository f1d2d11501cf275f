/** `POST /api/payment/create-checkout`: the guards in front of the
    payment gateway and the request sent to it. The gateway's answer is a
    parameter: `gatewayOk` says whether the session was created. */
module Checkout {
  import opened Basics
  import opened Records
  import opened Text

  /** What the handler hands to the gateway. */
  datatype GatewayRequest = GatewayRequest(
    transactionId: Id,
    amount: Cents,
    eventTitle: string,
    description: string,
    buyerEmail: string)

  datatype CheckoutReply = CheckoutReply(code: Code, request: Option<GatewayRequest>)

  const Separator: string := " • "
  const DefaultDescription: string := "Ingresso"

  /** `value && caption + value`, kept only when truthy. */
  function Labelled(caption: string, value: Option<string>): (parts: seq<string>)
    ensures |parts| <= 1
    ensures parts == [] <==> value.None? || value.value == ""
  {
    if value.Some? && value.value != "" then [caption + value.value] else []
  }

  /** The present seating items, in the order section, row, seat. */
  function SeatingParts(t: Ticket): (parts: seq<string>)
    ensures forall i :: 0 <= i < |parts| ==> parts[i] != ""
  {
    Labelled("Setor: ", t.section) + Labelled("Fila: ", t.row) + Labelled("Assento: ", t.seat)
  }

  function TicketDetails(t: Ticket): string {
    Join(SeatingParts(t), Separator)
  }

  /** `ticketDetails || 'Ingresso'`. */
  function Description(t: Ticket): (d: string)
    ensures d != ""
  {
    var details := TicketDetails(t);
    if details == "" then DefaultDescription else details
  }

  predicate Absent(v: Option<string>) {
    v.None? || v.value == ""
  }

  /** The description is the fixed default exactly when the ticket has no
      section, row or seat. */
  lemma DescriptionDefaultIff(t: Ticket)
    ensures Description(t) == DefaultDescription <==> Absent(t.section) && Absent(t.row) && Absent(t.seat)
  {
    var parts := SeatingParts(t);
    JoinEmpty(parts, Separator);
    if parts != [] {
      JoinHead(parts, Separator);
      assert parts[0][0] in {'S', 'F', 'A'};
      assert TicketDetails(t)[0] != DefaultDescription[0];
    }
  }

  /** The details string for each of the eight combinations of present and
      missing seating items: the present ones, labelled, in the order
      section, row, seat, one separator between neighbours, and no gap where
      an item is missing. */
  lemma DetailsTable(t: Ticket)
    ensures Absent(t.section) && Absent(t.row) && Absent(t.seat) ==> TicketDetails(t) == ""
    ensures !Absent(t.section) && Absent(t.row) && Absent(t.seat) ==>
              TicketDetails(t) == "Setor: " + t.section.value
    ensures Absent(t.section) && !Absent(t.row) && Absent(t.seat) ==>
              TicketDetails(t) == "Fila: " + t.row.value
    ensures Absent(t.section) && Absent(t.row) && !Absent(t.seat) ==>
              TicketDetails(t) == "Assento: " + t.seat.value
    ensures !Absent(t.section) && !Absent(t.row) && Absent(t.seat) ==>
              TicketDetails(t) == "Setor: " + t.section.value + Separator + "Fila: " + t.row.value
    ensures !Absent(t.section) && Absent(t.row) && !Absent(t.seat) ==>
              TicketDetails(t) == "Setor: " + t.section.value + Separator + "Assento: " + t.seat.value
    ensures Absent(t.section) && !Absent(t.row) && !Absent(t.seat) ==>
              TicketDetails(t) == "Fila: " + t.row.value + Separator + "Assento: " + t.seat.value
    ensures !Absent(t.section) && !Absent(t.row) && !Absent(t.seat) ==>
              TicketDetails(t) ==
              "Setor: " + t.section.value + Separator + "Fila: " + t.row.value + Separator + "Assento: " + t.seat.value
  {
    var parts := SeatingParts(t);
    if |parts| == 2 {
      JoinPair(parts[0], parts[1], Separator);
      assert parts == [parts[0], parts[1]];
    } else if |parts| == 3 {
      JoinPair(parts[1], parts[2], Separator);
      assert parts[1..] == [parts[1], parts[2]];
    }
  }

  lemma JoinPair(a: string, b: string, sep: string)
    ensures Join([a, b], sep) == a + sep + b
  {
    assert [a, b][1..] == [b];
  }

  /** `transaction.buyerId === user.id || (buyer email set && equal)`. */
  predicate IsBuyer(db: DB, tx: Transaction, s: Session) {
    tx.buyerId == s.userId ||
    (tx.buyerId in db.users && db.users[tx.buyerId].email != "" && db.users[tx.buyerId].email == s.email)
  }

  /** The handler. Reads only; the store is never written. */
  function CreateCheckout(db: DB, session: Option<Session>, txId: Option<Id>, gatewayOk: bool): (r: CheckoutReply)
    requires RefsIntact(db)
    // the guards, in order: 401, 400, 404, 403, 400; none of them reaches the gateway
    ensures session.None? ==> r == CheckoutReply(Unauthorized, None)
    ensures session.Some? && txId.None? ==> r == CheckoutReply(BadRequest, None)
    ensures session.Some? && txId.Some? && txId.value !in db.transactions ==> r == CheckoutReply(NotFound, None)
    ensures session.Some? && txId.Some? && txId.value in db.transactions ==>
              var tx := db.transactions[txId.value];
              && (!IsBuyer(db, tx, session.value) ==> r == CheckoutReply(Forbidden, None))
              && (IsBuyer(db, tx, session.value) && tx.status != TxStatus.Pending ==> r == CheckoutReply(BadRequest, None))
    // a request reaches the gateway exactly for a PENDING transaction of the caller
    ensures r.request.Some? <==>
              && session.Some? && txId.Some? && txId.value in db.transactions
              && IsBuyer(db, db.transactions[txId.value], session.value)
              && db.transactions[txId.value].status == TxStatus.Pending
    // it carries the stored id and amount unchanged, the event title, the
    // description and the buyer's e-mail
    ensures r.request.Some? ==>
              var tx := db.transactions[txId.value];
              var t := db.tickets[tx.ticketId];
              r.request.value == GatewayRequest(txId.value, tx.amount, db.events[t.eventId].title,
                                                Description(t), db.users[tx.buyerId].email)
    // the gateway's failure is a 500, its success a 200
    ensures r.request.Some? ==> r.code == (if gatewayOk then Ok else ServerError)
    ensures r.code == Ok ==> r.request.Some?
  {
    if session.None? then CheckoutReply(Unauthorized, None)
    else if txId.None? then CheckoutReply(BadRequest, None)
    else if txId.value !in db.transactions then CheckoutReply(NotFound, None)
    else
      var tx := db.transactions[txId.value];
      if !IsBuyer(db, tx, session.value) then CheckoutReply(Forbidden, None)
      else if tx.status != TxStatus.Pending then CheckoutReply(BadRequest, None)
      else
        var t := db.tickets[tx.ticketId];
        var request := GatewayRequest(txId.value, tx.amount, db.events[t.eventId].title,
                                      Description(t), db.users[tx.buyerId].email);
        CheckoutReply(if gatewayOk then Ok else ServerError, Some(request))
  }
}
