/** `POST /api/disputes`: a buyer opens a dispute on a completed purchase.
    The caller is the already-resolved database user (the id/e-mail lookup
    of the identity provider's user is not part of this model). */
module Disputes {
  import opened Basics
  import opened Records
  import Ordering

  /** Some dispute, whatever its status, already names the transaction. */
  predicate HasDispute(db: DB, txId: Id) {
    exists k :: k in db.disputes && db.disputes[k].transactionId == txId
  }

  /** The handler as a state transition. */
  function OpenDispute(db: DB, session: Option<Session>, txId: Option<Id>, reason: string, description: string): (r: Reply)
    // a refused request changes nothing
    ensures r.code != Ok ==> r.db == db && r.created.None?
    ensures r.code in {Ok, Unauthorized, BadRequest, NotFound, Forbidden, Conflict}
    // the guards, in the order the handler checks them: 401, 400, 404, 403, 400, 409
    ensures session.None? ==> r.code == Unauthorized
    ensures session.Some? && (txId.None? || reason == "" || description == "") ==> r.code == BadRequest
    ensures session.Some? && txId.Some? && reason != "" && description != "" ==>
              var caller, id := session.value.userId, txId.value;
              && (id !in db.transactions ==> r.code == NotFound)
              && (id in db.transactions && (caller !in db.users || db.transactions[id].buyerId != caller) ==>
                    r.code == Forbidden)
              && (id in db.transactions && caller in db.users && db.transactions[id].buyerId == caller ==>
                    && (db.transactions[id].status != TxStatus.Completed ==> r.code == BadRequest)
                    && (db.transactions[id].status == TxStatus.Completed && HasDispute(db, id) ==> r.code == Conflict))
    // a request that passes every guard succeeds
    ensures r.code == Ok <==>
              session.Some? && txId.Some? && reason != "" && description != "" &&
              txId.value in db.transactions && session.value.userId in db.users &&
              db.transactions[txId.value].buyerId == session.value.userId &&
              db.transactions[txId.value].status == TxStatus.Completed &&
              !HasDispute(db, txId.value)
    // success: one new OPEN dispute linked to the transaction, opened by the
    // caller; transactions and tickets untouched
    ensures r.code == Ok ==>
              session.Some? && txId.Some? && txId.value in db.transactions &&
              db.transactions[txId.value].buyerId == session.value.userId &&
              db.transactions[txId.value].status == TxStatus.Completed &&
              !HasDispute(db, txId.value) &&
              r.created == Some(db.nextId) &&
              r.db == db.(disputes := db.disputes[db.nextId := Dispute(txId.value, session.value.userId, reason, description, Open)],
                          nextId := db.nextId + 1)
  {
    if session.None? then Reply(Unauthorized, None, db)
    else if txId.None? || reason == "" || description == "" then Reply(BadRequest, None, db)
    else
      var caller, id := session.value.userId, txId.value;
      if id !in db.transactions then Reply(NotFound, None, db)
      else if caller !in db.users || db.transactions[id].buyerId != caller then Reply(Forbidden, None, db)
      else if db.transactions[id].status != TxStatus.Completed then Reply(BadRequest, None, db)
      else if HasDispute(db, id) then Reply(Conflict, None, db)
      else
        var k := db.nextId;
        Reply(Ok, Some(k), db.(disputes := db.disputes[k := Dispute(id, caller, reason, description, Open)], nextId := k + 1))
  }

  lemma OpenDisputePreservesWellformed(db: DB, session: Option<Session>, txId: Option<Id>, reason: string, description: string)
    requires Wellformed(db)
    ensures Wellformed(OpenDispute(db, session, txId, reason, description).db)
  {
    var r := OpenDispute(db, session, txId, reason, description);
    if r.code == Ok {
      DisputeInsertPreserves(db, Dispute(txId.value, session.value.userId, reason, description, Open));
    }
  }

  /** Inserting, under the next identifier, a dispute whose transaction and
      opener exist and whose transaction has none yet keeps the store
      well-formed. */
  lemma DisputeInsertPreserves(db: DB, d: Dispute)
    requires Wellformed(db)
    requires d.transactionId in db.transactions && d.openerId in db.users && !HasDispute(db, d.transactionId)
    ensures Wellformed(db.(disputes := db.disputes[db.nextId := d], nextId := db.nextId + 1))
  {
    var db1 := db.(disputes := db.disputes[db.nextId := d], nextId := db.nextId + 1);
    assert RefsIntact(db1);
    assert KeysBelowNext(db1);
    assert OneDisputePerTransaction(db1) by {
      forall k1, k2 | k1 in db1.disputes && k2 in db1.disputes &&
                      db1.disputes[k1].transactionId == db1.disputes[k2].transactionId
        ensures k1 == k2
      {
        if k1 != db.nextId && k2 != db.nextId {
          assert db1.disputes[k1] == db.disputes[k1] && db1.disputes[k2] == db.disputes[k2];
        }
      }
    }
    assert OneTransactionPerTicket(db1) && PurchasedTicketsSold(db1) && PayoutsPositive(db1);
  }

  /** A dispute can only be opened against a COMPLETED transaction, by its
      buyer. */
  lemma DisputeOnlyOnCompletedPurchase(db: DB, session: Option<Session>, txId: Option<Id>, reason: string, description: string)
    requires OpenDispute(db, session, txId, reason, description).code == Ok
    ensures var d := OpenDispute(db, session, txId, reason, description).db.disputes[db.nextId];
            && d.transactionId in db.transactions
            && db.transactions[d.transactionId].status == TxStatus.Completed
            && db.transactions[d.transactionId].buyerId == d.openerId
            && d.status == Open
  {
  }
}
