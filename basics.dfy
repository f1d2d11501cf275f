/** Shared vocabulary: optional values, identifiers, money and the HTTP
    status codes the route handlers answer with. */
module Basics {

  datatype Option<+T> = None | Some(value: T)

  /** Every record (ticket, transaction, dispute, payout, user, event) is
      keyed by an opaque identifier. */
  type Id = nat

  /** Money in integer cents (the database column is a float). */
  type Cents = int

  /** The HTTP statuses the handlers answer with: 200, 201, 400, 401, 403,
      404, 409 and 500. */
  datatype Code = Ok | Created | BadRequest | Unauthorized | Forbidden | NotFound | Conflict | ServerError

  /** The authenticated caller as the identity provider reports it: the
      resolved user id and the e-mail address on the session. */
  datatype Session = Session(userId: Id, email: string)
}
