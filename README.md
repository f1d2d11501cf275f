# Secure ticket platform — transaction and settlement core, in Dafny

A model of the server side of a ticket-resale marketplace. Sellers list tickets for events. Buyers reserve a ticket, which creates a PENDING transaction, and pay through the Stripe checkout. The Stripe webhook reconciles the payment into COMPLETED or FAILED. Sellers see the balance of their completed sales and withdraw it to a PIX key. Buyers may open one dispute per completed purchase. Beside this transaction engine, the model covers the public event catalogue (each event's lowest price and number of tickets on sale, a price-range filter, three sort orders). It also covers the two mappers that turn Ticketmaster and Eventbrite events into the platform's event records.

## How it is modelled

- **The database** is the value `Records.DB`. Each table is a map from identifiers to records. A counter `nextId` supplies fresh identifiers. `Records.Wellformed` is the invariant every handler keeps:
  - every reference points at an existing row;
  - identifiers stay below the counter;
  - a ticket has at most one transaction, and a transaction at most one dispute;
  - a ticket that some transaction refers to is SOLD;
  - payouts are positive.
- **Each route handler** is a pure transition function from a database and a request to a `Reply`. The reply holds the HTTP status, the inserted row's identifier and the database afterwards. The authenticated caller arrives as `Option<Session>`. A missing or empty request field arrives as `None` or `""`.
- **The shared store** is the class `Store.Marketplace`. Its map fields are updated in place, one method per state-changing handler. Each method runs the handler's guard chain step by step. It ensures that its status, inserted id and new state are those of the handler's transition function, and that `Valid()` (the class form of `Wellformed`) is kept.
- **Read-only handlers and helpers** are functions: the balance query, the transaction and ticket listings, the two `data/tickets.ts` queries, the checkout guards and the provider mappers.
- **Catalogue sort.** The events route sorts a JavaScript array in place. The model sorts an `array` in place, by insertion (`Catalogue.SortInPlace`).
- **Money** is integer cents.

## Model

| member | source | states |
|---|---|---|
| Records.AvailableTicketUnpurchased | src/app/api/tickets/purchase/route.ts:46-52 | In a well-formed store an AVAILABLE ticket has no transaction, so the availability check also rules out a second sale. |
| Records.TxStatusWritePreserves | src/app/api/webhooks/stripe/route.ts:53-59 | Rewriting the status of an existing transaction keeps the store well-formed. |
| Records.TicketSoldWritePreserves | src/app/api/webhooks/stripe/route.ts:62-68 | Marking an existing ticket SOLD keeps the store well-formed. |
| TicketPurchase.NewTransaction | src/app/api/tickets/purchase/route.ts:71-78 | The inserted transaction is PENDING, for the ticket's price, bought by the caller from the ticket's seller. |
| TicketPurchase.Purchase | src/app/api/tickets/purchase/route.ts:12-78 | The guards in order: 401 without a caller, 400 without a ticket id, 404 for an unknown ticket, 400 when it is not AVAILABLE or is the caller's own. 500, with the ticket update rolled back, when the insert fails: the buyer is unknown, or some transaction already names the ticket (the ticket-transaction relation is one-to-one). A request that passes every guard succeeds, and only such a request does. A refused request changes nothing. A success marks the ticket SOLD and inserts one PENDING transaction under a fresh id, and changes nothing else. |
| TicketPurchase.PurchasePreservesWellformed | src/app/api/tickets/purchase/route.ts:63-103 | A purchase, successful or not, keeps the store well-formed. |
| TicketPurchase.SaleWritePreserves | src/app/api/tickets/purchase/route.ts:63-103 | The two writes of a purchase, done together, keep the store well-formed. |
| TicketPurchase.TransactionInsertPreserves | src/app/api/tickets/purchase/route.ts:71-78 | Inserting the first transaction of a SOLD ticket between existing users keeps the store well-formed. |
| TicketPurchase.PurchaseAddsExactlyOne | src/app/api/tickets/purchase/route.ts:71-78 | A successful purchase adds exactly one transaction, under an id not used before. |
| TicketPurchase.PurchaseKeepsTheRest | src/app/api/tickets/purchase/route.ts:63-103 | A successful purchase leaves every earlier transaction, every other ticket, and the users, events, disputes and payouts as they were. |
| TicketPurchase.PurchaseSoleTransaction | src/app/api/tickets/purchase/route.ts:47-78 | After a successful purchase the new transaction is the only one for that ticket. |
| TicketPurchase.SecondPurchaseRefused | src/app/api/tickets/purchase/route.ts:47-52 | Once a ticket is bought, any later purchase of it by any caller is refused with 400 and changes nothing. |
| TicketPurchase.PurchaseKeepsBalances | src/app/api/tickets/purchase/route.ts:71-78 | A purchase moves no user's available balance, because the new transaction is PENDING. |
| StripeWebhook.Complete | src/app/api/webhooks/stripe/route.ts:40-69 | The completion sets the transaction COMPLETED and its ticket SOLD in one step. If the ticket row is missing, the whole write rolls back with 500. |
| StripeWebhook.Webhook | src/app/api/webhooks/stripe/route.ts:11-139 | 400 exactly when the signature header is missing or does not verify. An event without a transaction id, or of another type, is acknowledged unchanged. Completion of an unknown transaction is acknowledged unchanged. Expiry sets FAILED whatever the prior status, and gives 500 for an unknown id. Only transaction statuses and ticket statuses are ever written. |
| StripeWebhook.WebhookPreservesWellformed | src/app/api/webhooks/stripe/route.ts:29-133 | Every webhook delivery keeps the store well-formed. |
| StripeWebhook.WebhookIdempotent | src/app/api/webhooks/stripe/route.ts:29-133 | Delivering the same event twice gives the same reply and the same store as delivering it once. |
| StripeWebhook.ExpiryAfterCompletion | src/app/api/webhooks/stripe/route.ts:113-129 | An expiry notice after the completion notice turns the COMPLETED transaction FAILED and leaves its ticket SOLD. |
| StripeWebhook.CompletionCreditsSeller | src/app/api/webhooks/stripe/route.ts:53-59 | Completing a transaction that was not COMPLETED adds its amount to the seller's sales and changes no one else's. |
| StripeWebhook.ExpiryDebitsCompletedSale | src/app/api/webhooks/stripe/route.ts:123-129 | A late expiry notice on a COMPLETED sale takes its amount out of the seller's total sales. |
| Ledger.EmptyLedgerIsZero | src/app/api/sales/balance/route.ts:28-44 | With no completed sale and no fund-holding payout, sales, payouts and balance are all 0 (the `\|\| 0` default). |
| Ledger.TotalPayoutsNonNegative | src/app/api/sales/balance/route.ts:31-43 | Since payouts are positive, the payout total is never negative. |
| Ledger.SalesAfterWrite | src/app/api/sales/balance/route.ts:18-28 | Writing one transaction changes a user's total of COMPLETED sales by exactly the change in that transaction's contribution. |
| Ledger.PayoutsAfterWrite | src/app/api/sales/balance/route.ts:31-43 | Writing one payout changes a user's total of PENDING, PROCESSING and PAID payouts by exactly the change in that payout's contribution. |
| Ledger.InertPayoutKeepsBalance | src/app/api/sales/balance/route.ts:34-36 | A FAILED or REJECTED payout, or another user's payout, does not move the balance. |
| Ledger.InertTransactionKeepsBalance | src/app/api/sales/balance/route.ts:19-22 | A transaction that is not a COMPLETED sale of the user does not move the balance. |
| Ledger.BalanceQuery | src/app/api/sales/balance/route.ts:10-51 | 401 exactly when there is no caller. Otherwise it reports the caller's sales total, payout total and their difference. |
| Disputes.OpenDispute | src/app/api/disputes/route.ts:10-65 | The guards in order: 401, 400 for a missing field, 404 for an unknown transaction, 403 unless the caller is its buyer, 400 unless it is COMPLETED, 409 if a dispute exists. A request that passes every guard succeeds, and only such a request does. A success inserts one OPEN dispute by the caller and touches nothing else. |
| Disputes.OpenDisputePreservesWellformed | src/app/api/disputes/route.ts:47-65 | Opening a dispute keeps the store well-formed, including one dispute per transaction. |
| Disputes.DisputeInsertPreserves | src/app/api/disputes/route.ts:57-65 | Inserting a dispute for an undisputed, existing transaction keeps the store well-formed. |
| Disputes.DisputeOnlyOnCompletedPurchase | src/app/api/disputes/route.ts:39-45 | Every dispute that gets created names a COMPLETED transaction whose buyer opened it, and is OPEN. |
| Payouts.RequestPayout | src/app/api/payouts/request/route.ts:11-73 | 401 without a caller, 400 without a PIX key, 400 when the available balance is not positive. It answers 500 exactly when the guards pass but the caller has no user row, because the insert's foreign key fails. Otherwise it succeeds. A success inserts one PENDING payout for the whole balance to the given key. A refused request changes nothing. |
| Payouts.RequestPayoutPreservesWellformed | src/app/api/payouts/request/route.ts:66-73 | A payout request keeps the store well-formed, including positive payout amounts. |
| Payouts.PayoutInsertPreserves | src/app/api/payouts/request/route.ts:66-73 | Inserting a positive payout of an existing user keeps the store well-formed. |
| Payouts.PayoutDrainsBalance | src/app/api/payouts/request/route.ts:56-73 | Right after a successful request the caller's available balance is exactly 0. |
| Payouts.SecondPayoutRefused | src/app/api/payouts/request/route.ts:58-63 | A second request right after a successful one is refused with 400 and creates nothing. |
| Payouts.ExpiryAfterPayoutLeavesDebt | src/app/api/sales/balance/route.ts:44 | The balance is not clamped at zero. In every well-formed store, a seller with a COMPLETED sale requests a payout, then an expiry notice arrives for that sale. The balance then ends at the prior balance clamped at 0, minus the sale's amount, which is below zero. |
| Payouts.PayoutKeepsOtherBalances | src/app/api/payouts/request/route.ts:66-73 | A request leaves every other user's balance unchanged. |
| Checkout.Labelled | src/app/api/payment/create-checkout/route.ts:76-78 | A seating item contributes a part exactly when its value is present and non-empty. |
| Checkout.SeatingParts | src/app/api/payment/create-checkout/route.ts:75-79 | The kept parts are all non-empty (the `filter(Boolean)` step). |
| Checkout.Description | src/app/api/payment/create-checkout/route.ts:89 | The description sent to the gateway is never empty. |
| Checkout.DescriptionDefaultIff | src/app/api/payment/create-checkout/route.ts:75-89 | The description is the default "Ingresso" exactly when section, row and seat are all missing. |
| Checkout.DetailsTable | src/app/api/payment/create-checkout/route.ts:75-79 | The exact details string for each of the eight combinations of present and missing section, row and seat. The present items appear labelled, in that order, with one " • " between neighbours and no gap where an item is missing. |
| Checkout.CreateCheckout | src/app/api/payment/create-checkout/route.ts:12-100 | The guards in order are 401, 400, 404, 403 and 400; none of them reaches the gateway. A gateway request is made exactly for a PENDING transaction of the caller, matched by id or by e-mail. It carries the stored amount, the event title, the description and the buyer's e-mail. The gateway's failure gives 500 and its success 200. |
| TicketListing.ListTickets | src/app/api/tickets/route.ts:9-39 | The listing holds every AVAILABLE ticket of the given event (of any event without one), each exactly once, in ascending price order. |
| TicketListing.Blank | src/app/api/tickets/route.ts:67-69 | An empty seating item is stored as absent, any other as given. |
| TicketListing.CreateTicket | src/app/api/tickets/route.ts:57-91 | 400 exactly when the price is missing or zero or the event or seller id is missing. 500 exactly when the event or seller does not exist. Otherwise 201 with one new AVAILABLE ticket under a fresh id. |
| TicketListing.CreateTicketPreservesWellformed | src/app/api/tickets/route.ts:64-73 | Listing a ticket keeps the store well-formed. |
| TicketListing.CreatedTicketIsListed | src/app/api/tickets/route.ts:9-39 | A newly created ticket shows at once in the listing of all tickets and in that of its event. |
| Queries.ListTransactions | src/app/api/transactions/route.ts:11-66 | 401 exactly when there is no caller. Otherwise it lists every transaction matching the buyer and seller filters (the caller's purchases and sales when neither is given), each exactly once, newest first. |
| Queries.BuyerFilterIgnoresCaller | src/app/api/transactions/route.ts:25-39 | With an explicit buyer id, every caller gets the same transactions: the filter is not checked against the caller. |
| Queries.TransactionIds | src/data/tickets.ts:32-36 | One transaction id per flattened row, in order. |
| Queries.Flatten | src/data/tickets.ts:32-36 | Each row is its transaction's ticket, with the transaction's id and creation time as purchase id and date. |
| Queries.PurchasedTickets | src/data/tickets.ts:4-40 | For the user's PENDING and COMPLETED purchases, one row each, newest first. A failed query yields the empty list. |
| Queries.PurchaseRows | src/data/tickets.ts:32-36 | The flattened rows carry exactly the selected transaction ids, and each row is one of the user's held purchases. |
| Queries.SoldTickets | src/data/tickets.ts:43-71 | Every ticket of the seller, whatever its status, exactly once, newest first. A failed query yields the empty list. |
| Catalogue.AvailableCount | src/app/api/events/route.ts:47-56 | The count of tickets on sale is the number of AVAILABLE tickets in the event's list. It is at most the number of tickets, and 0 exactly when none is AVAILABLE. |
| Catalogue.MinPrice | src/app/api/events/route.ts:69-75 | The lowest price is absent exactly when no ticket is AVAILABLE. Otherwise it is the price of an AVAILABLE ticket and no AVAILABLE ticket is cheaper. |
| Catalogue.Summarize | src/app/api/events/route.ts:69-75 | A summary keeps its event's id and date. Its `minPrice` is the lowest AVAILABLE price and its `availableTickets` the count of AVAILABLE tickets. |
| Catalogue.Summaries | src/app/api/events/route.ts:69-75 | One summary per event row, in row order. |
| Catalogue.NoPriceIffSoldOut | src/app/api/events/route.ts:71-74 | An event has no lowest price exactly when it has no ticket on sale. |
| Catalogue.PriceFilter | src/app/api/events/route.ts:78-85 | Without bounds nothing is removed. With a bound, an event is kept exactly when it has a lowest price within the bounds. |
| Catalogue.BoundDropsUnpriced | src/app/api/events/route.ts:80 | With any bound, an event without a price is dropped. |
| Catalogue.PriceFilterKeepsOrder | src/app/api/events/route.ts:78-85 | The filter only removes events; the rest keep their order. |
| Catalogue.ParseSort | src/app/api/events/route.ts:12 | `sortBy` means date when absent, empty or "date"; "price" and "availability" select those orders; anything else selects none. |
| Catalogue.LeTotal | src/app/api/events/route.ts:88-98 | Each comparator orders any two events one way or the other. |
| Catalogue.LeTrans | src/app/api/events/route.ts:88-98 | Each comparator is transitive. |
| Catalogue.UnpricedLast | src/app/api/events/route.ts:89-93 | In price order, an event with no price or a price of 0 (`minPrice \|\| Infinity`) is followed only by such events. |
| Catalogue.PricedAscending | src/app/api/events/route.ts:89-93 | In price order, priced events come before and in ascending price. |
| Catalogue.SortInPlace | src/app/api/events/route.ts:88-98 | Sorting the array in place leaves it ordered by the chosen comparator and a permutation of what it held. |
| Catalogue.InsertStep | src/app/api/events/route.ts:88-98 | One insertion leaves the prefix through `i` ordered and a permutation of the old prefix. The elements after `i` are unchanged. |
| Catalogue.ListEvents | src/app/api/events/route.ts:69-100 | The reply holds exactly the summaries that pass the price filter. It is sorted by the requested order, and left in query order when the order is unknown. |
| ProviderEvents.OrElse | src/lib/event-apis/ticketmaster.ts:89-93 | `a \|\| b` on an optional string: `a` when present and non-empty, `b` otherwise. |
| ProviderEvents.OrElseNonEmpty | src/lib/event-apis/ticketmaster.ts:90 | With a non-empty fallback, the result is never empty. |
| TicketmasterMapping.FindRatio | src/lib/event-apis/ticketmaster.ts:72 | The index found is that of the first image with the given ratio. None means that no image has it. |
| TicketmasterMapping.ChooseImage | src/lib/event-apis/ticketmaster.ts:72 | The first 16_9 image when there is one, else the first image, else none. |
| TicketmasterMapping.DateString | src/lib/event-apis/ticketmaster.ts:69 | The start `dateTime`, or else the local date and time joined as `dateTTimeZ`. |
| TicketmasterMapping.CategoryBySegment | src/lib/event-apis/ticketmaster.ts:74-85 | FESTIVAL or CONCERT exactly for "Music", SPORTS exactly for "Sports", COMEDY or THEATER exactly for "Arts & Theatre", OTHER for every other segment. |
| TicketmasterMapping.CategoryByGenre | src/lib/event-apis/ticketmaster.ts:79-85 | Within music, FESTIVAL exactly when the lower-cased genre contains "festival". Within arts, COMEDY exactly when it contains "comedy". Without a genre, neither. |
| TicketmasterMapping.MapTicketmaster | src/lib/event-apis/ticketmaster.ts:67-100 | Each field of the record as the mapper fills it: title, id, source, verified flag, category, date, image (the one `ChooseImage` picks) and the location fallback. Venue, city and state come from the first venue. The description falls back to "Evento … no …". |
| TicketmasterMapping.MappedEventHasText | src/lib/event-apis/ticketmaster.ts:89-90 | Every mapped event has a non-empty location and description. |
| EventbriteMapping.CategoryOf | src/lib/event-apis/eventbrite.ts:63-71 | Only FESTIVAL, CONCERT or OTHER can result. |
| EventbriteMapping.CategoryTable | src/lib/event-apis/eventbrite.ts:66-71 | Both directions of the keyword table on the lower-cased name. FESTIVAL exactly when it mentions "fest" or "festival". CONCERT exactly when not and it mentions "concurso", "show" or "concerto". OTHER otherwise. |
| EventbriteMapping.FestivalTestRedundant | src/lib/event-apis/eventbrite.ts:67 | FESTIVAL exactly when the lower-cased name contains "fest"; the "festival" test adds nothing. |
| EventbriteMapping.MapEventbrite | src/lib/event-apis/eventbrite.ts:58-87 | Each field as the mapper fills it, including the location chain venue name, then address line, then the default, and the "Evento … em …" description fallback. |
| EventbriteMapping.FestivalBeforeConcert | src/lib/event-apis/eventbrite.ts:67-70 | A name mentioning both a festival and a show is a festival: the festival test comes first. |
| Text.Contains | src/lib/event-apis/eventbrite.ts:67 | `includes` holds exactly when the substring occurs at some position. |
| Text.ContainsPrefixOf | src/lib/event-apis/eventbrite.ts:67 | A string that contains a word contains every prefix of it. |
| Text.Lower | src/lib/event-apis/eventbrite.ts:66 | `toLowerCase` keeps the length and lowers each ASCII capital. |
| Text.JoinEmpty | src/app/api/payment/create-checkout/route.ts:79 | Joining non-empty parts gives "" exactly when there are no parts. |
| Ordering.SelectSorted | src/app/api/transactions/route.ts:41-67 | A `findMany` with `where` and `orderBy` returns the keys of the matching records, each exactly once, ordered by the key. |
| Ordering.SumByUpdate | src/app/api/sales/balance/route.ts:18-28 | An aggregate sum changes by exactly the change of the one record written. |
| Store.Marketplace.Purchase | src/app/api/tickets/purchase/route.ts:12-103 | The handler run on the store's tables in place. It returns the status and id of `TicketPurchase.Purchase`, leaves the store in its resulting state, and keeps it valid. |
| Store.Marketplace.HandleWebhook | src/app/api/webhooks/stripe/route.ts:11-139 | The handler run in place. Its status and new state are those of `StripeWebhook.Webhook`, and the store stays valid. |
| Store.Marketplace.CompleteTransaction | src/app/api/webhooks/stripe/route.ts:40-69 | The completion branch in place: the status and new state of `StripeWebhook.Complete`. |
| Store.Marketplace.ExpireTransaction | src/app/api/webhooks/stripe/route.ts:123-129 | The expiry branch in place. A known transaction becomes FAILED and nothing else changes. An unknown one gives 500 and no change. |
| Store.Marketplace.OpenDispute | src/app/api/disputes/route.ts:10-65 | The handler run in place. Its status, new dispute id and state are those of `Disputes.OpenDispute`, and the store stays valid. |
| Store.Marketplace.RequestPayout | src/app/api/payouts/request/route.ts:11-73 | The handler run in place. It computes the balance from the tables, and its status, payout id and state are those of `Payouts.RequestPayout`. The store stays valid. |
| Store.Marketplace.InsertPayout | src/app/api/payouts/request/route.ts:66-73 | The payout row is inserted under the next id and nothing else changes. |
| Store.Marketplace.CreateTicket | src/app/api/tickets/route.ts:57-91 | The handler run in place. Its status, ticket id and state are those of `TicketListing.CreateTicket`, and the store stays valid. |

## Left out

- Authentication is out. The identity provider's session lookup, and the resolution of that user to a database user by id or e-mail in the disputes route, are replaced by the already-resolved caller `Option<Session>`.
- Stripe is out. Signature verification (`verifyWebhookSignature`) and session creation (`createCheckoutSession`) are foreign calls. They enter as parameters: the verified event or None, and `gatewayOk`. The success and cancel URLs built from the environment are not modelled.
- Confirmation and sale e-mails sent after a completed payment are not modelled. They are sent without waiting, and the webhook's reply does not depend on them.
- `updatedAt` timestamps are not modelled. `createdAt` is a parameter (`now`), because the database assigns it.
- Money is integer cents. The source stores floats, parses prices with `parseFloat` (a non-numeric price becomes NaN) and may round; none of that is modelled.
- Catalogue.ListEvents: the database part of the events query is out. The text search over title, description and location, the date range and the initial date ordering are out, so the rows arrive already filtered. Dates are integers, so parsing date strings with `new Date` is out.
- Catalogue.ListEvents: events with equal dates keep their database order only because the sort is stable, and that stability is not proved.
- Catalogue.SortInPlace: stability is not proved. `Array.prototype.sort` is stable, and the model's insertion sort is too, but its contract states only order and permutation.
- TicketmasterMapping.MapTicketmaster: the date is the string handed to `new Date`, not a parsed instant.
- EventbriteMapping.MapEventbrite: the date is the string handed to `new Date`, not a parsed instant.
- Text.Lower: only ASCII letters are lowered, not the full Unicode case mapping.
- Provider fetching (`fetchTicketmasterEvents`, `fetchEventbriteEvents`), the event synchronisation around the mappers, and the admin dispute resolution route are not part of this model.
- An unexpected database failure inside a handler (the `catch` that answers 500) is modelled only where a write throws. The modelled cases are:
  - a foreign key to a missing user (`TicketPurchase.Purchase`, `Payouts.RequestPayout`, `TicketListing.CreateTicket`);
  - a foreign key to a missing event (`TicketListing.CreateTicket`);
  - an update of a missing ticket row (`StripeWebhook.Complete`);
  - an update of a missing transaction row, when an expiry notice names an unknown transaction (`StripeWebhook.Webhook`);
  - the unique ticket reference of a transaction, when a transaction already names the ticket (`TicketPurchase.Purchase`).
- Queries.PurchasedTickets and Queries.SoldTickets: a failed query enters as the `queryFailed` parameter.
- Concurrency is out: each handler runs as one atomic step on the store.
- Several places differ from the design the code was written against; the model follows the code:
  - a purchase marks the ticket SOLD at once, not on payment;
  - there is no same-buyer resume and no 30-minute takeover of a stale reservation;
  - "ticket SOLD iff a COMPLETED transaction exists" does not hold: a FAILED transaction keeps its ticket SOLD;
  - expiry sets FAILED whatever the prior status, so a late expiry overturns a completion (`StripeWebhook.ExpiryAfterCompletion`, `StripeWebhook.ExpiryDebitsCompletedSale`);
  - the balance can be negative (`Payouts.ExpiryAfterPayoutLeavesDebt`).
