# Weighbridge ledger — a Dafny model

This project models the backend ledger of a truck-weighbridge application.
A truck is weighed empty on arrival, which creates a pending **entry**. It is
weighed loaded on exit, which **settles** the entry: a **transaction** is
saved, and the truck's **customer** gets its balance overwritten and one more
trip counted. Transactions can be edited, which recomputes amounts, and
deleted, which reverses the settlement. A small route checks the operator
PIN.

The three document collections are maps from ids to immutable records
(`Store.State`). One creation counter, `clock`, issues every id and every
`createdAt`, so "newest by `createdAt`" is "largest id". An unsorted
`findOne` is modelled as returning the smallest matching id; the database
does not promise that order (see "Left out"). Each HTTP route is a pure function from a state
and a request to a new state and a `Result` (`NotFound`, `Conflict` or
`Invalid` stand for the 404 and 400 answers).

The model follows the code where the code and the intent differ:

- Settlement stores the caller's `netWeight`, `totalAmount` and
  `finalBalance` as given. The client's arithmetic is only an optional
  hypothesis (`TransactionRoutes.ClientArithmetic`).
- Entry creation never looks at pending entries. "One pending entry per
  truck" is therefore not an invariant; `Lifecycle.DuplicatePendingReachable`
  shows the opposite.
- The routes save one document after another and never roll back. A
  validation failure that comes after an earlier save keeps that save:
  - a settlement whose transaction is invalid keeps the customer it
    registered;
  - an edit with an unknown payment method keeps the customer balance it
    wrote.
- The declared unique indexes are not assumed to be enforced, because the
  server turns index building off. Uniqueness of truck numbers is proved as
  part of the invariant `Store.Wf`. Uniqueness of entry numbers is shown to
  fail (`Lifecycle.EntryNumberCollision`).

Modules, in dependency order:

- `Base`: ids, `Option`, `Result`, errors.
- `Text`: JavaScript `trim`, ASCII `toUpperCase`, decimal printing, `padStart`.
- `CustomerModel`, `EntryModel`, `TransactionModel`: the three schemas.
- `Store`: the state, the invariant `Wf`, the queries.
- `CustomerRoutes`, `EntryRoutes`, `TransactionRoutes`, `PinRoute`: the routes.
- `Ledger`: properties of the transaction routes.
- `Lifecycle`: properties of sequences of requests.

## Model

| member | source | states |
|---|---|---|
| CustomerModel.TruckKey | backend/models/Customer.js:9-15 | the stored truck number is upper-cased and trimmed: no lower-case letter, no whitespace at either end |
| CustomerModel.TruckKeyIdempotent | backend/models/Customer.js:9-15 | normalising a stored truck number again changes nothing |
| CustomerModel.TruckKeyOfUpper | backend/routes/customers.js:18-20 | the route's own `toUpperCase` before the lookup selects the same key as the setters alone |
| CustomerModel.TruckKeyIgnoresPadding | backend/models/Customer.js:13-14 | surrounding whitespace never distinguishes two truck numbers |
| CustomerModel.NewCustomer | backend/models/Customer.js:3-38 | a new customer is saved exactly when name, truck and contact are non-empty after trimming; strings trimmed, truck upper-cased, balance and trips 0 |
| CustomerModel.Rename | backend/routes/customers.js:35-39 | overwriting name and contact trims both, fails when either is blank, and keeps truck, balance, trips and creation time |
| CustomerModel.SetBalance | backend/routes/customers.js:69-71 | assigning a balance changes nothing else and keeps the schema's guarantees |
| EntryModel.EntryNumber | backend/routes/entries.js:77-78 | the entry number is a digit string of at least four characters |
| EntryModel.EntryNumberRoundTrip | backend/routes/entries.js:77-78 | read back as a decimal, the entry number is the count plus one |
| EntryModel.EntryNumberInjective | backend/routes/entries.js:77-78 | two counts give the same entry number exactly when they are equal |
| EntryModel.EntryNumberWidth | backend/routes/entries.js:43 | below 10000 the number has exactly four characters; from 10000 on it is the plain decimal, never cut |
| EntryModel.NewEntry | backend/models/Entry.js:3-15 | an entry is saved exactly when its required strings are non-empty; it starts pending, truck upper-cased but not trimmed |
| EntryModel.Close | backend/routes/transactions.js:81-83 | a settled entry is completed and linked to the charged customer; number, truck, contact, name, empty weight, advance, entry date and time and creation time are kept, and so is validity |
| EntryModel.Reopen | backend/routes/transactions.js:153 | a reversed entry is pending again and keeps its customer link and every other field, and so its validity |
| EntryModel.ReopenClose | backend/routes/transactions.js:81-83 | reopening a closed pending entry gives back that entry, now linked to the customer |
| TransactionModel.ParseMethod | backend/models/Transaction.js:22 | the enum accepts exactly "cash" and "bank" and refuses anything else |
| TransactionModel.MethodRoundTrip | backend/models/Transaction.js:22 | each payment method is accepted back from its stored name |
| Store.FindCustomer | backend/routes/customers.js:18-20 | the lookup finds a customer exactly when one carries the normalised truck number, and under the invariant it is the only one |
| CustomerRoutes.Find | backend/routes/customers.js:15-25 | the lookup returns a stored customer with the normalised truck number, or none when no customer has it |
| CustomerRoutes.List | backend/routes/customers.js:5-12 | the listing holds every customer exactly as stored, newest first |
| CustomerRoutes.Upsert | backend/routes/customers.js:27-54 | an existing truck gets name and contact overwritten with balance, trips and the id counter kept; an unknown truck gets a new customer under the next id with balance 0 and 0 trips; blank fields fail with no write |
| CustomerRoutes.UpsertWf | backend/routes/customers.js:30-49 | upsert never gives a second customer the same truck number |
| CustomerRoutes.UpdateProfile | backend/routes/customers.js:57-81 | an unknown id is NotFound and a missing or blank name or contact is Invalid, both with no write; no other error exists, so every other update is saved: name and contact overwritten, the balance only when given, truck and trips never changed |
| CustomerRoutes.UpdateProfileWf | backend/routes/customers.js:57-81 | a profile update keeps the invariant |
| EntryRoutes.List | backend/routes/entries.js:6-15 | the listing holds the entries whose flag matches `completed === 'true'`, or all of them without the query, newest first |
| EntryRoutes.Pending | backend/routes/entries.js:17-24 | the pending list holds exactly the entries not completed, newest first |
| EntryRoutes.FindPending | backend/routes/entries.js:27-38 | the lookup returns only a pending entry with the upper-cased truck, and none exactly when no pending entry has it |
| EntryRoutes.NextNumber | backend/routes/entries.js:40-48 | the next number reads back as the number of stored entries plus one, and has exactly four characters below 10000 and the plain decimal from 10000 on |
| EntryRoutes.Create | backend/routes/entries.js:52-98 | "new" is refused when the truck has a customer and "existing" when it has none, with no write; an accepted entry is stored pending under the next id, numbered from the current count, with the request's weights, names, entry date and time, and the customer's id or none |
| EntryRoutes.Delete | backend/routes/entries.js:99-106 | deletion succeeds whatever the entry's state, even for an absent id, and removes only that entry |
| TransactionRoutes.BuildTransaction | backend/routes/transactions.js:48-72 | the transaction copies the entry's snapshot fields, stores the caller's amounts as given, applies the schema defaults, and fails exactly when a required value is missing or the method is unknown |
| TransactionRoutes.Resolve | backend/routes/transactions.js:31-45 | the entry's truck resolves to its registered customer, or to a new customer from the entry's name and contact with balance 0 and 0 trips |
| TransactionRoutes.Settle | backend/routes/transactions.js:22-89 | an unknown entry is NotFound with no write; a stored entry, completed or not, settles exactly when the request is complete, the entry's snapshot is complete and the customer resolves; a failure writes nothing except a customer it has just registered; a success saves the built transaction, closes the entry, and leaves the customer with the transaction's final balance |
| TransactionRoutes.Charge | backend/routes/transactions.js:75-78 | the charged customer has the final balance and one more trip, with name, truck, contact and creation time kept |
| TransactionRoutes.Record | backend/routes/transactions.js:47-83 | after the customer is resolved, the settlement succeeds exactly when the transaction builds; a failed save keeps a newly registered customer; a success writes transaction, customer and entry |
| TransactionRoutes.Recompute | backend/routes/transactions.js:101-135 | a nonzero loaded weight resets the net weight from the stored empty weight; a nonzero weight or rate resets the total; only a given `paidNow` resets the final balance; nothing else changes, so the schema's validity is kept |
| TransactionRoutes.Rebalance | backend/routes/transactions.js:126-129 | the edited customer's balance is overwritten and its trip count kept |
| TransactionRoutes.Edit | backend/routes/transactions.js:92-146 | an unknown id is NotFound; an unknown method is Invalid after the customer write; there is no other error, and otherwise the transaction is replaced by its recomputation, the customer is written only when `paidNow` is given and the customer exists |
| TransactionRoutes.LatestBalance | backend/routes/transactions.js:159-165 | the restored balance is the newest other transaction's final balance, or 0 when the customer has no other transaction |
| TransactionRoutes.Uncharge | backend/routes/transactions.js:157-166 | the reversed customer has one trip fewer, never below 0, and the given balance |
| TransactionRoutes.Delete | backend/routes/transactions.js:148-175 | an unknown id is NotFound with no write; a stored id always succeeds: the entry is reopened if present, the customer uncharged if present, and the transaction removed |
| TransactionRoutes.SortByExit | backend/routes/transactions.js:15 | the sorted sequence is a permutation in descending exit date |
| TransactionRoutes.List | backend/routes/transactions.js:7-20 | the listing holds each transaction matching the date range and customer exactly once, by exit date, newest first |
| Ledger.SettleSaves | backend/routes/transactions.js:48-72 | a settlement saves one transaction for the entry under a fresh id |
| Ledger.SettleReusesCustomer | backend/routes/transactions.js:31-45 | a registered truck is charged to its customer: final balance, one more trip, no customer created |
| Ledger.SettleCreatesCustomer | backend/routes/transactions.js:35-45 | an unregistered truck gets a customer under the next id from the entry's name and contact, ending with the final balance and one trip |
| Ledger.SettleFailureKeepsNewCustomer | backend/routes/transactions.js:35-72 | a settlement whose transaction is invalid still leaves the customer it registered, with balance 0 |
| Ledger.SettleSucceeds | backend/routes/transactions.js:22-89 | under the invariant a stored entry, completed or not, settles exactly when the request carries every value the transaction schema requires and the truck's customer is registered or can be registered from the entry |
| Ledger.SettleWf | backend/routes/transactions.js:22-89 | settlement keeps the invariant: one customer per truck, trip counts non-negative |
| Ledger.SettleEffects | backend/routes/transactions.js:72-83 | a settlement adds the transaction, closes the entry, and raises the customer's trip count by one |
| Ledger.SettleBalanceIsLatest | backend/routes/transactions.js:72-78 | after a settlement the transaction is its customer's newest and the balance equals its final balance |
| Ledger.SettleConsistent | backend/routes/transactions.js:56-63 | a client that did its arithmetic gets a consistent stored transaction |
| Ledger.EditWithPaymentStaysConsistent | backend/routes/transactions.js:101-121 | an edit that gives `paidNow` keeps a consistent transaction consistent |
| Ledger.EditWithoutPaymentGoesStale | backend/routes/transactions.js:101-121 | an edit of the weight alone, without `paidNow`, recomputes the total but leaves the final balance stale |
| Ledger.EditWf | backend/routes/transactions.js:116-131 | editing keeps the invariant |
| Ledger.DeleteWf | backend/routes/transactions.js:155-168 | reversal keeps the invariant; trip counts never go below 0 |
| Lifecycle.CreateSucceeds | backend/routes/entries.js:52-98 | a request the gate accepts with all fields stores one more pending entry under the next id |
| Lifecycle.DuplicatePendingReachable | backend/routes/entries.js:52-98 | the same request accepted twice leaves two pending entries for one truck |
| Lifecycle.EntryNumberCollision | backend/routes/entries.js:77-78 | create two entries, delete the first, create a third: the third carries the second's number and the declared unique index is broken |
| Lifecycle.DeleteKeepsGate | backend/routes/entries.js:99-106 | deleting an entry removes one stored entry and leaves the customer-type gate unchanged |
| Lifecycle.ResettleCompletedEntry | backend/routes/transactions.js:25-28 | a completed entry is not refused: a complete second request succeeds, charges the same customer, and counts a second trip |
| Lifecycle.ResettleDuplicatesTransaction | backend/routes/transactions.js:48-72 | settling the same entry twice with complete requests succeeds both times and stores two transactions for it |
| Lifecycle.SettleThenDelete | backend/routes/transactions.js:153-170 | settle then delete restores the transactions and leaves the entry pending, linked to the customer |
| Lifecycle.SettleThenDeleteCustomer | backend/routes/transactions.js:155-168 | settle then delete restores the trip count and sets the balance from the customer's newest earlier transaction, or 0 |
| Lifecycle.LatestBalanceIgnoresReversed | backend/routes/transactions.js:160-163 | the restored balance depends only on the transactions other than the reversed one |
| Lifecycle.SharedContactReachable | backend/models/Customer.js:16-21 | two trucks registered with one contact number both succeed and share it |
| PinRoute.ExpectedPin | backend/routes/pin.js:16 | an unset configured PIN reads as the text "undefined" |
| PinRoute.VerifyPin | backend/routes/pin.js:4-28 | an absent or empty PIN is refused before comparing; otherwise it is accepted exactly when the trimmed strings are equal |
| PinRoute.PaddingIrrelevant | backend/routes/pin.js:15-16 | whitespace around a non-empty submission, or around the configured PIN, never changes the verdict |
| PinRoute.AcceptsPadded | backend/routes/pin.js:15-21 | a submission accepted as it is stays accepted when padded |
| PinRoute.UnsetPinAcceptsUndefined | backend/routes/pin.js:16 | with no PIN configured, the submission "undefined" is accepted |
| PinRoute.BlankPinMatchesBlankConfig | backend/routes/pin.js:10-21 | a whitespace-only PIN passes the emptiness check and matches a blank configured PIN |

## Left out

- Express wiring, HTTP status codes and logging. The routes answer with `NotFound`, `Conflict` or `Invalid`, and the PIN route answers with a three-way verdict.
- The PIN route is not mounted by the server, although the frontend calls it. The model checks the route by itself.
- Persistence failures: database errors, lost connections, and a process stopping between two saves. Only deterministic validation failures between saves are modelled.
- JavaScript coercion and floating point: `parseFloat`, string bodies, `NaN`. Weights and money are integers.
- Number fields that the schema requires are plain integers or options. A settlement without one of them is refused; an entry always has them.
- Dates are integers. Date parsing, time zones and `Date.now` are left out; the creation counter supplies timestamps.
- The date filter of GET /transactions applies only when both ends are given, as in the source. The parsing of the two ends is not modelled.
- `populate('customerId', 'name balance')` in GET /transactions: the model returns the stored customer id.
- Case mapping beyond ASCII: `toUpperCase` maps only `a`-`z`. `trim` uses the full ECMAScript whitespace set.
- Mongoose is assumed to apply the `uppercase` and `trim` setters to query values as well as to saved documents. Truck lookups therefore compare normalised keys.
- A missing `truckNumber` in POST /customers or POST /entries, where the source throws on `undefined.toUpperCase()` and answers 400. Requests carry strings.
- A missing `truckNumber` in GET /customers/find or GET /entries/find, where `truckNumber?.toUpperCase()` queries with `undefined` instead of throwing. Queries carry strings.
- The `balanceDiff` computed by the edit route is never used, and the model omits it.
- TransactionRoutes.SortByExit: the order among transactions with equal exit dates is not fixed by the source; the model's sort is insertion order, and only the descending order and the permutation are stated.
- TransactionRoutes.Recompute: the model does not re-run the schema's required validators when an edit is saved, as Mongoose's `save()` does. This is a simplification, not a gap: `Store.Wf` proves every stored transaction valid, and an edit changes none of the validated strings, so only the payment-method enum can fail, and that is modelled.
- Requests are atomic and handled one at a time. The routes wait on the database between a lookup and the save that depends on it, so two concurrent settlements or upserts for the same unregistered truck could each create a customer. The truck-number uniqueness in `Store.Wf` is proved for sequential requests only.
- EntryRoutes.FindPending: when several pending entries share a truck, which is reachable, an unsorted `findOne` returns whichever the database's natural order gives first, and MongoDB does not promise insertion order. The model returns the oldest. Only "a pending entry with that truck, and none exactly when there is none" is the source's promise.
- Index building, `backend/fix-indexes.js`, the server setup and the frontend are not part of this model.
