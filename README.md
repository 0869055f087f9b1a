# delivery-api order engine, repositories and guards in Dafny

This project models the core of a food-delivery backend written in
JavaScript (Express, PostgreSQL, BullMQ) and proves properties of the model.
It covers:

- **Order creation.** The HTTP handler and the background worker validate a
  request, price it from stored menu prices, and write the order, its line
  items and (for the worker) an idempotency entry. Each path is modelled
  as one transaction that commits or rolls back as a whole.
- **The order status machine.** Accept, prepared, sent, delivered, paid and
  cancel, with the per-role route table in front of them.
- **The repositories.** Orders, branches and menus, and users, over an
  abstract relational store. This includes the SQL parameter builders: the
  `$n` placeholders, the whitelisted `SET` lists and the `LIMIT`/`OFFSET`
  indices.
- **Small decision functions.** Token extraction and role checks in the auth
  middleware, the error-to-response classification, and the existence and
  ownership guards of the branch and restaurant handlers.
- **The JWT module's base64url layer.** This is the alphabet swap and padding
  removal of section 5 of RFC 4648, and its reversal. It also covers the
  shape, signature and expiry checks of `verifyJwt`.
- **The legacy in-memory auth controller.** Its `users` array keeps unique
  emails and ids 1..n.

## How the model is built

- **The store.** The database is `Entities.Db`, a value holding one `Table`
  per relation. A `Table` is a map from serial id to row, plus the next
  serial id. The live database is the one field of `class Store`.
- **Reads and writes.** A read is a function on `Db`. A write has two parts:
  - an effect function `(result, new Db)` that carries the contract;
  - a method with `modifies s` that must produce exactly that effect.

  The lemmas are stated about the effect functions.
- **Transactions.** A transaction computes the new state, then either
  commits it or keeps the state from `BEGIN`. A statement the store can
  reject for reasons outside the model is a `fault` parameter, so rollback
  is visible in the contracts.
- **Builders and scans.** Loops in the source remain loops, proved against
  a function. These are the placeholder and parameter builders, the
  `menuById` index, the availability check, the price accumulation, the
  grouping of items by menu, the re-padding loop of `base64UrlDecode` and
  the `find` scan.
- **Parameters.**
  - The clock is `now` in milliseconds.
  - Random values are inputs: the generated public id and the refresh token.
  - Money is an integer number of cents.
  - HMAC-SHA256, Buffer's base64, `JSON.stringify`/`JSON.parse` and
    JavaScript's text-to-number conversion are fields of `Jwt.Primitives`.
    `Jwt.Base64Laws` states what Buffer and the HMAC are assumed to
    satisfy. `Jwt.JsonLaw` states that JSON text carries back every value
    whose numbers are safe integers. The real `Buffer` and `JSON` satisfy both.
  - bcrypt's hash and compare are parameters.
- **Errors.** A thrown error is `Common.Thrown`. Its fields are the Zod flag,
  the driver `code`, `statusCode`, the kind (`validation`, `authorization`,
  `state`) and the message. `NotFoundError` is 404. `AppError` defaults to 400.
- **Store error codes.** The store answers with PostgreSQL codes:
  - `23505`: unique violation;
  - `23503`: foreign-key violation;
  - `22P02`: a value of the wrong type;
  - `42703`: an unknown column;
  - `42601`: an empty `SET` list.
- **Placeholders.** The model does not generate SQL text. A placeholder
  tuple is the list of its `$n` indices and a `SET` entry is
  `Assignment(column, n)`. `Sql.DecodeTuples` and `Sql.DecodeAssignments`
  resolve them against the parameter list. The builders are proved to bind
  every column to its own value.

Where the design description and the code disagree, the model follows the
code:

- Order creation starts at `preparing`, so `pending` is never reached.
- A customer may cancel any pending order; the customer is not checked
  against the order's `customer_id`.
- `sent` (`on_the_way` to `on_the_way`) and `paid` (`delivered` to
  `delivered`) are self-loops, so re-applying them succeeds.
- The HTTP `createOrder` answers synchronously with `{ order, items }`. It
  does not return `202` with a public id.
- The error handler matches MySQL codes (`ER_DUP_ENTRY`,
  `ER_NO_REFERENCED_ROW`). The PostgreSQL codes the store produces never
  match them, so those errors keep the driver's message
  (`ErrorHandler.PostgresCodesKeepMessage`).

Two defects are modelled by the evident intent rather than as written:

- `getOrderById` is called with the public id everywhere. The model looks
  orders up by public id, and the status and timestamp update is addressed
  the same way.
- `queue.js` throws `NotFoundError`/`AppError` without importing them. It
  calls `createOrder` with positional arguments although the repository
  takes one object. The model gives the worker the errors and the insert it
  evidently means.

## Model

| member | source | states |
|---|---|---|
| OrderPricing.ReadyIntervalIgnoresQuantities | src/modules/order/order.controller.js:7-11 | the ready interval is the branch's average wait (0 when absent) plus 2 minutes per request line; two requests with as many lines get the same interval whatever their quantities |
| OrderPricing.RequestedIds | src/modules/order/order.controller.js:33 | one id per request line, the line's `menu_item_id`, in request order |
| OrderPricing.IndexById | src/modules/order/order.controller.js:40-41 | the loop filling `menuById` produces the index `ById` describes |
| OrderPricing.ByIdSpec | src/modules/order/order.controller.js:40-41 | for rows with increasing ids the index holds exactly the fetched ids, each mapped to its own row |
| OrderPricing.CheckAvailable | src/modules/order/order.controller.js:42-45 | the check passes iff every requested id is in the index and marked available |
| OrderPricing.CheckItems | src/modules/order/order.controller.js:42-45 | the availability loop returns what `CheckAvailable` specifies |
| OrderPricing.UnavailableIsValidation | src/modules/order/order.controller.js:44 | a failed availability check is a 400 validation error |
| OrderPricing.PriceLines | src/modules/order/order.controller.js:49-55 | one priced line per request line, with its id, its quantity and the stored price of that item |
| OrderPricing.PriceItems | src/modules/order/order.controller.js:48-55 | the mapping loop returns exactly `PriceLines` and the accumulated `total` equals the sum of price × quantity over them |
| OrderPricing.ValidateAndPrice | src/modules/order/order.controller.js:29-58 | the whole validation and pricing sequence run on the store gives `PriceSpec` of the current state |
| OrderPricing.PriceSpec | src/modules/order/order.controller.js:29-58 | a missing branch is 404 "Branch not found"; a priced request has the resolved branch, one priced line per request line and the total of those lines |
| OrderPricing.DistinctCard | src/modules/order/order.controller.js:35 | a list of ids has as many distinct values as entries iff no id repeats |
| OrderPricing.LookupComplete | src/modules/order/order.controller.js:34-37 | when the fetched count equals the requested count, the requested ids are pairwise distinct, all stored, and indexed to their stored rows |
| OrderPricing.LookupCount | src/modules/order/order.repository.js:44-50 | distinct stored ids fetch exactly as many rows as requested |
| OrderPricing.PriceSucceeds | src/modules/order/order.controller.js:29-45 | pricing succeeds iff the branch resolves, no `menu_item_id` repeats, and every requested item is stored and available; a repeated id is therefore refused |
| OrderPricing.TotalOfStoredPrices | src/modules/order/order.controller.js:48-55 | the total of the priced lines is the sum of stored price × quantity over the request |
| OrderPricing.PriceSnapshot | src/modules/order/order.controller.js:48-58 | on success every line carries the stored price snapshot, the total is the stored total and the interval is average wait + 2 × lines |
| OrderPricing.UnavailableFails | src/modules/order/order.controller.js:42-45 | an unavailable requested item makes pricing fail; past the branch and count checks the failure is 400 validation |
| OrderSchema.ParseItem | src/modules/order/order.schema.js:3-6 | an item parses iff `menu_item_id` and `quantity` are safe integers (zod 4's `.int()`) and `quantity` ≥ 1; the result holds those numbers; otherwise a Zod error |
| OrderSchema.ParseItems | src/modules/order/order.schema.js:3-6 | a list parses iff every element conforms, element by element in order |
| OrderSchema.ParseCreateOrder | src/modules/order/order.schema.js:8-12 | the body parses iff a safe-integer `branch_id`, a `delivery_address` of at least 5 UTF-16 code units and a non-empty conforming `items`; the result is well formed and copies those fields; otherwise a Zod error |
| OrderSchema.ParseRequestJson | src/modules/order/order.schema.js:8-12 | a well-formed request written as JSON parses back to itself |
| OrderSchema.UnknownKeysStripped | src/modules/order/order.schema.js:8-12 | keys outside the schema do not change the parse |
| OrderSchema.AstralAddressLength | src/modules/order/order.schema.js:10 | `.min(5)` counts UTF-16 units: three characters beyond the Basic Multilingual Plane are six units |
| OrderSchema.UnsafeBranchRejected | src/modules/order/order.schema.js:9 | a `branch_id` of 2^53 is not a safe integer and is refused with a Zod error |
| OrderSchema.ParsePatchAction | src/modules/order/order.schema.js:15-18 | a PATCH body is accepted iff it is an object whose `reason`, when present, is a string; the result is that reason or none |
| OrderRepository.GetIdempotency | src/modules/order/order.repository.js:13-20 | an empty key gives null; otherwise a record iff the key is stored, with its stored response and order id |
| OrderRepository.Upsert | src/modules/order/order.repository.js:22-29 | an empty key changes nothing; otherwise the key maps to the new record (overwriting) and nothing else changes |
| OrderRepository.SaveIdempotency | src/modules/order/order.repository.js:22-29 | the store afterwards is the upsert of the record |
| OrderRepository.SaveThenGet | src/modules/order/order.repository.js:13-29 | after a save, reading the key returns the saved response and order id; other keys read as before |
| OrderRepository.LastWriterWins | src/modules/order/order.repository.js:22-29 | two saves under one key leave the second |
| OrderRepository.UpsertValid | src/modules/order/order.repository.js:22-29 | the upsert keeps the store invariant |
| OrderRepository.GetBranchInfo | src/modules/order/order.repository.js:32-41 | a result iff the branch and its restaurant exist; `owner_id` is that restaurant's `user_id` and the average wait is the branch's |
| OrderRepository.MenuItemsByIds | src/modules/order/order.repository.js:44-50 | exactly the stored items whose id is listed, each once, in id order; their number is the number of listed stored ids |
| OrderRepository.OrderRow | src/modules/order/order.controller.js:65-78 | the inserted row carries the given fields, is unpaid, has `created_at` and `accepted_at` = now and no other timestamp |
| OrderRepository.InsertOrder | src/modules/order/order.controller.js:65-78 | fails with a unique violation iff the public id is taken; otherwise the row is added under the next serial id and nothing else changes |
| OrderRepository.CreateOrder | src/modules/order/order.repository.js:52-60 | the store and result are those of `InsertOrder`; on failure the store is unchanged |
| OrderRepository.LineRows | src/modules/order/order.repository.js:64-67 | one value row per line, `(menu_item_id, quantity, unit_price, order_id)` |
| OrderRepository.BuildOrderItemsInsert | src/modules/order/order.repository.js:62-78 | item i gets placeholders `$4i+1..$4i+4`; the parameters are the 4n row values in order; resolving the placeholders gives each line's own row |
| OrderRepository.ItemsBindLines | src/modules/order/order.repository.js:65-76 | the row the statement binds for line i holds the columns of the i-th created item |
| OrderRepository.InsertItems | src/modules/order/order.repository.js:62-78 | n new rows with consecutive fresh ids, linked to the order, with the lines' values; existing rows kept |
| OrderRepository.InsertOrderItems | src/modules/order/order.repository.js:62-78 | an empty list returns [] and writes nothing; a foreign-key error iff the order is missing; otherwise the rows of `InsertItems` and only the item table changes |
| OrderRepository.SelectInsertItems | src/modules/order/order.repository.js:62-78 | selecting after the insert gives the old selection followed by the new rows |
| OrderRepository.CreateOrderItems | src/modules/order/order.repository.js:62-78 | the method's store and result are those of `InsertOrderItems`; on error the store is unchanged |
| OrderRepository.GetOrderById | src/modules/order/order.repository.js:80-97 | null iff the lookup finds no order; otherwise the stored order found, which carries the requested public id |
| OrderRepository.GetOrderByIdSpec | src/modules/order/order.repository.js:80-97 | null iff no stored order has the public id; otherwise the items are exactly the stored items whose `order_id` is the order's id |
| OrderRepository.BuildListOrders | src/modules/order/order.repository.js:99-118 | a customer condition then a branch condition, each only when truthy, numbered `$1..`; parameters are their values then limit and offset, bound at the next two indices |
| OrderRepository.ListOrders | src/modules/order/order.repository.js:112-116 | the store refuses a negative limit or offset; otherwise at most `limit` rows |
| OrderRepository.ListOrdersAt | src/modules/order/order.repository.js:112-116 | row i is the summary of the (offset + i)-th newest matching order |
| OrderRepository.ListOrdersSound | src/modules/order/order.repository.js:99-118 | every listed row summarises a stored order that matches the filters |
| OrderRepository.ListOrdersNewestFirst | src/modules/order/order.repository.js:112-116 | rows are listed newest first |
| OrderRepository.ListOrdersComplete | src/modules/order/order.repository.js:99-118 | with offset 0 and enough limit every matching order is listed |
| OrderRepository.ApplyFields | src/modules/order/order.repository.js:120-137 | setting fields never touches the id, public id, customer, branch, address, total, creation time or ready time |
| OrderRepository.ApplyFieldsStatus | src/modules/order/order.repository.js:125-129 | a listed status is the new status; without one the status is kept |
| OrderRepository.ApplyFieldsPaid | src/modules/order/order.repository.js:125-129 | a listed `paid` is the new flag; without one the flag is kept |
| OrderRepository.ApplyFieldsStamps | src/modules/order/order.repository.js:125-129 | a listed timestamp column gets its value; unlisted timestamp columns are kept |
| OrderRepository.FieldPairs | src/modules/order/order.repository.js:125-129 | one `(column, value)` per field in order |
| OrderRepository.BuildOrderUpdate | src/modules/order/order.repository.js:120-137 | field i is `column = $i`, the order is bound at `$(n+1)`, and resolving the statement gives each column its own value |
| OrderRepository.NumberFields | src/modules/order/order.repository.js:124-129 | the loop turns field i into `column = $(i+1)` and its value into the i-th parameter |
| OrderRepository.UpdateEffect | src/modules/order/order.repository.js:120-137 | no fields returns null and writes nothing; an unknown order returns null; otherwise only that order changes, by exactly the listed fields |
| OrderRepository.UpdateOrderTimestampsAndStatus | src/modules/order/order.repository.js:120-137 | the method's store and result are those of `UpdateEffect` |
| OrderWrite.NewOrderFor | src/modules/order/queue.js:60-72 | the new order is `preparing`, for the given customer and public id, with the request's branch and address, the priced total, and ready at now + interval |
| OrderWrite.WriteOrderSteps | src/modules/order/queue.js:63-84 | a committed write is the order insert, then the item insert under the new id, then the idempotency upsert |
| OrderWrite.WriteOrder | src/modules/order/queue.js:63-84 | a committed write keeps the store invariant |
| OrderWrite.WriteOrderOk | src/modules/order/queue.js:63-84 | a committed write adds exactly the order row and one item per line linked to it; only orders, order items and (with a key) the one idempotency entry change |
| OrderWrite.WriteOrderRow | src/modules/order/queue.js:63-72 | the written order is the row built from the request at the next serial id |
| OrderWrite.WriteOrderReadBack | src/modules/order/queue.js:63-86 | after a committed write, reading the public id returns that order with exactly the created items |
| OrderWrite.ItemsOfNewOrder | src/modules/order/order.repository.js:62-97 | for a fresh order id, the stored items of the order are exactly the inserted ones, in order |
| OrderWrite.WriteOrderFails | src/modules/order/queue.js:84-89 | a taken public id or a refused commit fails the write; every failure carries a non-empty store error code |
| OrderWrite.RunWrite | src/modules/order/queue.js:26-89 | the transaction method commits the write's state on success and restores the state at BEGIN on failure |
| OrderWrite.PlaceOrder | src/modules/order/queue.js:26-89 | validate, price and write; a failure leaves the store as it was |
| OrderWrite.PlaceOrderRejects | src/modules/order/queue.js:31-47 | a missing branch is 404 "Branch not found"; a repeated id, an unknown item, an unavailable item or a taken public id fail; none of them writes anything |
| OrderWrite.PlaceOrderOk | src/modules/order/queue.js:63-72 | the new order belongs to the customer, has the job's public id, branch and address, is `preparing`, unpaid, created and accepted now, with no other timestamp |
| OrderWrite.PlaceOrderPrice | src/modules/order/queue.js:50-60 | on success the total is Σ stored price × quantity and the ready time is now + (average wait or 0) + 2 × lines minutes |
| OrderWrite.PlaceOrderItems | src/modules/order/queue.js:51-75 | one created item per request line, linked to the new order, with the line's id and quantity and the stored price; reading the order back returns them |
| OrderWrite.PlaceOrderFootprint | src/modules/order/queue.js:63-84 | users, restaurants, branches, menus and menu items are untouched; one order is added; the idempotency entry is written iff a key is given |
| OrderWrite.PlaceOrderTx | src/modules/order/queue.js:26-89 | the method's store and result are those of `PlaceOrder` |
| OrderController.CreateOrderOutcome | src/modules/order/order.controller.js:14-96 | a failure leaves the store as it was (ROLLBACK) and the store invariant holds |
| OrderController.CreateOrder | src/modules/order/order.controller.js:14-96 | the handler's store and result are those of `CreateOrderOutcome` |
| OrderController.CreateOrderRejects | src/modules/order/order.controller.js:17-37 | a body outside the schema is a Zod error, a missing branch is 404 "Branch not found", a taken public id fails; none writes anything |
| OrderController.CreateOrderOk | src/modules/order/order.controller.js:48-91 | a created order is the caller's, `preparing`, on the requested branch, with the stored total and one item per line, readable back; no idempotency entry is written |
| OrderController.GetOrder | src/modules/order/order.controller.js:99-121 | 404 for an unknown order; a customer sees exactly their own orders (403 otherwise); an owner gets 404 without a branch, 403 if not its owner, and the order iff they own the branch; admin (and any other role) always sees it |
| OrderController.QueryFilters | src/modules/order/order.controller.js:126-131 | the query's filters are kept; limit defaults to 50 and offset to 0 |
| OrderController.ListOrdersFor | src/modules/order/order.controller.js:124-153 | a customer's customer filter is forced to their id; an owner without `branch_id` is refused, gets 404 for a missing branch and 403 for another owner's branch; admin lists with the given filters |
| OrderController.ListOrdersScope | src/modules/order/order.controller.js:134-148 | a listing a customer gets holds only their orders; an owner's listing is of one branch they own; without a limit at most 50 rows |
| OrderController.ChangeStatus | src/modules/order/order.controller.js:159-183 | a refused transition writes nothing and the store invariant holds |
| OrderController.StatusRejected | src/modules/order/order.controller.js:174-176 | an order the actor may move whose status is not a source of the transition is refused as an invalid transition from the status it has |
| OrderController.ChangeStatusChecks | src/modules/order/order.controller.js:159-176 | 404 for an unknown order, then for an owner 404 without a branch and 403 for a non-owner whatever the status; past those, 400 "Invalid transition" iff the status is not a from-state, success iff it is |
| OrderController.ChangeStatusOk | src/modules/order/order.controller.js:174-182 | success means the order was in a from-state and an owner owns the branch; only `status` (to the target) and the one timestamp column (to now) change |
| OrderController.ReadAfterTransition | src/modules/order/order.controller.js:159-183 | after success the order reads back with the new row and target status, under the same branch owner |
| OrderController.ReapplyFails | src/modules/order/order.controller.js:186-253 | a transition whose target is not one of its source statuses (accept, prepared, delivered) applied again is refused as an invalid transition |
| OrderController.ReapplySelfLoop | src/modules/order/order.controller.js:222-274 | a transition whose target is one of its source statuses (sent, paid) applied again succeeds |
| OrderController.ChangeStatusIfAllowed | src/modules/order/order.controller.js:159-183 | the method's store and result are those of `ChangeStatus` |
| OrderController.AcceptOrder | src/modules/order/order.controller.js:186-202 | `pending` to `preparing`, stamping `accepted_at` |
| OrderController.MarkPrepared | src/modules/order/order.controller.js:205-219 | `preparing` to `on_the_way`, stamping `prepared_at` |
| OrderController.MarkSent | src/modules/order/order.controller.js:222-236 | `preparing` or `on_the_way` to `on_the_way`, stamping `sent_at` |
| OrderController.MarkDelivered | src/modules/order/order.controller.js:239-253 | `on_the_way` to `delivered`, stamping `delivered_at` |
| OrderController.MarkPaidOutcome | src/modules/order/order.controller.js:256-274 | a refused payment writes nothing and the store invariant holds |
| OrderController.MarkPaidUnfold | src/modules/order/order.controller.js:260-270 | a payment is the guarded transition, then the second update of `paid` and `paid_at`, then the read by id |
| OrderController.PaidUpdate | src/modules/order/order.controller.js:268 | the second update sets `paid` and `paid_at` and keeps the status |
| OrderController.MarkPaidOk | src/modules/order/order.controller.js:256-274 | payment succeeds only on a delivered order; the result is that order, still delivered, paid, with `paid_at` = now |
| OrderController.MarkPaid | src/modules/order/order.controller.js:256-274 | the method's store and result are those of `MarkPaidOutcome` |
| OrderController.CancelOutcome | src/modules/order/order.controller.js:277-312 | a refused cancel writes nothing and the store invariant holds |
| OrderController.CancelAllowed | src/modules/order/order.controller.js:277-312 | 404 for an unknown order; otherwise a cancel succeeds iff the caller is a customer and the order is pending (not checked against the customer), an owner of its branch and it is pending or preparing, or an admin |
| OrderController.CancelUnfold | src/modules/order/order.controller.js:289-305 | every successful cancel is the same update of `status` and `cancelled_at` |
| OrderController.CancelOk | src/modules/order/order.controller.js:289-305 | a cancelled order has status `cancelled` and `cancelled_at` = now; its other timestamps, paid flag, customer and total are kept; only that order changes |
| OrderController.CancelOrder | src/modules/order/order.controller.js:277-312 | the method's store and result are those of `CancelOutcome` |
| OrderQueue.JobOutcome | src/modules/order/queue.js:22-93 | a failed job leaves the store as it was and the store invariant holds |
| OrderQueue.ProcessJob | src/modules/order/queue.js:22-93 | the worker's store and result are those of `JobOutcome` |
| OrderQueue.JobRejects | src/modules/order/queue.js:31-47 | a missing branch is 404 "Branch not found"; an unknown or unavailable item or a refused commit fails; none persists anything |
| OrderQueue.JobLedger | src/modules/order/queue.js:78-82 | with a key, the entry returns the order without its serial id plus the items, for the new order's id; without a key the ledger is untouched |
| OrderQueue.JobCreates | src/modules/order/queue.js:63-75 | the order has the job's user and public id, is `preparing` with the stored total, and reads back with its items |
| OrderQueue.JobReplayFails | src/modules/order/queue.js:63-72 | replaying a completed job fails and changes nothing, since its public id is taken |
| OrderRoutes.Admit | src/modules/order/order.routes.js:18-30 | an authentication failure is passed on unchanged; an admitted request carries the verified user |
| OrderRoutes.RequiredRoles | src/modules/order/order.routes.js:18-30 | every role list is non-empty and names known roles; `customer` is listed only on order creation |
| OrderRoutes.AdmitExactly | src/modules/order/order.routes.js:18-30 | a request is admitted iff the token authenticates and the endpoint has no role list or the caller's role is in it |
| OrderRoutes.OnlyCustomersCreate | src/modules/order/order.routes.js:18 | only a customer can reach order creation |
| OrderRoutes.TransitionRoles | src/modules/order/order.routes.js:25-29 | prepared, sent, delivered and paid admit only restaurant owners, so an admin is refused 403; accept admits an admin |
| OrderRoutes.AuthenticationOnly | src/modules/order/order.routes.js:21-30 | list, get and cancel require authentication only |
| AuthMiddleware.ExtractToken | src/middlewares/authMiddleware.js:7-10 | a token iff the header has a non-empty second space-separated word; the token is that word |
| AuthMiddleware.TokenIsSecondWord | src/middlewares/authMiddleware.js:8 | whatever the first word (`Bearer:` included), the token is the second word |
| AuthMiddleware.OneWordHasNoToken | src/middlewares/authMiddleware.js:8-10 | a one-word header has no token |
| AuthMiddleware.AuthenticateToken | src/middlewares/authMiddleware.js:6-17 | 401 "Access token missing" without a token; an exception of the verifier passes through; 403 "Invalid or expired token" iff verification returns nothing or a falsy payload; a pass carries exactly the verified payload |
| AuthMiddleware.AuthorizeRoles | src/middlewares/authMiddleware.js:20-28 | 401 without a user; passes iff the user's role is in the allowed list; otherwise 403 "Forbidden: insufficient permissions" |
| AuthMiddleware.RoleOf | src/middlewares/authMiddleware.js:15 | the role read from the payload is known iff its text is one of the three role names |
| AuthMiddleware.PrincipalOf | src/middlewares/authMiddleware.js:15 | the caller's id is the payload's integer `user_id` and its role is `RoleOf` |
| AuthMiddleware.AuthenticatesVerified | src/middlewares/authMiddleware.js:6-17 | a header whose second word verifies passes with that payload |
| AuthMiddleware.IssuedTokenAuthenticates | src/middlewares/authMiddleware.js:6-17 | under the base64 and JSON laws, an access token from `createTokens` for a safe-integer user id, sent within its hour, authenticates as that user id and role |
| AuthMiddleware.ClaimsRead | src/utils/jwt.js:60-64 | the access claims read back as the user id and role they were made from |
| AuthMiddleware.NoSpace | src/utils/jwt.js:21-38 | whenever Buffer's base64 and the HMAC give standard base64, a signed token contains no space and is non-empty, so it survives the header split |
| ErrorHandler.DatabaseMessage | src/middlewares/errorHandler.js:19-31 | `ER_DUP_ENTRY` gives "Duplicate entry", `ER_NO_REFERENCED_ROW(_2)` give "Foreign key constraint failed", any other code keeps its message |
| ErrorHandler.Handle | src/middlewares/errorHandler.js:4-54 | the handler answers with 400, the error's own status or 500; the validation body iff a Zod error; an internal body always carries "INTERNAL_ERROR" |
| ErrorHandler.Branches | src/middlewares/errorHandler.js:9-53 | validation body iff a Zod error; database body (400) iff not Zod and a code; status body with `statusCode` iff neither and a status; internal iff none |
| ErrorHandler.StatusCases | src/middlewares/errorHandler.js:41-53 | the status is 400, the error's own or 500; the internal body arises only without a code and a status and always carries "INTERNAL_ERROR" |
| ErrorHandler.Precedence | src/middlewares/errorHandler.js:9-38 | a Zod error wins over a code, and a code wins over a status |
| ErrorHandler.HandlerErrors | src/middlewares/errorHandler.js:9-53 | the responses for the errors the handlers throw: not found 404, forbidden 403, app errors with their status, Zod 400, store errors 400 database, a plain exception 500 |
| ErrorHandler.PostgresCodesKeepMessage | src/middlewares/errorHandler.js:23-31 | the store's unique and foreign-key codes keep the driver's message |
| Jwt.Replace | src/utils/jwt.js:6-7 | each occurrence of one character is replaced, everything else kept in place |
| Jwt.RemoveAll | src/utils/jwt.js:5 | the result has no occurrence of the character and every other character comes from the input |
| Jwt.UrlEncodeText | src/utils/jwt.js:2-9 | the output contains no `=`, `+` or `/` |
| Jwt.Padded | src/utils/jwt.js:13 | the input followed by 0 to 3 `=`, to a multiple of 4; a multiple of 4 is unchanged |
| Jwt.Repad | src/utils/jwt.js:13 | the `while` loop appending `=` produces `Padded` |
| Jwt.StandardRoundTrip | src/utils/jwt.js:2-15 | the alphabet swap and re-padding undo the encoding on any standard base64 text |
| Jwt.BodyRoundTrip | src/utils/jwt.js:2-15 | the same round trip for a body over the base64 alphabet with its padding |
| Jwt.RemoveAllPads | src/utils/jwt.js:5 | stripping `=` removes exactly the trailing padding |
| Jwt.Base64UrlDecode | src/utils/jwt.js:11-15 | the decoder method computes `Base64UrlDecodeSpec` |
| Jwt.Base64UrlEncode | src/utils/jwt.js:2-9 | the encoding contains no `=`, `+` or `/` and is no longer than Buffer's base64; `Jwt.DecodeEncode` is its inverse |
| Jwt.DecodeEncode | src/utils/jwt.js:2-15 | whenever Buffer's base64 decodes its own encoding, `base64UrlDecode` undoes `base64UrlEncode` |
| Jwt.EncodedNonEmpty | src/utils/jwt.js:2-9 | a non-empty base64 text encodes to non-empty text |
| Jwt.Secret | src/utils/jwt.js:19 | a set non-empty `JWT_SECRET` is the secret; otherwise the non-empty default |
| Jwt.VerifyJwt | src/utils/jwt.js:40-58 | null when a segment is missing or empty or the signature differs; a returned payload is not null and its `exp` test is false |
| Jwt.ExpiryTest | src/utils/jwt.js:55 | an absent or falsy `exp` never expires; the only error is the conversion TypeError; an expiry means the clock in seconds is past the number `exp` converts to |
| Jwt.JoinTexts | src/utils/jwt.js:55 | the join of an array's element texts exists iff every element converts |
| Jwt.ConvertedExpiry | src/utils/jwt.js:55 | an `exp` that is text, or an array of one text or number, or an empty array, expires like the number it converts to |
| Jwt.ObjectExpiry | src/utils/jwt.js:55 | an object `exp` never expires, unless an own `toString` key makes the conversion throw |
| Jwt.TextExpRefused | src/utils/jwt.js:52-57 | a correctly signed token whose `exp` is the text "1" verifies to null once the clock is past one second |
| Jwt.SignJwtShape | src/utils/jwt.js:21-38 | under the base64 and JSON laws, for a payload of safe integers and a safe `exp`, a signed token is three non-empty `.`-separated segments, the last the signature of the first two, the middle decoding to the payload plus `exp` = ⌊now/1000⌋ + lifetime |
| Jwt.SignJwt | src/utils/jwt.js:21-38 | whenever Buffer's base64 and the HMAC behave, a signed token splits into three segments, the last the signature over the first two |
| Jwt.SignJwtDefault | src/utils/jwt.js:21 | without a lifetime, a token is signed for the default 900 seconds |
| Jwt.DefaultLifetime | src/utils/jwt.js:21-58 | a token signed with the default lifetime verifies to its payload plus `exp` for the next 900 seconds |
| Jwt.UrlTextAvoids | src/utils/jwt.js:2-9 | base64url text avoids every character outside the URL-safe alphabet, `.` and space among them |
| Jwt.VerifySigned | src/utils/jwt.js:21-58 | under the base64 and JSON laws, verifying a token just signed for a payload of safe integers returns the payload with `exp`, unless `exp` is non-zero and past |
| Jwt.VerifyRejectsForged | src/utils/jwt.js:44-52 | three segments with a wrong signature verify to null |
| Jwt.CreateTokens | src/utils/jwt.js:60-64 | the refresh token is the random input; the access token is described by `AccessTokenLastsAnHour` |
| Jwt.AccessTokenLastsAnHour | src/utils/jwt.js:60-64 | under the base64 and JSON laws, for a safe-integer user id, the access token verifies, with claims `user_id`, `role` and `exp`, throughout the next 3600 seconds |
| LegacyAuth.FindIndex | src/controllers/auth.controller.js:13 | the index of the first user with the email, or the length when there is none |
| LegacyAuth.FindIndexComplete | src/controllers/auth.controller.js:13 | the search finds a user iff the email is taken |
| LegacyAuth.FindIndexFirst | src/controllers/auth.controller.js:13 | the first matching index is the one `FindIndex` gives |
| LegacyAuth.RegisterSpec | src/controllers/auth.controller.js:6-27 | a refusal leaves the list unchanged; a registration appends exactly one user |
| LegacyAuth.RegisterOutcomes | src/controllers/auth.controller.js:9-26 | a missing field is 400 "All fields are required", a taken email 400 "User already exists", both unchanged; otherwise 201 with the user appended under id length + 1 and with the hash, not the password |
| LegacyAuth.RegisterKeepsRegistry | src/controllers/auth.controller.js:13-25 | registration keeps ids 1..n in order and emails unique |
| LegacyAuth.LoginSpec | src/controllers/auth.controller.js:29-45 | a login succeeds only for a registered email |
| LegacyAuth.LoginExactly | src/controllers/auth.controller.js:32-42 | for a registered email, login returns that user's id and role iff the password matches the stored hash, otherwise 401 |
| LegacyAuth.LoginUnknown | src/controllers/auth.controller.js:32-33 | an unknown email is 401 "Invalid credentials" |
| LegacyAuth.Registrar.constructor | src/controllers/auth.controller.js:4 | the registry starts empty and valid |
| LegacyAuth.Registrar.FindByEmail | src/controllers/auth.controller.js:13 | the scan returns `FindIndex` |
| LegacyAuth.Registrar.Register | src/controllers/auth.controller.js:6-27 | the array and reply afterwards are `RegisterSpec` of the old array, and the registry invariant is kept |
| LegacyAuth.Registrar.Login | src/controllers/auth.controller.js:29-45 | the reply is `LoginSpec` of the array |
| BranchRepository.InsertBranch | src/modules/branch/branch.repository.js:3-12 | a fresh id holding the given restaurant, address and city, with no average wait and active; nothing else changes |
| BranchRepository.CreateBranch | src/modules/branch/branch.repository.js:3-12 | the method's store and row are those of `InsertBranch` |
| BranchRepository.GetBranchById | src/modules/branch/branch.repository.js:14-20 | the row iff the id is stored |
| BranchRepository.CreatedBranchReadBack | src/modules/branch/branch.repository.js:3-20 | a created branch reads back by its id; other ids read as before |
| BranchRepository.InsertMenu | src/modules/branch/branch.repository.js:22-30 | a fresh active menu of the branch with the name; nothing else changes |
| BranchRepository.CreateMenu | src/modules/branch/branch.repository.js:22-30 | the method's store and row are those of `InsertMenu` |
| BranchRepository.StoredDescription | src/modules/branch/branch.repository.js:40 | a missing or empty description is stored as null, any other is kept |
| BranchRepository.StoredAvailable | src/modules/branch/branch.repository.js:40 | an item is unavailable iff `available` was explicitly false |
| BranchRepository.ItemRows | src/modules/branch/branch.repository.js:40 | one 5-value row per item, in order |
| BranchRepository.BuildMenuItemsInsert | src/modules/branch/branch.repository.js:36-43 | item i gets `$5i+1..$5i+5`; the parameters are the 5n row values in order; resolving the placeholders gives each item's own row |
| BranchRepository.ItemsBindRows | src/modules/branch/branch.repository.js:36-53 | the row the statement binds for item i holds the columns of the i-th created item |
| BranchRepository.InsertMenuItemRows | src/modules/branch/branch.repository.js:45-54 | n new rows with consecutive fresh ids built from the items; existing rows kept |
| BranchRepository.InsertMenuItems | src/modules/branch/branch.repository.js:33-55 | an empty list returns [] and writes nothing; otherwise the rows of `InsertMenuItemRows` and only the item table changes |
| BranchRepository.CreatedMenuItems | src/modules/branch/branch.repository.js:33-55 | one stored fresh row per item, under the menu, with its name and price, null for a missing or empty description and available unless explicitly false |
| BranchRepository.CreateMenuItems | src/modules/branch/branch.repository.js:33-55 | the method's store and rows are those of `InsertMenuItems` |
| BranchRepository.GetBranchWithOwner | src/modules/branch/branch.repository.js:57-68 | a result iff the branch and its restaurant exist; the owner is that restaurant's `user_id` |
| BranchRepository.GetMenuOwners | src/modules/branch/branch.repository.js:155-168 | a result iff the menu exists and its branch's owner chain resolves, and then it is that owner |
| BranchRepository.MenuIds | src/modules/branch/branch.repository.js:80 | the ids of the menus, in order |
| BranchRepository.GroupByMenu | src/modules/branch/branch.repository.js:88-97 | each menu in order, with exactly the fetched items of its id in fetched order, [] when none |
| BranchRepository.IndexByMenu | src/modules/branch/branch.repository.js:89-93 | the map built by one pass over the items is their index by menu id; each seen id maps to exactly its items in fetched order and an unseen id has none |
| BranchRepository.IndexOfGroups | src/modules/branch/branch.repository.js:89-93 | the index of a list of items holds, for every menu id it has, exactly that menu's items in order, and has no id without items |
| BranchRepository.GetAllMenusByBranch | src/modules/branch/branch.repository.js:70-100 | the method's result is `MenusByBranch` of the store |
| BranchRepository.MenusByBranch | src/modules/branch/branch.repository.js:70-100 | one entry per selected menu of the branch, each holding only items of that menu |
| BranchRepository.MenusByBranchSpec | src/modules/branch/branch.repository.js:70-100 | exactly the stored menus of the branch, oldest first, each with exactly its stored items |
| BranchRepository.NoMenusNoItems | src/modules/branch/branch.repository.js:79 | a branch without menus gives [] |
| BranchRepository.Present | src/modules/branch/branch.repository.js:107-108 | at most the whitelisted keys, each present in the data |
| BranchRepository.PresentMembers | src/modules/branch/branch.repository.js:107-108 | a key is included iff it is whitelisted and present |
| BranchRepository.PresentValues | src/modules/branch/branch.repository.js:110 | the values of the included keys, in order |
| BranchRepository.PresentPairs | src/modules/branch/branch.repository.js:107-111 | the included keys with their values, in order |
| BranchRepository.BuildWhitelistUpdate | src/modules/branch/branch.repository.js:102-123 | null iff no whitelisted key is present; otherwise key i is `$(i+1)`, the id is bound last at `$(n+1)`, and resolving gives each column its own value |
| BranchRepository.CollectPresent | src/modules/branch/branch.repository.js:107-113 | the loop keeps the present whitelisted keys in whitelist order, numbering key i `$(i+1)`, with their values in the same order |
| BranchRepository.BranchWhitelist | src/modules/branch/branch.repository.js:107 | the branch update includes address, active, city and avg_waiting_time, in that order, each iff present |
| BranchRepository.MenuWhitelist | src/modules/branch/branch.repository.js:130 | the menu update includes name and active, in that order, each iff present |
| BranchRepository.PresentIgnoresOthers | src/modules/branch/branch.repository.js:107-111 | keys outside the whitelist do not change the statement |
| BranchRepository.SetBranchColumns | src/modules/branch/branch.repository.js:118-122 | an update keeps the branch's id and restaurant |
| BranchRepository.UpdateBranchEffect | src/modules/branch/branch.repository.js:102-123 | nothing to set or an unknown id returns null and writes nothing; a success replaces only that branch, keeping its id and restaurant |
| BranchRepository.UpdateBranch | src/modules/branch/branch.repository.js:102-123 | the method's store and result are those of `UpdateBranchEffect` |
| BranchRepository.UpdateBranchColumns | src/modules/branch/branch.repository.js:102-123 | after a success each whitelisted column holds the given value when present and its old value otherwise |
| BranchRepository.SetColumnsAppend | src/modules/branch/branch.repository.js:118-122 | setting `xs + ys` is setting `xs` then `ys` |
| BranchRepository.SetMenuColumns | src/modules/branch/branch.repository.js:141-146 | an update keeps the menu's id and branch |
| BranchRepository.UpdateMenuEffect | src/modules/branch/branch.repository.js:125-147 | nothing to set or an unknown menu returns null and writes nothing; a success replaces only that menu, keeping its id and branch |
| BranchRepository.UpdateMenu | src/modules/branch/branch.repository.js:125-147 | the method's store and result are those of `UpdateMenuEffect` |
| BranchRepository.UpdateMenuColumns | src/modules/branch/branch.repository.js:125-147 | after a success name and active hold the given value when present and the old one otherwise |
| BranchRepository.SetMenuColumnsAppend | src/modules/branch/branch.repository.js:141-146 | setting `xs + ys` is setting `xs` then `ys` |
| BranchRepository.DeleteMenuItemsEffect | src/modules/branch/branch.repository.js:149-153 | an empty list changes nothing; otherwise the remaining items are exactly those not listed, unchanged |
| BranchRepository.DeleteMenuItems | src/modules/branch/branch.repository.js:149-153 | the method's store is `DeleteMenuItemsEffect` |
| BranchRepository.DeletedExactly | src/modules/branch/branch.repository.js:152 | a listed id is gone and an unlisted stored item is kept as it was |
| BranchController.CreateBranchOutcome | src/modules/branch/branch.controller.js:7-24 | a refusal writes nothing |
| BranchController.CreateBranch | src/modules/branch/branch.controller.js:7-24 | the handler's store and result are those of `CreateBranchOutcome` |
| BranchController.CreateBranchGuards | src/modules/branch/branch.controller.js:12-19 | a missing restaurant is 404 whoever asks; another owner's restaurant is 403 "You are not the owner of this restaurant"; neither writes; the owner gets one new branch of it |
| BranchController.CreateMenuWithItemsOutcome | src/modules/branch/branch.controller.js:26-50 | a refusal writes nothing |
| BranchController.CreateMenuWithItems | src/modules/branch/branch.controller.js:26-50 | the handler's store and result are those of `CreateMenuWithItemsOutcome` |
| BranchController.CreateMenuGuards | src/modules/branch/branch.controller.js:32-43 | a broken owner chain is 404 and a non-owner 403, writing nothing; the owner gets a new active menu of the branch and one stored item per requested item under it |
| BranchController.MenusWithItemsOutcome | src/modules/branch/branch.controller.js:52-63 | 404 "No menus found for this branch" iff the branch lists no menus; otherwise the menus |
| BranchController.GetMenusWithItems | src/modules/branch/branch.controller.js:52-63 | the handler's result is `MenusWithItemsOutcome` |
| BranchController.NoMenusIsNotFound | src/modules/branch/branch.controller.js:56-57 | a branch without menus, existing or not, is 404 |
| RestaurantController.InsertRestaurant | src/modules/restaurant/restaurant.repository.js:3-12 | a fresh restaurant with the user and name; a missing or empty description is null |
| RestaurantController.CreateRestaurantOutcome | src/modules/restaurant/restaurant.controller.js:11-29 | a refusal writes nothing |
| RestaurantController.CreateRestaurant | src/modules/restaurant/restaurant.controller.js:11-29 | the handler's store and result are those of `CreateRestaurantOutcome` |
| RestaurantController.CreateRestaurantGuards | src/modules/restaurant/restaurant.controller.js:16-24 | an unknown user is 404 "User not found" and another role 400, writing nothing; a restaurant owner gets one new restaurant |
| RestaurantController.GetRestaurantById | src/modules/restaurant/restaurant.controller.js:40-51 | the restaurant iff it exists, else 404 "Restaurant not found" |
| RestaurantController.GetBranchesByRestaurantId | src/modules/restaurant/restaurant.controller.js:53-66 | 404 iff the restaurant is missing; otherwise that restaurant with its branches |
| RestaurantController.BranchesOfRestaurant | src/modules/restaurant/restaurant.repository.js:32-41 | the listed branches are exactly the stored branches of the restaurant |
| RestaurantController.BranchesNewestFirst | src/modules/restaurant/restaurant.repository.js:32-41 | the branches are listed newest first |
| UserRepository.GetUserById | src/modules/user/user.repository.js:17-24 | the row iff the id is stored, else null |
| UserRepository.GetUserByEmail | src/modules/user/user.repository.js:31-35 | null iff no user has the email; otherwise a stored user with it, the first by id |
| UserRepository.UserUpdateStatement | src/modules/user/user.repository.js:37-42 | key i is `key = $(i+2)`, the id is `$1`, the parameters are the id then the values in key order, and resolving gives each column its own value |
| UserRepository.SetUserColumn | src/modules/user/user.repository.js:43-49 | a known column of the right type gets the value and every other column is kept; a wrong type is 22P02 and an unknown column 42703 |
| UserRepository.SetUserColumns | src/modules/user/user.repository.js:43-49 | an update keeps the user's id |
| UserRepository.SetUserColumnsSpec | src/modules/user/user.repository.js:37-51 | with distinct keys every listed column holds its value and every other column is kept |
| UserRepository.UpdateUserEffect | src/modules/user/user.repository.js:37-51 | empty fields is the store's syntax error 42601 and an unknown id returns nothing, neither writing; a success replaces only that user |
| UserRepository.UpdateUser | src/modules/user/user.repository.js:37-51 | the method's store and result are those of `UpdateUserEffect` |
| UserRepository.UpdateUserReadBack | src/modules/user/user.repository.js:37-51 | after a success the user reads back with the listed values and the other columns unchanged; other users are untouched |
| UserRepository.SetActiveEffect | src/modules/user/user.repository.js:53-59 | a result iff the user exists; only its `active` changes |
| UserRepository.SetUserActive | src/modules/user/user.repository.js:53-59 | the method's store and result are those of `SetActiveEffect` |
| UserRepository.SetActiveOnlyActive | src/modules/user/user.repository.js:53-59 | every other column is kept, and setting the old flag back restores the store |
| Text.Split | src/utils/jwt.js:41 | the parts contain no separator and join back to the input |
| Text.SplitJoin | src/utils/jwt.js:41 | splitting the join of separator-free parts gives the parts |
| Text.SplitCons | src/middlewares/authMiddleware.js:8 | splitting `w + sep + rest` gives `w` followed by the parts of `rest` |
| Text.Utf16Length | src/modules/order/order.schema.js:10 | the JavaScript length of a text is between its character count and twice it, and equals the count when no character is beyond the Basic Multilingual Plane |
| Sql.TupleAt | src/modules/order/order.repository.js:66-69 | the i-th tuple of width w is `$(w·i+1)..$(w·i+w)` |
| Sql.Bound | src/modules/order/order.repository.js:132-135 | `$n` is bound iff 1 ≤ n ≤ the number of parameters, to the n-th one |
| Sql.DecodeNumberedTuples | src/modules/order/order.repository.js:65-70 | consecutively numbered tuples over the concatenated rows resolve to the rows |
| Sql.DecodeNumberedAssignments | src/modules/order/order.repository.js:125-129 | `$1..$n` assignments over parameters holding the values in order resolve to the entries |

## Left out

- SQL text, the `pg` pool and the `BEGIN`/`COMMIT`/`ROLLBACK` strings: statements are modelled by their placeholder indices and their effect on the tables. A transaction is "commit the new state or keep the old one".
- Column projections of `SELECT`/`RETURNING`: results are whole rows.
- The schema's foreign keys and defaults are not in the source. The model enforces only `order_items.order_id` → `orders` and `orders.public_id` uniqueness. It assumes new branches have no average wait and are active, and new menus are active.
- `ORDER BY created_at` is modelled as serial-id order, on the assumption that rows are created in id order.
- Floating-point money: `Number(mi.price)` and the total are integer cents, without binary-float rounding.
- The clock, `crypto.randomBytes`, the generated UUID, HMAC-SHA256, Buffer's base64, `JSON.stringify`/`JSON.parse`, bcrypt and `jsonwebtoken`: these are inputs or abstract functions. Their assumed laws are `Jwt.Base64Laws` and `Jwt.JsonLaw`.
- LegacyAuth.Registrar.Login: returns the claims `{ user_id, role }` that are signed with a one-hour `jsonwebtoken` token, not the token string.
- The BullMQ queue, the IORedis connection, `client.release()` and the queue's retries. A job is one call of `OrderQueue.ProcessJob`.
- Concurrency: races between transitions and duplicate job deliveries running at the same time. Every operation is one sequential step.
- `console.log` in the error handler, and `JSON.parse(err.message)` of a Zod error. The details are kept as text.
- The Zod schemas of branches, menus and restaurants belong to other files. Their parse outcome is an input `Result` whose error is the Zod error.
- `Number(req.query.x)` on text that is not a number (NaN): query values arrive as optional integers.
- AuthMiddleware.PrincipalOf: a `user_id` in the token that is not an integer is read as 0.
- JavaScript's conversion of text to a number (whitespace, signs, exponents, hexadecimal, `Infinity`) is the primitive `toNumber`. The model writes out how `exp` reaches it: how values are truthy, how arrays are joined and how objects convert.
- Jwt.VerifySigned: stated for payloads whose numbers are safe integers, and so is `SignJwtShape`. JSON text carries every double back exactly, but the model's numbers are rationals, and only the safe integers are certainly doubles.
- Jwt.AccessTokenLastsAnHour: stated for a safe-integer user id and a clock whose `exp` is a safe integer, for the same reason. `AuthMiddleware.IssuedTokenAuthenticates` rests on it and has the same bounds.
- The HTTP `createOrder` sends `BEGIN`/`COMMIT`/`ROLLBACK` through the pool rather than on one client, so the pool may run them on different connections. The model treats the order and its items as one transaction that commits or rolls back as a whole.
- The typed column setters `BranchRepository.SetBranchColumn`, `BranchRepository.SetMenuColumn` and `UserRepository.SetUserColumn` refuse a value of the wrong kind with 22P02. PostgreSQL would convert some of these from text parameters, such as `"true"` for a boolean or `123` for text. The column types are not in the source; the model fixes them.
- `markPaid`'s two `new Date()` readings, one in the transition and one in the paid update, are the same clock reading `now` in `OrderController.MarkPaidOutcome`.
- The commented-out idempotency code of the HTTP `createOrder` is inactive, so the HTTP path writes no ledger entry.
- `createMenuWithItems` runs `BEGIN`/`COMMIT` on the pool rather than on one client. The model treats menu and items as one step without a failure between them.
- `markPaid`'s second update and final read are separate statements outside the transition, as in the source. A failure between them is not modelled.
- `getAllRestaurants`, `getAllUsers` and the other controllers and routes are outside the modelled core.
- OrderRepository.ListOrdersComplete: completeness is stated only for offset 0 with every match fitting in the limit. Other windows are described position by position by `ListOrdersAt`.
- OrderController.ListOrdersScope: the customer-only guarantee is stated for a non-zero user id. A customer id of 0 is falsy, so the source drops the filter and lists everyone's orders.
- OrderRepository.BuildOrderUpdate: binds the order's public id in `WHERE`, following the by-public-id lookup, rather than the serial id the source writes.
