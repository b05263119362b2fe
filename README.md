# Shopping-cart table of an e-commerce backend, in Dafny

This project models the cart logic of a small Express/Supabase e-commerce
backend and proves properties of that model.

**The guest/user cart (`src/routes/cart.js`).** The `cart_items` table holds
rows with an id, a `user_id` or a `session_id` (exactly one of the two), a
product, an optional variant, a quantity and a captured price. Six route
handlers read and change the table:

- list;
- add-or-increment, with one row per (owner, product, variant);
- owner-scoped update;
- owner-scoped remove;
- owner-scoped clear;
- merge, which folds a guest session's rows into a user's rows when the user
  logs in.

Each handler has two parts in the model:

- a pure function in `CartRoutes` (`AddResult`, `MergeResult`, …). It maps the
  table before the request to the status code, the table after it and the
  returned row.
- a method of the class `CartStore.CartTable`. It makes the same change in
  place, one store call at a time. The merge method is a loop with
  invariants. Each method is proved to do exactly what its function says.

`CartRouteLemmas` proves what the handlers guarantee:

- the table invariant `WellFormed` holds after every handler. It says:
  - every row has exactly one owner;
  - ids increase;
  - no two rows share (owner, product, variant).
- a repeat add coalesces into the existing row;
- update and delete touch only the caller's rows;
- merge conserves quantity: for every (product, variant), the user's quantity
  afterwards equals the user's quantity before plus the session's. No session
  row remains, and rows of other owners stay.
- merge copies prices: a user row created by the merge has the session row's
  price, and a user row that existed keeps its price and changes only in
  quantity. The merge adds no user row for any other (product, variant).

**The parent-cart model (`src/models/Cart.js`).** This is an older table whose
rows are grouped by `cart_id` and carry a derived
`total_price = quantity * unit_price`. In `CartModel`:

- the operations are again pure functions, plus a class `CartModel.Carts` that
  applies them in place;
- `getCartItems` and `calculateTotal` are pure functions over the rows;
- lemmas cover how totals change on add, that clear and remove are scoped to
  one cart, and that the folded total equals the sum of
  `quantity * unit_price` over the cart's rows.

**Inputs instead of I/O.** The model treats these as inputs:

- the store is an in-memory table, and every store call succeeds;
- the product catalog is a `map` from product id to a price and an optional
  sale price;
- a request is `CartRoutes.Request`: the authenticated user (if any), the raw
  `session-id` header, and the id that `crypto.randomUUID()` would generate.
  In `src/server.js` the cart router is mounted without the token middleware,
  so in the repository `req.user` is never set there. The model takes the user
  as an input, so the authenticated paths are covered too.

**Behaviour the model keeps as written:**

- The add route does not floor the quantity. `parseInt(quantity) || 1` turns
  0, a missing value and a non-number into 1, but any negative number passes
  through unchanged (`AddStoresNegativeQuantity`). The update route alone
  rejects quantities below 1.
- The update and delete routes match `user_id = getUserId(req)` OR
  `session_id = req.sessionID`. For a guest, `getUserId` is the session id, so
  the filter also matches a row whose `user_id` equals that session id.
  Authenticated callers also reach the rows of the session named by their
  header.
- The list route uses the raw header, not the generated id. A guest without a
  `session-id` header therefore files rows under a fresh id and never sees
  them listed (`ListShowsOwnRows`).
- Merge does not check that the session belongs to the caller: any
  authenticated user who names a session id folds that session's rows into
  their own cart.

## Model

| member | source | states |
|---|---|---|
| `CartRoutes.SessionOf` | src/routes/cart.js:7-15 | `req.sessionID` is the `session-id` header when that is truthy, and the generated id otherwise |
| `CartRoutes.GetUserId` | src/routes/cart.js:26-28 | `getUserId` is the user's id when authenticated, and the session id otherwise |
| `CartRoutes.OwnerOf` | src/routes/cart.js:76-77 | the add route files a row under the user when authenticated (user column set), and under the session otherwise |
| `CartRoutes.CallerMatches` | src/routes/cart.js:143 | the update and delete filter: for a user, a row matching the user id or the session id; for a guest, a row whose `user_id` or `session_id` is the session id |
| `CartRoutes.Listed` | src/routes/cart.js:44 | the list filter: nothing without user and truthy header; a single-owner user row is listed exactly when its user is the caller, a session row exactly when its session is the raw header |
| `CartRoutes.Upsert` | src/routes/cart.js:80-115 | check-then-update-or-insert returns a row of the requested slot that is in the new table; the table grows by at most one row and keeps every row's id at its position |
| `CartRoutes.SetQuantity` | src/routes/cart.js:136-144 | the row-by-row form of the update statement that `UpdateResult` applies; what the update does to the table is stated by `CartRouteLemmas.UpdateTouchesOnlyTarget` and `CartRouteLemmas.UpdateChangesAtMostOneRow` |
| `CartRoutes.MergeRow` | src/routes/cart.js:215-246 | one merge step adds at most one row and keeps every existing row's id at its position |
| `CartRoutes.Fold` | src/routes/cart.js:214-247 | the merge loop adds at most one row per guest row and keeps every existing row's id at its position |
| `Tables.Truthy` | src/routes/cart.js:110 | `x \|\| null` on an optional string: the result is absent exactly when the input is absent or empty, otherwise it is the input |
| `CartRoutes.CapturedPrice` | src/routes/cart.js:75 | the captured price is the sale price when that is set and non-zero, otherwise the list price |
| `CartRoutes.AddedQuantity` | src/routes/cart.js:93-111 | `parseInt(quantity) \|\| 1` is the given integer when it is non-zero and 1 otherwise; it is never 0 |
| `CartRoutes.FindSlot` | src/routes/cart.js:80-86 | the existing-row lookup finds a row of the (owner, product, variant) slot, the first one, or reports that the slot is empty |
| `CartRoutes.NewRow` | src/routes/cart.js:104-113 | an inserted row has exactly one owner column set and sits in the requested slot |
| `CartRoutes.ListResult` | src/routes/cart.js:31-52 | no header and no user gives the empty list; otherwise exactly the rows owned by the user, plus those of the header's session |
| `CartRoutes.AddResult` | src/routes/cart.js:55-122 | 400 exactly when `product_id` is missing, 404 exactly when it is not in the catalog, 201 otherwise; on 400 and 404 the table is unchanged |
| `CartRoutes.UpdateResult` | src/routes/cart.js:125-154 | 400 exactly when the quantity is missing or below 1; 404 exactly when no row has that id and matches the caller's filter; 200 otherwise; on 400 and 404 the table is unchanged; the row returned with a 200 is stated by `CartRouteLemmas.UpdateTouchesOnlyTarget` |
| `CartRoutes.RemoveResult` | src/routes/cart.js:157-173 | always 204; the rows left are exactly the old rows except those with that id that match the caller's filter |
| `CartRoutes.ClearResult` | src/routes/cart.js:176-190 | always 204; the rows left are exactly the old rows that do not match the caller's filter |
| `CartRoutes.MergeResult` | src/routes/cart.js:193-260 | 401 exactly when unauthenticated; 400 exactly when authenticated with an empty `sessionId`; on 401 and 400 the table is unchanged; otherwise 204 |
| `CartRouteLemmas.SlotHoldsOneRow` | src/routes/cart.js:80-86 | in a well-formed table a slot holds at most one row, so the `maybeSingle` lookup never meets two |
| `CartRouteLemmas.UpsertIncrements` | src/routes/cart.js:91-101 | when the slot has row k, only row k changes: its quantity grows by the added amount, and its id, owner, product, variant and price stay; no row is added |
| `CartRouteLemmas.UpsertInserts` | src/routes/cart.js:102-115 | when the slot is empty, exactly one row is appended: the next id, the owner's column set and the other null, the given product, variant, quantity and price |
| `CartRouteLemmas.UpsertQty` | src/routes/cart.js:90-115 | an upsert adds its quantity to its own slot's total and leaves every other slot's total unchanged |
| `CartRouteLemmas.UpsertKeepsOthers` | src/routes/cart.js:225-246 | an upsert for one owner neither adds nor removes any row that owner does not own |
| `CartRouteLemmas.UpsertWellFormed` | src/routes/cart.js:80-115 | check-then-update-or-insert keeps single ownership, increasing ids and one row per slot |
| `CartRouteLemmas.FilterWellFormed` | src/routes/cart.js:162-166 | a store delete keeps the table invariant |
| `CartRouteLemmas.CallerReachesOwnRows` | src/routes/cart.js:26-28 | the `getUserId`/`sessionID` filter of update and delete matches every row the add route files for the same request |
| `CartRouteLemmas.ListShowsOwnRows` | src/routes/cart.js:34-44 | the list shows a row the add route filed for the same request exactly when the request has a user or a truthy `session-id` header |
| `CartRouteLemmas.AddInsertsRow` | src/routes/cart.js:102-115 | adding to an empty slot returns 201 and appends one row: the user as owner when authenticated, the session otherwise; price `sale_price \|\| price`; quantity `parseInt(quantity) \|\| 1` |
| `CartRouteLemmas.AddIncrementsRow` | src/routes/cart.js:91-101 | adding to an existing row adds `parseInt(quantity) \|\| 1` to it; no row appears; its price is kept; every other row is unchanged |
| `CartRouteLemmas.AddTwiceCoalesces` | src/routes/cart.js:79-115 | two adds of the same (owner, product, variant) into a table without it leave one new row, whose quantity is the sum of the two amounts; earlier rows are unchanged |
| `CartRouteLemmas.AddQty` | src/routes/cart.js:90-115 | an add raises its slot's total by `parseInt(quantity) \|\| 1` and no other slot's total |
| `CartRouteLemmas.AddStoresNegativeQuantity` | src/routes/cart.js:111 | an add with any negative quantity into an empty slot replies 201 and stores a row with that negative quantity |
| `CartRouteLemmas.AddWellFormed` | src/routes/cart.js:76-115 | the add route keeps the table invariant, including exactly one owner per row |
| `CartRouteLemmas.UpdateTouchesOnlyTarget` | src/routes/cart.js:136-150 | a successful update gives the new quantity to exactly the rows with that id that match the caller's filter; every other row, another owner's included, is unchanged; the reply is one of the updated rows, in the new table, equal to its old row except for the new quantity |
| `CartRouteLemmas.UpdateChangesAtMostOneRow` | src/routes/cart.js:142 | in a well-formed table an update changes at most one row |
| `CartRouteLemmas.UpdateWellFormed` | src/routes/cart.js:136-144 | the update route keeps the table invariant |
| `CartRouteLemmas.RemoveWellFormed` | src/routes/cart.js:162-166 | the remove route keeps the table invariant |
| `CartRouteLemmas.ClearWellFormed` | src/routes/cart.js:180-183 | the clear route keeps the table invariant |
| `CartRouteLemmas.ClearEmptiesList` | src/routes/cart.js:176-190 | after a clear, a list by the same user, or by a guest with a header, is empty |
| `CartRouteLemmas.FoldSingleOwner` | src/routes/cart.js:214-247 | the merge loop keeps every row single-owned |
| `CartRouteLemmas.FoldWellFormed` | src/routes/cart.js:214-247 | the merge loop keeps the table invariant |
| `CartRouteLemmas.FoldQty` | src/routes/cart.js:214-247 | the merge loop adds each guest row's quantity to the user's slot of the same (product, variant), and changes no other slot's total |
| `CartRouteLemmas.FoldKeepsOthers` | src/routes/cart.js:214-247 | the merge loop neither adds nor removes any row the user does not own |
| `CartRouteLemmas.MergeConservesQuantity` | src/routes/cart.js:204-253 | after a merge, for every (product, variant), the user's total is the user's prior total plus the session's |
| `CartRouteLemmas.UpsertKeepsSlot` | src/routes/cart.js:225-234 | any upsert keeps an occupied slot occupied at the same position and changes its rows in quantity only |
| `CartRouteLemmas.UpsertLeavesSlotEmpty` | src/routes/cart.js:225-246 | an upsert for another (product, variant) leaves an empty slot empty |
| `CartRouteLemmas.UpsertFillsSlot` | src/routes/cart.js:235-246 | an upsert into an empty slot appends one row, at the given price, and every row of the slot equals that row but for its quantity |
| `CartRouteLemmas.FoldKeepsSlot` | src/routes/cart.js:214-234 | once the user holds a row for (product, variant), the merge loop keeps it at its position and changes only its quantity |
| `CartRouteLemmas.FoldFillsSlot` | src/routes/cart.js:214-247 | when the user holds no row for (product, variant) and a guest row has it, the merge loop gives the user rows for it at the guest rows' price |
| `CartRouteLemmas.MergeCopiesGuestPrice` | src/routes/cart.js:235-246 | after a merge, the user holds each (product, variant) that only the session held, and every such row has the session row's price |
| `CartRouteLemmas.MergeKeepsUserRow` | src/routes/cart.js:225-234 | after a merge, a row the user held is still there, with the same id, owner, product, variant and price; only its quantity may differ |
| `CartRouteLemmas.UpsertOnlySlot` | src/routes/cart.js:225-246 | every row after an upsert has the user, product and variant of an old row, or the upsert's own product and variant |
| `CartRouteLemmas.FoldOnlyHeldSlots` | src/routes/cart.js:214-247 | every row after the merge loop has the user, product and variant of an old row, or the product and variant of a guest row |
| `CartRouteLemmas.MergeAddsOnlyHeldSlots` | src/routes/cart.js:204-253 | after a merge, every user row is for a (product, variant) that the user or the session held before; with `MergeCopiesGuestPrice` and `MergeKeepsUserRow`, the user's (product, variant)s afterwards are exactly those of the user and the session before |
| `CartRouteLemmas.MergeRemovesGuestRows` | src/routes/cart.js:249-253 | after a merge no row with that `session_id` remains |
| `CartRouteLemmas.MergeKeepsOthers` | src/routes/cart.js:214-253 | a merge neither adds nor removes rows owned by neither the user nor the session |
| `CartRouteLemmas.MergeEmptyGuestCart` | src/routes/cart.js:212 | a merge from a session without rows returns 204 and changes nothing |
| `CartRouteLemmas.MergeWellFormed` | src/routes/cart.js:214-253 | the merge route keeps the table invariant |
| `CartStore.CartTable.Write` | src/routes/cart.js:80-115 | the in-place lookup-then-update-or-insert leaves the table, and returns the row, as `Upsert` says, and keeps the invariant |
| `CartStore.CartTable.List` | src/routes/cart.js:31-52 | the list handler replies 200 with exactly `ListResult` of the table |
| `CartStore.CartTable.Add` | src/routes/cart.js:55-122 | the add handler's status, row and new table are those of `AddResult` |
| `CartStore.CartTable.Update` | src/routes/cart.js:125-154 | the update handler's status, row and new table are those of `UpdateResult` |
| `CartStore.CartTable.Remove` | src/routes/cart.js:157-173 | the remove handler's status and new table are those of `RemoveResult` |
| `CartStore.CartTable.Clear` | src/routes/cart.js:176-190 | the clear handler's status and new table are those of `ClearResult` |
| `CartStore.CartTable.Merge` | src/routes/cart.js:193-260 | the merge handler's loop over the guest rows, then its bulk delete, leave the table as `MergeResult` says |
| `CartModel.AddItemResult` | src/models/Cart.js:28-43 | `addItem` succeeds, appends exactly the returned row and gives it the next id |
| `CartModel.Reprice` | src/models/Cart.js:49-55 | the row-by-row form of the update statement that `UpdateItemResult` applies; what the update does to the table is stated by `CartModel.UpdateItemReprices` |
| `CartModel.TotalPrice` | src/models/Cart.js:99 | the `reduce` over no rows is 0, and over rows whose stored totals are all non-negative it is non-negative |
| `CartModel.CartTotal` | src/models/Cart.js:97-100 | `calculateTotal` of a cart whose rows' stored totals are all non-negative is non-negative |
| `CartModel.AddItemInserts` | src/models/Cart.js:28-43 | `addItem` appends exactly one row: the given cart, product, variant, quantity and unit price, with `total_price = quantity * unit_price` |
| `CartModel.AddItemConsistent` | src/models/Cart.js:28-43 | `addItem` keeps every row priced and the ids increasing |
| `CartModel.CartTotalAfterAdd` | src/models/Cart.js:97-100 | after `addItem`, its cart's total grows by `quantity * unit_price` and every other cart's total is unchanged |
| `CartModel.UpdateItemAsWritten` | src/models/Cart.js:46-59 | as written, `updateItem` always fails and leaves the table unchanged |
| `CartModel.UpdateItemAsWrittenIgnoresRow` | src/models/Cart.js:46-59 | even with a matching row present, the written `updateItem` fails and changes nothing, while the intended one updates that row |
| `CartModel.Repriced` | src/models/Cart.js:49-52 | a repriced row has the new quantity, keeps its id, cart, product, variant and unit price, and its total is the new quantity times that unit price |
| `CartModel.UpdateItemResult` | src/models/Cart.js:46-59 | the intended `updateItem` fails exactly when no row has that id in that cart, and then the table is unchanged |
| `CartModel.UpdateItemReprices` | src/models/Cart.js:46-59 | the intended `updateItem` reprices exactly the row with that id in that cart; other rows, same-id rows of other carts included, are unchanged |
| `CartModel.UpdateItemConsistent` | src/models/Cart.js:46-59 | the intended `updateItem` keeps every row priced and the ids increasing |
| `CartModel.RemoveItemResult` | src/models/Cart.js:62-71 | `removeItem` deletes exactly the rows that match both the id and the cart |
| `CartModel.RemoveItemKeepsOtherCarts` | src/models/Cart.js:62-71 | after `removeItem`, every other cart's rows are unchanged, same-id rows included |
| `CartModel.ClearCartResult` | src/models/Cart.js:73-81 | `clearCart` deletes exactly the rows of that cart |
| `CartModel.ClearCartKeepsOtherCarts` | src/models/Cart.js:73-81 | after `clearCart` that cart has no rows, and every other cart's rows are unchanged |
| `CartModel.CartItems` | src/models/Cart.js:83-95 | `getCartItems` returns exactly the rows whose `cart_id` is the argument |
| `CartModel.CartTotalOfEmptyCart` | src/models/Cart.js:97-100 | a cart without rows totals 0 |
| `CartModel.TotalPriceIsLineSum` | src/models/Cart.js:99 | when every row is priced, the `reduce` over stored totals equals the sum of quantity times unit price |
| `CartModel.CartTotalIsLineSum` | src/models/Cart.js:97-100 | in a consistent table `calculateTotal` equals the sum of quantity times unit price over the cart's rows |
| `CartModel.Carts.AddItem` | src/models/Cart.js:28-44 | the in-place insert leaves the table as `AddItemResult` says and keeps it consistent |
| `CartModel.Carts.UpdateItem` | src/models/Cart.js:46-60 | the in-place update, as intended, leaves the table as `UpdateItemResult` says and keeps it consistent |
| `CartModel.Carts.RemoveItem` | src/models/Cart.js:62-71 | the in-place delete returns true and leaves exactly `RemoveItemResult` of the old rows |
| `CartModel.Carts.ClearCart` | src/models/Cart.js:73-81 | the in-place delete returns true and leaves exactly `ClearCartResult` of the old rows |

## Left out

- `src/routes/users.js` is not part of this model: password hashing, token signing and verification, and user lookups are all foreign library or store calls.
- `src/routes/brands.js` and `src/routes/health.js` are not part of this model: they pass queries straight to the hosted store.
- CORS and session middleware, `src/server.js` and `src/config/db.js` are not part of this model: they are framework and client configuration.
- `src/controllers/cart.js` and `src/services/CartService.js` are not part of this model: they forward to `Cart.js`. Their get-or-create cart depends on the client's `.single()` error behaviour.
- `Cart.getByUserId` and `Cart.create` work on the `carts` parent table, which is not part of this model, for the same reason.
- Session-id generation is random. The generated id is an input (`Request.generated`).
- `created_at`/`updated_at` timestamps are wall-clock time and are left out.
- The list route orders by `created_at` descending. The model returns rows in table (insertion) order.
- Concurrency is left out. Two simultaneous adds can both see an empty slot and both insert. The model runs one request at a time, and that is what keeps one row per slot.
- Store failures and the 500 replies they cause are left out. So are the unchecked results of the update and insert calls inside merge. Every store call is taken to succeed.
- When no product matches, the product lookup's `.single()` would itself raise an error (a 500). The model follows the handler's `if (!product)` branch and replies 404.
- The `.or(...)` filters are built by string interpolation. The model uses the row predicate they are meant to express. An absent user or header (`undefined`) matches no row. A header holding filter syntax, which could widen the filter, is not modelled.
- `.eq('variant_id', null)` is treated as equality with null. The real query layer may never match null this way.
- Joined product and variant display data in the list and `getCartItems` selects are left out.
- Prices are integers (cents), not decimals.
- Quantities in request bodies are integers or absent. Fractional numbers and numeric strings (`parseInt("2.5")`) are not modelled.
- Row ids are natural numbers assigned in increasing order, and the `:id` route parameter is one.
- The merge's guest-row query (`select('*').eq('session_id', sessionId)`) has no `order`, so the store may return the guest rows in any order. `Fold` takes them in table order. That order decides only the ids and positions of the new user rows, and no contract depends on it.
- `CartRoutes.ListResult`: states which rows are listed, not their order. The order is table order, which the table's `created_at` ordering does not follow.
- `CartRoutes.RemoveResult`: states which rows remain, not that they keep their relative order (they do, since this is a filter).
- `CartRoutes.ClearResult`: states which rows remain, not that they keep their relative order.
- `CartRouteLemmas.MergeKeepsOthers`: states membership of other owners' rows, not their positions.

## Findings

| source | as written | input that shows it | evidently intended | confidence | as-written member | corrected member |
|---|---|---|---|---|---|---|
| src/models/Cart.js:46-56 | the update's argument reads `item.unit_price`, but `item` is the constant this same statement declares; the read throws a ReferenceError before the store is called, so every call fails and nothing changes | a cart holding row id 1 with quantity 2, then `updateItem(cart, 1, 3)` | set that row's quantity to 3 and its `total_price` to 3 times its own `unit_price` | not executed; high | `CartModel.UpdateItemAsWritten` | `CartModel.UpdateItemResult` |

`CartModel.UpdateItemAsWrittenIgnoresRow` proves the discrepancy. Given a matching row, the written version fails and leaves the table as it was. The intended version succeeds, and changes the row whenever the quantity differs. `CartModel.UpdateItemReprices` proves what the intended version does. `CartModel.Carts.UpdateItem` uses the intended version.
