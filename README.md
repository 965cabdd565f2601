# Shopping-cart API: a verified model of its handlers

This project models the cart endpoints of a small HTTP service backed by a
SQLite database of carts and items.

- `POST /cart` creates a cart and, optionally, its items.
- `GET /cart` lists every cart.
- `GET /cart/:cart_id` reads one cart and a view of its items.
- `POST /cart/:cart_id` bulk-edits a cart's items: it deletes listed item ids, inserts new items and reads the cart's items back.
- `DELETE /cart/:cart_id` removes a cart's items and then the cart.

It also models the response envelope that every handler answers with, and the
single error path, which answers status 500.

The model has these parts:

- The database is a class, `Store.Database`. Its two tables are sequences of rows, and it has a flag saying whether it enforces the foreign key from `Item.cart_id` to `Cart.id`.
- Each SQL statement a handler sends is a method of that class.
  - A statement either takes full effect or fails and changes nothing.
  - Consecutive statements are independent: there is no transaction around a handler.
  - Whether a statement fails for a reason outside the model (a lost connection, a full disk) is a `Fault` parameter. `None` lets the statement run; `Some(text)` makes the database report `text`.
- Reading handlers are functions that read the database. Writing handlers are methods that modify it.
- The database's clock is a parameter per writing statement (`now`, or `cartNow` and `itemsNow` where a handler writes twice), stamped into `creation_date`.
- Generated ids are promised only to be fresh, meaning no row present at insert time has that id.

Each handler is proved to keep the table invariant: ids are unique in both tables. When the database enforces foreign keys, each handler also keeps the referential invariant: every item's cart exists. Each handler's contract states, for every combination of failing and succeeding statements:

- its result,
- its status code,
- the new contents of both tables.

The text of the bulk delete statement is given a parser, and a proof that it reads back as exactly the listed ids.

Where the code and its documentation differ, the model follows the code:

- The handlers run their statements without a transaction, so a failing later step leaves the earlier steps' effects in place.
- A missing cart is answered with 500, the same as any other failure; no handler answers 404.
- `POST /cart/:cart_id` deletes the listed ids whichever cart they belong to.

## Model

| member | source | states |
|---|---|---|
| Server.Serialized | src/server.rs:22-28 | the serialised envelope holds its message and data and nothing else |
| Server.StatusNotSerialized | src/server.rs:26-27 | envelopes that differ only in their status code serialise identically, because `status_code` is skipped |
| Server.IntoResponse | src/server.rs:66-69 | the response status is the envelope's own status code; the body carries the envelope's message and data |
| Server.SuccessCode | src/server.rs:43-49 | the envelope answers with the given status and a body holding the message "success" and the data |
| Server.Success | src/server.rs:35-41 | equals `success_code` with 200, so it answers 200 with "success" and the data |
| Server.Error | src/server.rs:56-64 | the envelope answers 500 with the given message and an empty payload |
| Server.ToJson | src/server.rs:51-53 | wrapping leaves the envelope unchanged |
| Server.JsonIntoResponse | src/server.rs:51-53 | answering a wrapped envelope gives status 200 and the body the envelope would have had; its status code is ignored |
| Server.CreatedLostThroughJson | src/cart/post.rs:97 | an envelope built with 201 and sent through `.json()` reaches the client as 200; its own responder would send 201 |
| Store.Display | src/app_error.rs:24-30 | the text an error shows: a failure its own message, a missing row the driver's no-row text |
| AppError.From | src/app_error.rs:34-41 | the wrapped error is the original error, with the same display text |
| AppError.ErrorIntoResponse | src/app_error.rs:24-30 | every wrapped error answers 500 with the error's display text as message and no payload |
| AppError.NotFoundIsInternal | src/app_error.rs:24-30 | a missing row is answered 500 with the driver's no-row text, not 404 |
| AppError.FailuresAreInternal | src/app_error.rs:24-30 | every failed handler result is answered 500 with its error's text |
| Store.ItemsOf | src/cart/_id/get.rs:50-56 | the rows selected by `cart_id = ?` are exactly the table's rows with that cart id, no more of them than the table holds |
| Store.ItemsNotOf | src/cart/_id/delete.rs:39-41 | the rows `DELETE FROM Item WHERE cart_id = ?` leaves are exactly those of other carts; unique ids stay unique |
| Store.Only | src/cart/_id/post.rs:70-83 | the rows an id-list delete removes are exactly the rows whose id is listed; unique ids stay unique |
| Store.Without | src/cart/_id/post.rs:70-83 | the rows an id-list delete leaves are exactly the rows whose id is not listed; unique ids stay unique |
| Store.CartsWithout | src/cart/_id/delete.rs:43-45 | the rows `DELETE FROM Cart WHERE id = ?` leaves are exactly the other carts; the id set loses exactly that id |
| Store.FindCart | src/cart/_id/get.rs:42-48 | a cart is found iff its id is in the table, and the found row is in the table with that id |
| Store.IdsOf | src/cart/_id/post.rs:111-114 | `RETURNING id` yields one id per row, in row order |
| Store.UniqueItemsAppend | src/cart/post.rs:65-95 | appending rows with ids not yet present keeps the item ids unique, and the id set becomes the union |
| Store.UniqueCartsAppend | src/cart/post.rs:57-63 | appending a cart with a fresh id keeps the cart ids unique and adds exactly that id |
| Store.UniqueIdsDistinct | src/cart/_id/post.rs:70-83 | rows with unique ids return no id twice |
| Store.ItemsOfAppend | src/cart/_id/post.rs:118-124 | selecting a cart's items distributes over appended rows |
| Store.ItemsOfNone | src/cart/_id/delete.rs:39-41 | a cart no row belongs to selects nothing, and deleting its items deletes nothing |
| Store.ItemsOfAll | src/cart/_id/get.rs:50-56 | when every row belongs to the cart, the selection is the rows themselves, in order |
| Store.WithoutAppend | src/cart/_id/post.rs:70-83 | an id-list delete distributes over appended rows |
| Store.WithoutFresh | src/cart/_id/post.rs:70-83 | deleting ids no row has leaves the table unchanged |
| Store.WithoutAll | src/cart/_id/post.rs:70-83 | deleting every id of some rows removes them all |
| Store.FindCartAppended | src/cart/_id/get.rs:42-48 | a cart appended with a fresh id is the row its id finds |
| Store.Database.constructor | src/server.rs:123-126 | a fresh database has empty tables, satisfies both invariants, and enforces foreign keys as configured |
| Store.Database.InsertCart | src/cart/post.rs:57-63 | on a fault, the fault's error and no change; otherwise exactly one cart is appended, with a fresh id, the given name and the clock's time; items untouched; ids stay unique |
| Store.Database.InsertItems | src/cart/post.rs:65-92 | fails iff there is a fault or (with foreign keys) some tuple names a missing cart, and then changes nothing; otherwise appends one row per tuple, in order, with the bound values, the clock's time and ids fresh against the table |
| Store.Database.DeleteItemsById | src/cart/_id/post.rs:70-83 | on a fault, no change; otherwise every row with a listed id is removed, the rest are kept in order, and the returned ids are distinct and exactly the listed ids that were present |
| Store.Database.DeleteItemsOfCart | src/cart/_id/delete.rs:39-41 | on a fault, no change; otherwise exactly the cart's rows are removed; carts untouched |
| Store.Database.DeleteCartReturningId | src/cart/_id/delete.rs:43-45 | on a fault, no change; a missing id is the no-row error with no change; with foreign keys enforced, a cart that items still name is refused with the foreign-key error and no change; otherwise that cart is removed and its id returned; items untouched; with foreign keys enforced, the referential invariant is kept |
| CartGet.ListCarts | src/cart/get.rs:22-30 | succeeds iff the select does; returns every cart row, in table order, with 200 and "success"; an empty table gives an empty list |
| CartIdGet.View | src/cart/_id/get.rs:17-25 | the item view holds exactly the id, section, corridor, shelf, subshelf and photo columns of the row |
| CartIdGet.Views | src/cart/_id/get.rs:50-56 | one view per row, in order, holding the selected columns |
| CartIdGet.GetCart | src/cart/_id/get.rs:38-59 | succeeds iff both selects run and the cart exists; a missing cart is the no-row error; on success, 200, the cart with that id, and the view of exactly that cart's items, in table order |
| CartPost.IsColdValue | src/cart/post.rs:86 | the stored flag is 0 or 1, and 1 exactly when `is_cold` was sent as true |
| Store.SubshelfValue | src/cart/post.rs:84 | an absent subshelf stays absent, and a present one keeps its value when widened |
| CartPost.Bind | src/cart/post.rs:80-86 | the values bound for a request item become, with any generated id and time, a row holding that item's fields for the given cart |
| CartPost.PostCart | src/cart/post.rs:53-98 | a failing cart insert writes nothing; otherwise exactly one new cart, stamped at the cart insert, remains even if the item batch then fails; success iff the cart insert works and the batch is empty or works; on success the envelope carries 201 (the client sees 200, see Findings), the new cart, and one stored row per request item with its fields, bound to the new cart, stamped at the batch, with fresh ids; invariants kept |
| CartIdPost.Join | src/cart/_id/post.rs:72-78 | the joined text starts with the first part and ends with the last; no parts give the empty text |
| CartIdPost.IdListText | src/cart/_id/post.rs:72-78 | the id list text is empty exactly when there are no ids, and starts with the first id's text |
| CartIdPost.DeleteStatement | src/cart/_id/post.rs:71-79 | the statement is the fixed prefix, the id list text, and the fixed suffix |
| CartIdPost.NatText | src/cart/_id/post.rs:73-77 | a number's text is a non-empty string of decimal digits |
| CartIdPost.IntText | src/cart/_id/post.rs:73-77 | an id's text contains no comma |
| CartIdPost.CommaIndex | src/cart/_id/post.rs:73-77 | finds the first comma, or the end of the string when there is none |
| CartIdPost.NatTextRoundTrip | src/cart/_id/post.rs:73-77 | the decimal text of every natural number reads back as that number |
| CartIdPost.IntTextRoundTrip | src/cart/_id/post.rs:73-77 | the text of every id, negative ones included, reads back as that id |
| CartIdPost.CommaIndexAfter | src/cart/_id/post.rs:73-77 | the first comma after a comma-free prefix lies beyond the prefix |
| CartIdPost.IdListTextCons | src/cart/_id/post.rs:73-77 | the joined id list is the first id's text, then ", " and the rest when there is more |
| CartIdPost.ParseIdListHead | src/cart/_id/post.rs:73-77 | reading an id alone, or an id followed by ", " and a readable rest, gives that id first |
| CartIdPost.IdListTextRoundTrip | src/cart/_id/post.rs:72-78 | for every non-empty list, the ", "-joined id texts read back as exactly the listed ids |
| CartIdPost.DeleteStatementRoundTrip | src/cart/_id/post.rs:71-79 | for every non-empty list, the delete statement text reads back as exactly the listed ids, in order |
| CartIdPost.DeleteStatementInjective | src/cart/_id/post.rs:71-79 | different id lists give different statements |
| CartIdPost.DeleteStep | src/cart/_id/post.rs:70-86 | for a non-empty list, the statement text reads back as exactly that list, the one the delete is given; fails iff the list is non-empty and the delete reports a fault, and then changes nothing; an empty list issues no statement and returns no ids; otherwise the listed rows are gone and the listed ids that were present are returned |
| CartIdPost.InsertStep | src/cart/_id/post.rs:87-117 | fails iff the list is non-empty and there is a fault or (with foreign keys) a missing cart, and then changes nothing; otherwise appends one row per created item, bound to the path's cart, with ids fresh against the table, and returns those ids in order |
| CartIdPost.Bind | src/cart/_id/post.rs:102-108 | the values bound for a created item become, with any generated id and time, a row holding that item's fields for the path's cart |
| CartIdPost.AddedInSnapshot | src/cart/_id/post.rs:118-124 | every id appended for the cart appears in the cart's item selection |
| CartIdPost.PostCartItems | src/cart/_id/post.rs:62-135 | step by step, the result and the tables for a delete, insert or select failure, each leaving earlier steps in place; success iff no issued step fails; on success the envelope carries 201 (the client sees 200, see Findings), the distinct deleted ids that existed, the added ids in order, and exactly the cart's items after both writes; invariants kept |
| CartIdDelete.DeleteCart | src/cart/_id/delete.rs:35-48 | a failing item delete changes nothing; otherwise the cart's items are gone whatever follows; a missing cart is the no-row error, with its items already deleted; success gives 200 with `true`, and then neither the cart nor any of its items remains while other rows are untouched; invariants kept |
| Scenarios.ReadBackAppended | src/cart/_id/get.rs:38-59 | a cart appended with a fresh id, together with its appended items, is found by its id with exactly those items |
| Scenarios.CreateThenGet | src/cart/post.rs:53-98 | reading a cart just created returns that cart and the view of exactly the items created with it |
| Scenarios.RemoveAppended | src/cart/_id/post.rs:70-83 | deleting the id of a row just appended with a fresh id restores the table |
| Scenarios.AddThenRemove | src/cart/_id/post.rs:62-135 | adding one item and then deleting the id it was given reports that id as deleted and restores the item table |
| Scenarios.DeleteThenGet | src/cart/_id/delete.rs:35-48 | after a successful delete, reading the cart is the no-row error and none of its items remain |
| Scenarios.DeleteMissingCart | src/cart/_id/delete.rs:43-45 | deleting a missing cart is the no-row error and, when every item has its cart, changes nothing |
| Scenarios.DanglingWithoutForeignKeys | src/cart/_id/post.rs:87-117 | without foreign-key enforcement, items can be added to a cart that does not exist, breaking the referential invariant |
| Scenarios.ForeignKeysRefuseDangling | src/cart/_id/post.rs:87-117 | with foreign-key enforcement, the same request fails with SQLite's foreign-key message and stores nothing |
| Scenarios.ForeignKeysRefuseParentDelete | src/cart/_id/delete.rs:43-45 | with foreign-key enforcement, deleting a cart row that an item still names fails and keeps every item's cart |

## Left out

- HTTP routing, request parsing, JSON (de)serialisation and the OpenAPI documentation are not modelled. Request bodies are typed values; a malformed body is rejected by the framework before a handler runs.
- The connection pool, async execution and concurrent requests are not modelled. Handlers run one at a time against one database.
- Logging middleware, resolving the database path, creating the database file and running migrations are not modelled. The schema is fixed.
- Whether the schema declares and enforces the foreign key on `Item.cart_id` is a parameter of the database, because the migrations and connection options are not part of this model.
- Row order: SQL leaves the order of `SELECT` and `RETURNING` rows open. The model chooses table (insertion) order, and the contracts of `ListCarts`, `GetCart`, `PostCart` and `PostCartItems` fix that order; they describe the program only insofar as SQLite returns rows in insertion order.
- Store.Database.DeleteItemsById: the order of the returned ids is not claimed; only that they are distinct and exactly the listed ids that were present, because SQLite's `RETURNING` order is unspecified.
- Id allocation: SQLite may reuse the largest id after a delete. The model's counters never reuse ids, and contracts promise only that new ids are fresh against the rows present.
- Integer widths: ids, timestamps and columns are unbounded integers; `i64` overflow of generated ids is not modelled. Request fields declared `i32` are bounded subset types, and widen to `i64` without loss.
- The no-row error's text is the database driver's display text; the driver is not part of this model, so the constant is its documented message.
- Store.ForeignKeyMessage: a database failure's message is modelled as SQLite's bare text; the driver's display of a database error adds a prefix ("error returned from database: ...") that is not part of this model, so the client's 500 message carries it in front of the text modelled here.
- Store.Database.DeleteCartReturningId: the foreign key is taken to declare no `ON DELETE` action, so deleting a referenced cart is refused; a cascading key is not modelled. The schema is not part of this model, and `delete_cart` removes the items first either way.
- The `Default` value of `ServerResponse` and its schema derivations are not modelled; no handler uses them.
- Dates: `creation_date` is a clock parameter of each writing statement, standing for the database's own clock; no relation between the clock readings of two statements is assumed.

## Findings

| source | as written | input that shows it | evidently intended | confidence | as-written member | corrected member |
|---|---|---|---|---|---|---|
| src/cart/post.rs:97 | the envelope built with `success_code(..., CREATED)` is returned wrapped by `.json()`; axum answers a `Json` value with 200, and `status_code` is skipped when serialising, so the client sees 200 | any successful `POST /cart` (likewise `POST /cart/:cart_id`, src/cart/_id/post.rs:126-134) | status 201, which the envelope's own `into_response` sends | not executed | Server.JsonIntoResponse (with Server.CreatedLostThroughJson) | Server.IntoResponse |
