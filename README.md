# Books CRUD service — Dafny model

A model of the book resource of a small FastAPI + SQLAlchemy service
(`app/main.py`). The service keeps one table of books (`id`, `title`, `pages`,
`created_at`) and exposes create, find, list (paginated), update and delete
handlers. Every fault raised while serving a request goes to one catch-all
handler that answers with the fixed envelope
`{"status_code": 500, "message": "Internal Server Error"}`.

The database behind the ORM is replaced by an abstract table, the class
`BookStore.Store`: a map from id to `Book`, the sequence of ids in the order
the store lists its rows, and the next id the auto-increment key hands out.
Each handler is a method of that class returning a `Responses.Response`
(`Ok`, `OkResult(payload)` or `Error(code, message)`). A handler that faults
returns before its commit, so the table is unchanged, and its answer is
`ExceptionHandler(fault)`.

Modules: `Wrappers` (Option), `Books` (the entity and the partial update),
`Responses` (envelopes and the catch-all), `Pagination` (page-size clamp,
offset, LIMIT/OFFSET window), `RowOrder` (listing order and row removal),
`BookStore` (the table and the handlers).

Behaviour reproduced as the code has it:

- `page_size` above 100 or below 0 becomes exactly 100; a negative size is not
  raised to 0.
- Updating a missing id faults only when `title` or `pages` is supplied, since
  only then is a field of `None` assigned. With both absent the handler
  commits nothing and answers success.
- A listing offset `(page - 1) * page_size` that does not fit the store's
  64-bit integer (for instance page 10^17 with 100 per page) makes the query
  fail, so the answer is the 500 envelope, not an empty page.
- Deleting a missing id always faults (`session.delete(None)`).
- Finding a missing id is not an error: status 200 with a null book.

## Model

| member | source | states |
|---|---|---|
| `Books.ApplyUpdate` | app/main.py:94-100 | each supplied field overwrites the stored one, each omitted field is kept; `id` and `created_at` never change |
| `Books.ApplyUpdateIdempotent` | app/main.py:94-101 | repeating the same update changes nothing further |
| `Books.ApplyEmptyUpdate` | app/main.py:97-100 | an update with neither field supplied leaves the book as it was |
| `Books.ApplyUpdateTwice` | app/main.py:97-100 | two updates compose into one in which the later supplied fields win |
| `Pagination.ClampPageSize` | app/main.py:81-82 | the result lies in [0, 100]; sizes in [0, 100] (0 included) are kept; sizes above 100 or below 0 become exactly 100 |
| `Pagination.ClampIdempotent` | app/main.py:81-82 | clamping an already clamped size changes nothing |
| `Pagination.Offset` | app/main.py:85 | the offset is 0 for page size 0, non-negative from page 1 on, and negative for pages 0 and below with a positive size |
| `Pagination.Window` | app/main.py:85 | LIMIT/OFFSET returns at most `limit` rows, the contiguous run starting at `offset`, and nothing once the offset is past the end |
| `Pagination.WindowIsSlice` | app/main.py:85 | the window is the slice of the rows between the clipped offset and the clipped offset plus limit |
| `Pagination.PagesArePrefix` | app/main.py:80-90 | over a store that returns its rows in the same order on every request, reading pages 1..k of one size in turn gives exactly the first k times size rows, with no gap and no repeat |
| `Pagination.PagesCoverAllRows` | app/main.py:80-90 | over a store that returns its rows in the same order on every request, enough pages list every row exactly once, in that order |
| `RowOrder.Without` | app/main.py:111-115 | removing a row from the listing order drops exactly that id and keeps every other one |
| `RowOrder.WithoutNoDuplicates` | app/main.py:111-115 | after a removal each remaining row is still listed once |
| `RowOrder.WithoutLength` | app/main.py:111-115 | removing a present id shortens the listing by exactly one, a missing id by none |
| `RowOrder.WithoutKeepsOrder` | app/main.py:111-115 | the remaining rows keep their relative listing order |
| `Responses.DefaultErrorResponse` | app/main.py:128-132 | builds an `Error` envelope whose HTTP status equals the `status_code` in its body and whose message is the given one; by default 500 and "Internal Server Error" |
| `Responses.ExceptionHandler` | app/main.py:122-132 | any fault becomes an `Error` with status 500 and message "Internal Server Error" |
| `Responses.FaultsAreIndistinguishable` | app/main.py:122-132 | every kind of fault yields the same response, which is never a success envelope |
| `BookStore.Store.constructor` | app/main.py:33 | a newly created table is empty and its first id is 1 |
| `BookStore.Store.Create` | app/main.py:55-65 | exactly one row is added, under an id not in the table, with the given title and pages and created_at equal to the supplied date; other rows unchanged; answer `Ok` |
| `BookStore.Store.Find` | app/main.py:68-76 | status 200 always; the row whose id matches, or null when none does; the table is not changed |
| `BookStore.Store.List` | app/main.py:79-90 | page size 10 and page 1 by default; after the clamp, the answer is the window of the stored rows at offset (page-1)*size of at most size rows, status 200 even past the last row; an offset outside the store's 64-bit range faults to the 500 envelope; a negative offset faults or reads as 0 according to the store's policy |
| `BookStore.Store.Update` | app/main.py:93-106 | on an existing id only the supplied fields change and other rows are unchanged; on a missing id the answer is the 500 envelope exactly when a field is supplied, otherwise `Ok`, and the table is unchanged |
| `BookStore.Store.Delete` | app/main.py:109-119 | on an existing id exactly that row is removed and the others keep their order; on a missing id the 500 envelope with the table unchanged |
| `BookStore.CreateThenList` | app/main.py:55-90 | creating "Dune" (412 pages) on an empty table and listing with the default page (page 1 of 10) gives exactly that book with today's date |
| `BookStore.DeleteThenFind` | app/main.py:68-119 | after a successful delete, finding the same id answers with a null book |
| `BookStore.OutOfRangeSizesListAsHundred` | app/main.py:79-90 | page sizes 150 and -5 list the same page as page size 100 |

## Left out

- The startup retry loop `recreate_database` (app/main.py:25-44): database connection attempts, sleeping between them and the process abort are I/O; the model starts from a table that exists.
- Engine and session construction and `DATABASE_URL` (app/main.py:11, 21-22): process configuration and connection-pool internals. Opening and closing a session per request is not modelled; each method is one unit of work.
- The `root` endpoint (app/main.py:50-52): it returns a constant message.
- FastAPI routing, parameter coercion and `jsonable_encoder` serialisation (app/main.py:47-52, 74, 88): the model returns the envelope as a datatype instead of JSON.
- `date.today()`: the date is a parameter of `Create`.
- Persistence failures not caused by the handlers' own code (a lost connection, a failed commit): they depend on the database, which is not modelled; if they happen they reach the same catch-all, whose behaviour is modelled.
- `BookStore.Store.Create`: ids come from a counter that never hands out an id twice, as a database sequence does; a store that assigns max(id)+1 (SQLite's INTEGER PRIMARY KEY without AUTOINCREMENT) can reuse the id of a deleted last row, so there a later find of that id returns the new book where the model returns null.
- `BookStore.Store.List`: SQL with no ORDER BY gives no guaranteed row order; the model lists rows in one fixed order (insertion order, with deleted rows taken out; updates do not move a row) and its contract speaks of that order.
- `Pagination.PagesArePrefix`: the query has no ORDER BY (app/main.py:85), so the code does not guarantee that separate requests see the rows in the same order; the lemma and `Pagination.PagesCoverAllRows` hold only over a store that keeps one order, and real pages read one request at a time may overlap or skip rows.
- `BookStore.Store.List`: what a store does with a negative OFFSET (page 0 or below) is store-dependent; the model takes it as a parameter, either a fault or an offset of 0.
- Concurrent requests on the same id: the code has no coordination between requests, and the model runs one handler at a time.
