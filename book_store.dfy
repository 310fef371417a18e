/**
 * The book resource handlers over an abstract `books` table.
 *
 * The table is a map from id to row, the order in which the store lists its
 * rows, and the next id its auto-increment key will hand out. Each handler
 * is one unit of work against the table: it either commits and answers with
 * a success envelope, or faults before committing, leaves the table as it
 * was, and the catch-all answers with the fixed 500 envelope.
 */
module BookStore {
  import opened Wrappers
  import opened Books
  import opened Responses
  import opened Pagination
  import opened RowOrder

  /** The rows named by `order`, looked up in `books`. */
  function RowsOf(order: seq<int>, books: map<int, Book>): (rows: seq<Book>)
    requires forall i :: 0 <= i < |order| ==> order[i] in books
    ensures |rows| == |order|
    ensures forall i :: 0 <= i < |order| ==> rows[i] == books[order[i]]
  {
    seq(|order|, i requires 0 <= i < |order| => books[order[i]])
  }

  /** How the store treats an OFFSET below zero (reached only with `page` <= 0). */
  datatype OffsetPolicy =
    | RejectNegative   // the query fails, so the request faults
    | NegativeAsZero   // the store reads it as OFFSET 0

  class Store {
    var books: map<int, Book>
    var order: seq<int>
    var nextId: int

    /** Rows are keyed by their own id, ids come from the counter, and `order` lists each row once. */
    ghost predicate Valid()
      reads this
    {
      && nextId >= 1
      && (forall id :: id in books ==> books[id].id == id && 1 <= id < nextId)
      && (forall id :: id in books <==> id in order)
      && NoDuplicates(order)
    }

    /** The rows in the order the store returns them. */
    function Rows(): (rows: seq<Book>)
      reads this
      requires Valid()
      ensures |rows| == |order|
      ensures forall i :: 0 <= i < |order| ==> order[i] in books && rows[i] == books[order[i]]
    {
      assert forall i :: 0 <= i < |order| ==> order[i] in order;
      RowsOf(order, books)
    }

    /** An empty table whose first id will be 1. */
    constructor ()
      ensures Valid()
      ensures books == map[] && order == [] && nextId == 1
    {
      books := map[];
      order := [];
      nextId := 1;
    }

    /**
     * `create_book`: adds one row under a fresh id, with the given title and
     * pages and `today` as its creation date; no other row changes.
     */
    method Create(title: string, pages: int, today: Date) returns (r: Response)
      requires Valid()
      modifies this
      ensures Valid()
      ensures r == Ok
      ensures old(nextId) !in old(books)
      ensures books == old(books)[old(nextId) := Book(old(nextId), title, pages, today)]
      ensures order == old(order) + [old(nextId)] && nextId == old(nextId) + 1
    {
      var book := Book(nextId, title, pages, today);
      books := books[nextId := book];
      order := order + [nextId];
      nextId := nextId + 1;
      r := Ok;
    }

    /** `find_book`: the row with that id, or null, always with status 200; nothing changes. */
    method Find(id: int) returns (r: Response)
      requires Valid()
      ensures r.OkResult? && r.result.BookResult? && r.HttpStatus() == 200
      ensures id in books ==> r.result.book == Some(books[id]) && r.result.book.value.id == id
      ensures id !in books ==> r.result.book == None
    {
      var found := if id in books then Some(books[id]) else None;
      r := OkResult(BookResult(found));
    }

    /**
     * `get_books`: clamps the page size, then answers with the rows from offset
     * `(page - 1) * size` on, at most `size` of them; a page past the end is an
     * empty list, not an error. An offset the store cannot hold in a 64-bit
     * integer faults, and so does a negative one on a store that rejects it.
     * Nothing changes. Without parameters it lists page 1 of 10.
     */
    method List(policy: OffsetPolicy, pageSize: int := 10, page: int := 1) returns (r: Response)
      requires Valid()
      ensures var size := ClampPageSize(pageSize);
              var offset := Offset(page, size);
              if !OffsetFits(offset) then
                r == ExceptionHandler(OffsetOutOfRange)
              else if offset < 0 && policy == RejectNegative then
                r == ExceptionHandler(NegativeOffset)
              else
                r == OkResult(BooksResult(Window(Rows(), if offset < 0 then 0 else offset, size)))
    {
      var size := ClampPageSize(pageSize);
      var offset := Offset(page, size);
      if !OffsetFits(offset) {
        r := ExceptionHandler(OffsetOutOfRange);
        return;
      }
      if offset < 0 {
        match policy
        case RejectNegative =>
          r := ExceptionHandler(NegativeOffset);
          return;
        case NegativeAsZero =>
          offset := 0;
      }
      r := OkResult(BooksResult(Window(Rows(), offset, size)));
    }

    /**
     * `update_book`: on an existing row, overwrites the supplied fields and
     * nothing else. On a missing id, setting a field dereferences null and the
     * request faults, so the answer is the 500 envelope exactly when a field
     * was supplied; with neither field supplied it commits nothing and succeeds.
     */
    method Update(id: int, title: Option<string>, pages: Option<int>) returns (r: Response)
      requires Valid()
      modifies this
      ensures Valid()
      ensures order == old(order) && nextId == old(nextId)
      ensures id in old(books) ==>
                r == Ok && books == old(books)[id := ApplyUpdate(old(books)[id], title, pages)]
      ensures id !in old(books) ==>
                books == old(books) &&
                r == if title.Some? || pages.Some? then ExceptionHandler(AttributeOfNone) else Ok
    {
      var book := if id in books then Some(books[id]) else None;
      if title.Some? {
        if book.None? {
          r := ExceptionHandler(AttributeOfNone);
          return;
        }
        book := Some(book.value.(title := title.value));
      }
      if pages.Some? {
        if book.None? {
          r := ExceptionHandler(AttributeOfNone);
          return;
        }
        book := Some(book.value.(pages := pages.value));
      }
      // commit
      if book.Some? {
        books := books[id := book.value];
      }
      r := Ok;
    }

    /**
     * `delete_book`: removes exactly that row, the others keep their place in
     * the listing order. A missing id faults with the table unchanged.
     */
    method Delete(id: int) returns (r: Response)
      requires Valid()
      modifies this
      ensures Valid()
      ensures nextId == old(nextId)
      ensures id in old(books) ==>
                r == Ok && books == old(books) - {id} && order == Without(old(order), id)
      ensures id !in old(books) ==>
                r == ExceptionHandler(DeleteOfNone) && books == old(books) && order == old(order)
    {
      var book := if id in books then Some(books[id]) else None;
      if book.None? {
        r := ExceptionHandler(DeleteOfNone);
        return;
      }
      WithoutNoDuplicates(order, id);
      books := books - {id};
      order := Without(order, id);
      r := Ok;
    }
  }

  /**
   * Creating a book and listing the first page of ten on a fresh table gives
   * exactly that book, with the given title and pages and today's date.
   */
  method CreateThenList(today: Date) returns (created: Response, listed: Response)
    ensures created == Ok
    ensures listed == OkResult(BooksResult([Book(1, "Dune", 412, today)]))
  {
    var store := new Store();
    created := store.Create("Dune", 412, today);
    var rows := store.Rows();
    assert rows == [Book(1, "Dune", 412, today)];
    assert Window(rows, 0, 10) == rows;
    listed := store.List(RejectNegative);
  }

  /** After a successful delete, finding the same id gives null. */
  method DeleteThenFind(store: Store, id: int) returns (deleted: Response, found: Response)
    requires store.Valid() && id in store.books
    modifies store
    ensures deleted == Ok && found == OkResult(BookResult(None))
  {
    deleted := store.Delete(id);
    found := store.Find(id);
  }

  /** Out-of-range page sizes, above or below, list the same page as a size of 100. */
  method OutOfRangeSizesListAsHundred(store: Store, page: int, policy: OffsetPolicy)
    returns (above: Response, below: Response, hundred: Response)
    requires store.Valid()
    ensures above == hundred && below == hundred
  {
    above := store.List(policy, 150, page);
    below := store.List(policy, -5, page);
    hundred := store.List(policy, 100, page);
  }
}
