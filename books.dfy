/** The one entity of the service: a row of the `books` table. */
module Books {
  import opened Wrappers

  /** A calendar date; only the day is kept, never a time of day. */
  datatype Date = Date(year: int, month: int, day: int)

  /**
   * `id` is assigned by the store and never changes; `createdAt` is set once,
   * when the row is created; `title` and `pages` can be overwritten.
   */
  datatype Book = Book(id: int, title: string, pages: int, createdAt: Date)

  /**
   * The partial update of `update_book`: each field that was supplied
   * overwrites the stored one, each field that was left out stays as it was.
   */
  function ApplyUpdate(b: Book, title: Option<string>, pages: Option<int>): (u: Book)
    ensures u.id == b.id && u.createdAt == b.createdAt
    ensures title.Some? ==> u.title == title.value
    ensures title.None? ==> u.title == b.title
    ensures pages.Some? ==> u.pages == pages.value
    ensures pages.None? ==> u.pages == b.pages
  {
    b.(title := title.GetOr(b.title), pages := pages.GetOr(b.pages))
  }

  /** Sending the same update twice changes nothing the second time. */
  lemma ApplyUpdateIdempotent(b: Book, title: Option<string>, pages: Option<int>)
    ensures ApplyUpdate(ApplyUpdate(b, title, pages), title, pages) == ApplyUpdate(b, title, pages)
  {
  }

  /** An update that supplies neither field leaves the book exactly as it was. */
  lemma ApplyEmptyUpdate(b: Book)
    ensures ApplyUpdate(b, None, None) == b
  {
  }

  /** Two updates in a row amount to one in which the later supplied fields win. */
  lemma ApplyUpdateTwice(b: Book, t1: Option<string>, p1: Option<int>, t2: Option<string>, p2: Option<int>)
    ensures ApplyUpdate(ApplyUpdate(b, t1, p1), t2, p2)
         == ApplyUpdate(b, if t2.Some? then t2 else t1, if p2.Some? then p2 else p1)
  {
  }
}
