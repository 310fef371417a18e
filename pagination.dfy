/**
 * The arithmetic of `get_books`: the one-sided clamp of `page_size`, the
 * offset of a page, and the LIMIT/OFFSET window the store applies to its rows.
 */
module Pagination {

  const MaxPageSize: int := 100

  function Min(a: int, b: int): int { if a <= b then a else b }

  /**
   * `page_size` above 100 or below 0 becomes exactly 100; anything in [0, 100]
   * is kept. A negative size is "corrected" to the maximum, not to zero.
   */
  function ClampPageSize(pageSize: int): (r: int)
    ensures 0 <= r <= MaxPageSize
    ensures 0 <= pageSize <= MaxPageSize ==> r == pageSize
    ensures (pageSize > MaxPageSize || pageSize < 0) ==> r == MaxPageSize
  {
    if pageSize > MaxPageSize || pageSize < 0 then MaxPageSize else pageSize
  }

  /** Clamping twice is clamping once. */
  lemma ClampIdempotent(pageSize: int)
    ensures ClampPageSize(ClampPageSize(pageSize)) == ClampPageSize(pageSize)
  {
  }

  /** The number of rows skipped before page `page` (pages are numbered from 1). */
  function Offset(page: int, pageSize: int): (off: int)
    ensures pageSize == 0 ==> off == 0
    ensures page >= 1 && pageSize >= 0 ==> off >= 0
    ensures page <= 0 && pageSize > 0 ==> off < 0
  {
    (page - 1) * pageSize
  }

  /** The range of the 64-bit signed integer the store keeps an OFFSET in. */
  const MinOffset: int := -0x8000_0000_0000_0000
  const MaxOffset: int := 0x7FFF_FFFF_FFFF_FFFF

  predicate OffsetFits(offset: int) {
    MinOffset <= offset <= MaxOffset
  }

  /**
   * `LIMIT limit OFFSET offset` over the rows in the store's order: skip
   * `offset` rows, then take up to `limit` of the rest, in order.
   */
  function Window<T>(rows: seq<T>, offset: nat, limit: nat): (page: seq<T>)
    ensures |page| <= limit
    ensures |page| == if offset >= |rows| then 0 else Min(limit, |rows| - offset)
    ensures forall i :: 0 <= i < |page| ==> page[i] == rows[offset + i]
  {
    if offset >= |rows| then [] else rows[offset..Min(offset + limit, |rows|)]
  }

  /** The window as a slice of the rows (empty once the offset is past the end). */
  lemma WindowIsSlice<T>(rows: seq<T>, offset: nat, limit: nat)
    ensures Window(rows, offset, limit) == rows[Min(offset, |rows|)..Min(offset + limit, |rows|)]
  {
  }

  /** The pages 1, 2, ..., k of size `size`, listed one after another. */
  function Pages<T>(rows: seq<T>, size: nat, k: nat): seq<T>
  {
    if k == 0 then [] else Pages(rows, size, k - 1) + Window(rows, Offset(k, size), size)
  }

  /** Page k starts where page k - 1 ends. */
  lemma NextPageOffset(k: int, size: nat)
    requires k > 0
    ensures Offset(k, size) == (k - 1) * size >= 0
    ensures k * size == (k - 1) * size + size
  {
  }

  /**
   * Reading pages 1..k in turn (over an unchanged store) yields exactly the
   * first k * size rows: no row is skipped and none is returned twice.
   */
  lemma {:induction false} PagesArePrefix<T>(rows: seq<T>, size: nat, k: nat)
    ensures Pages(rows, size, k) == rows[..Min(k * size, |rows|)]
  {
    if k > 0 {
      PagesArePrefix(rows, size, k - 1);
      var start := (k - 1) * size;
      NextPageOffset(k, size);
      assert Offset(k, size) == start;
      WindowIsSlice(rows, start, size);
      var a := Min(start, |rows|);
      var b := Min(start + size, |rows|);
      assert rows[..a] + rows[a..b] == rows[..b];
    }
  }

  /** Enough pages list every row exactly once, in the store's order. */
  lemma PagesCoverAllRows<T>(rows: seq<T>, size: nat, k: nat)
    requires k * size >= |rows|
    ensures Pages(rows, size, k) == rows
  {
    PagesArePrefix(rows, size, k);
  }
}
