/**
 * The order in which the store returns its rows, as a sequence of ids, and
 * what deleting one row does to it: the row leaves, the others keep their
 * relative order.
 */
module RowOrder {

  ghost predicate NoDuplicates(order: seq<int>) {
    forall i, j :: 0 <= i < j < |order| ==> order[i] != order[j]
  }

  /**
   * `order` with every occurrence of `id` taken out: exactly `id` leaves,
   * every other id stays, and nothing new appears.
   */
  function Without(order: seq<int>, id: int): (r: seq<int>)
    ensures forall x :: x in r <==> x in order && x != id
    ensures |r| <= |order|
  {
    if order == [] then []
    else if order[0] == id then Without(order[1..], id)
    else [order[0]] + Without(order[1..], id)
  }

  /** Removing an id keeps the order free of duplicates. */
  lemma {:induction false} WithoutNoDuplicates(order: seq<int>, id: int)
    requires NoDuplicates(order)
    ensures NoDuplicates(Without(order, id))
  {
    if order != [] {
      WithoutNoDuplicates(order[1..], id);
      var rest := Without(order[1..], id);
      if order[0] != id {
        assert order[0] !in order[1..];
        assert order[0] !in rest;
        var w := [order[0]] + rest;
        forall i, j | 0 <= i < j < |w| ensures w[i] != w[j] {
          if i == 0 {
            assert w[j] == rest[j - 1];
          } else {
            assert w[i] == rest[i - 1] && w[j] == rest[j - 1];
          }
        }
      }
    }
  }

  /** With no duplicates, removing an id that is present shortens the order by exactly one. */
  lemma {:induction false} WithoutLength(order: seq<int>, id: int)
    requires NoDuplicates(order)
    ensures |Without(order, id)| == if id in order then |order| - 1 else |order|
  {
    if order != [] {
      WithoutLength(order[1..], id);
      if order[0] == id {
        assert id !in order[1..];
      }
    }
  }

  /** The rows that stay keep their relative order: the result is an ordered subsequence. */
  lemma {:induction false} WithoutKeepsOrder(order: seq<int>, id: int, x: int, y: int)
    requires NoDuplicates(order)
    requires x in Without(order, id) && y in Without(order, id)
    ensures IndexOf(Without(order, id), x) < IndexOf(Without(order, id), y)
         <==> IndexOf(order, x) < IndexOf(order, y)
  {
    if order[0] == id {
      WithoutKeepsOrder(order[1..], id, x, y);
    } else if x != order[0] && y != order[0] {
      WithoutKeepsOrder(order[1..], id, x, y);
    }
  }

  /** The position of the first occurrence of `x` in `s`. */
  function IndexOf(s: seq<int>, x: int): (i: nat)
    requires x in s
    ensures i < |s| && s[i] == x
    ensures forall j :: 0 <= j < i ==> s[j] != x
  {
    if s[0] == x then 0 else 1 + IndexOf(s[1..], x)
  }
}
