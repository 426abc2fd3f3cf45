/**
 Strictly ascending sequences of integers: the order in which ids are handed out
 (and `find` returns documents), and the order a `$sort: { _id: 1 }` stage gives
 the group keys of an aggregation.
 */
module Ordering {

  predicate StrictlyAscending(xs: seq<int>) {
    forall i, j :: 0 <= i < j < |xs| ==> xs[i] < xs[j]
  }

  /** The tail of an ascending sequence is ascending and lies above its head. */
  lemma AscendingUncons(xs: seq<int>)
    requires |xs| > 0 && StrictlyAscending(xs)
    ensures StrictlyAscending(xs[1..])
    ensures forall y :: y in xs[1..] ==> xs[0] < y
  {
  }

  lemma AscendingCons(x: int, xs: seq<int>)
    requires StrictlyAscending(xs)
    requires forall y :: y in xs ==> x < y
    ensures StrictlyAscending([x] + xs)
  {
    var r := [x] + xs;
    forall i, j | 0 <= i < j < |r| ensures r[i] < r[j] {
      assert r[j] == xs[j - 1];
      assert r[j] in xs;
    }
  }
}
