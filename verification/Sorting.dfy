/** Stable sorting by a key, under any total order of the keys. */
module Sorting {

  ghost predicate TotalOrder<K(!new)>(leq: (K, K) -> bool) {
    && (forall a, b :: leq(a, b) || leq(b, a))
    && (forall a, b, c :: leq(a, b) && leq(b, c) ==> leq(a, c))
  }

  /** Stable insertion. */
  function Insert<T, K>(leq: (K, K) -> bool, key: T -> K, x: T, xs: seq<T>): seq<T> {
    if xs == [] || leq(key(xs[|xs| - 1]), key(x)) then xs + [x]
    else Insert(leq, key, x, xs[..|xs| - 1]) + [xs[|xs| - 1]]
  }

  function SortBy<T, K>(leq: (K, K) -> bool, key: T -> K, xs: seq<T>): seq<T> {
    if xs == [] then [] else Insert(leq, key, xs[|xs| - 1], SortBy(leq, key, xs[..|xs| - 1]))
  }

  predicate SortedBy<T, K>(leq: (K, K) -> bool, key: T -> K, xs: seq<T>) {
    forall i, j :: 0 <= i < j < |xs| ==> leq(key(xs[i]), key(xs[j]))
  }

  lemma {:induction false} InsertKeeps<T, K>(leq: (K, K) -> bool, key: T -> K, x: T, xs: seq<T>)
    ensures multiset(Insert(leq, key, x, xs)) == multiset(xs) + multiset{x}
  {
    if xs != [] && !leq(key(xs[|xs| - 1]), key(x)) {
      InsertKeeps(leq, key, x, xs[..|xs| - 1]);
      assert xs == xs[..|xs| - 1] + [xs[|xs| - 1]];
    }
  }

  lemma {:induction false} InsertSorts<T, K(!new)>(leq: (K, K) -> bool, key: T -> K, x: T, xs: seq<T>)
    requires TotalOrder(leq) && SortedBy(leq, key, xs)
    ensures SortedBy(leq, key, Insert(leq, key, x, xs))
    ensures forall i :: 0 <= i < |Insert(leq, key, x, xs)| ==> Insert(leq, key, x, xs)[i] == x || Insert(leq, key, x, xs)[i] in xs
  {
    if xs == [] {
    } else if leq(key(xs[|xs| - 1]), key(x)) {
      forall i | 0 <= i < |xs| ensures leq(key(xs[i]), key(x)) {
        assert i < |xs| - 1 ==> leq(key(xs[i]), key(xs[|xs| - 1]));
      }
    } else {
      InsertSorts(leq, key, x, xs[..|xs| - 1]);
    }
  }

  lemma {:induction false} SortByKeeps<T, K>(leq: (K, K) -> bool, key: T -> K, xs: seq<T>)
    ensures multiset(SortBy(leq, key, xs)) == multiset(xs)
  {
    if xs != [] {
      hide Insert;
      var init, last := xs[..|xs| - 1], xs[|xs| - 1];
      SortByKeeps(leq, key, init);
      InsertKeeps(leq, key, last, SortBy(leq, key, init));
      assert xs == init + [last];
    }
  }

  lemma {:induction false} SortByOrders<T, K(!new)>(leq: (K, K) -> bool, key: T -> K, xs: seq<T>)
    requires TotalOrder(leq)
    ensures SortedBy(leq, key, SortBy(leq, key, xs))
  {
    if xs != [] {
      hide Insert, SortedBy, TotalOrder;
      SortByOrders(leq, key, xs[..|xs| - 1]);
      InsertSorts(leq, key, xs[|xs| - 1], SortBy(leq, key, xs[..|xs| - 1]));
    }
  }

  /** The result is in order and holds what was given. */
  lemma SortBySorts<T, K(!new)>(leq: (K, K) -> bool, key: T -> K, xs: seq<T>)
    requires TotalOrder(leq)
    ensures SortedBy(leq, key, SortBy(leq, key, xs)) && multiset(SortBy(leq, key, xs)) == multiset(xs)
  {
    SortByOrders(leq, key, xs);
    SortByKeeps(leq, key, xs);
  }

  lemma SortByHolds<T, K(!new)>(leq: (K, K) -> bool, key: T -> K, xs: seq<T>)
    requires TotalOrder(leq)
    ensures |SortBy(leq, key, xs)| == |xs| && forall x :: x in SortBy(leq, key, xs) <==> x in xs
  {
    hide SortBy;
    SortBySorts(leq, key, xs);
    assert |multiset(SortBy(leq, key, xs))| == |multiset(xs)|;
    forall x ensures x in SortBy(leq, key, xs) <==> x in xs {
      assert x in multiset(SortBy(leq, key, xs)) <==> x in multiset(xs);
    }
  }

  // ---------- Whole numbers ----------

  predicate AtMost(a: int, b: int) { a <= b }

  lemma AtMostIsTotal()
    ensures TotalOrder(AtMost)
  {
  }
}
