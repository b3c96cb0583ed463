/** Stable sorting by a key, as `sort_unstable` and `sort_by_key` are used. */
module Sorting {

  function Insert<T>(key: T -> int, sorted: seq<T>, x: T): seq<T> {
    if sorted == [] || key(sorted[|sorted| - 1]) <= key(x) then sorted + [x]
    else Insert(key, sorted[..|sorted| - 1], x) + [sorted[|sorted| - 1]]
  }

  function Sort<T>(key: T -> int, xs: seq<T>): seq<T> {
    if xs == [] then [] else Insert(key, Sort(key, xs[..|xs| - 1]), xs[|xs| - 1])
  }

  ghost predicate Ascends<T>(key: T -> int, xs: seq<T>) {
    forall i, j :: 0 <= i < j < |xs| ==> key(xs[i]) <= key(xs[j])
  }

  ghost predicate StrictlyAscends<T>(key: T -> int, xs: seq<T>) {
    forall i, j :: 0 <= i < j < |xs| ==> key(xs[i]) < key(xs[j])
  }

  ghost predicate DistinctKeys<T>(key: T -> int, xs: seq<T>) {
    forall i, j :: 0 <= i < j < |xs| ==> key(xs[i]) != key(xs[j])
  }

  ghost predicate SameElements<T(!new)>(a: seq<T>, b: seq<T>) {
    forall x :: x in a <==> x in b
  }

  lemma {:induction false} InsertSorts<T(!new)>(key: T -> int, sorted: seq<T>, x: T)
    requires Ascends(key, sorted)
    ensures Ascends(key, Insert(key, sorted, x))
    ensures |Insert(key, sorted, x)| == |sorted| + 1
    ensures SameElements(Insert(key, sorted, x), sorted + [x])
  {
    if sorted == [] || key(sorted[|sorted| - 1]) <= key(x) {
      assert forall y <- sorted :: key(y) <= key(x);
    } else {
      var init, last := sorted[..|sorted| - 1], sorted[|sorted| - 1];
      assert sorted == init + [last];
      InsertSorts(key, init, x);
      var inserted := Insert(key, init, x);
      forall i | 0 <= i < |inserted|
        ensures key(inserted[i]) <= key(last)
      {
        assert inserted[i] in init + [x];
      }
    }
  }

  lemma {:induction false} SortSorts<T(!new)>(key: T -> int, xs: seq<T>)
    ensures Ascends(key, Sort(key, xs))
    ensures |Sort(key, xs)| == |xs|
    ensures SameElements(Sort(key, xs), xs)
  {
    if xs == [] {
    } else {
      var init, last := xs[..|xs| - 1], xs[|xs| - 1];
      assert xs == init + [last];
      SortSorts(key, init);
      InsertSorts(key, Sort(key, init), last);
    }
  }

  lemma {:induction false} InsertStrict<T(!new)>(key: T -> int, sorted: seq<T>, x: T)
    requires StrictlyAscends(key, sorted) && forall y <- sorted :: key(y) != key(x)
    ensures StrictlyAscends(key, Insert(key, sorted, x))
  {
    if sorted == [] || key(sorted[|sorted| - 1]) <= key(x) {
      assert forall y <- sorted :: key(y) < key(x);
    } else {
      var init, last := sorted[..|sorted| - 1], sorted[|sorted| - 1];
      InsertStrict(key, init, x);
      InsertSorts(key, init, x);
      var inserted := Insert(key, init, x);
      forall i | 0 <= i < |inserted|
        ensures key(inserted[i]) < key(last)
      {
        assert inserted[i] in init + [x];
      }
    }
  }

  /** Distinct keys come out strictly ascending. */
  lemma {:induction false} SortStrict<T(!new)>(key: T -> int, xs: seq<T>)
    requires DistinctKeys(key, xs)
    ensures StrictlyAscends(key, Sort(key, xs))
  {
    if xs == [] {
    } else {
      var init, last := xs[..|xs| - 1], xs[|xs| - 1];
      SortStrict(key, init);
      SortSorts(key, init);
      InsertStrict(key, Sort(key, init), last);
    }
  }
}
