// list.sort with a comparison of keys: a stable sort.
module StableSort {

  predicate SortedBy<T>(xs: seq<T>, key: T -> int) {
    forall i, j | 0 <= i < j < |xs| :: key(xs[i]) <= key(xs[j])
  }

  /** Put x behind every element whose key is not greater. */
  function Insert<T>(xs: seq<T>, x: T, key: T -> int): seq<T> {
    if xs != [] && key(xs[|xs| - 1]) > key(x) then Insert(xs[..|xs| - 1], x, key) + [xs[|xs| - 1]]
    else xs + [x]
  }

  function Sort<T>(xs: seq<T>, key: T -> int): seq<T> {
    if xs == [] then [] else Insert(Sort(xs[..|xs| - 1], key), xs[|xs| - 1], key)
  }

  function WithKey<T>(xs: seq<T>, key: T -> int, k: int): seq<T> {
    if xs == [] then []
    else WithKey(xs[..|xs| - 1], key, k) + if key(xs[|xs| - 1]) == k then [xs[|xs| - 1]] else []
  }

  lemma {:induction false} InsertElements<T>(xs: seq<T>, x: T, key: T -> int)
    ensures multiset(Insert(xs, x, key)) == multiset(xs) + multiset{x}
  {
    if xs != [] && key(xs[|xs| - 1]) > key(x) {
      var n := |xs| - 1;
      InsertElements(xs[..n], x, key);
      assert xs == xs[..n] + [xs[n]];
    }
  }

  predicate AllBelow<T>(xs: seq<T>, key: T -> int, b: int) {
    forall i | 0 <= i < |xs| :: key(xs[i]) <= b
  }

  lemma {:induction false} InsertBelow<T>(xs: seq<T>, x: T, key: T -> int, b: int)
    requires AllBelow(xs, key, b) && key(x) <= b
    ensures AllBelow(Insert(xs, x, key), key, b)
  {
    if xs != [] && key(xs[|xs| - 1]) > key(x) {
      InsertBelow(xs[..|xs| - 1], x, key, b);
    }
  }

  lemma {:induction false} InsertSorts<T>(xs: seq<T>, x: T, key: T -> int)
    requires SortedBy(xs, key)
    ensures SortedBy(Insert(xs, x, key), key)
  {
    if xs != [] && key(xs[|xs| - 1]) > key(x) {
      var init, last := xs[..|xs| - 1], xs[|xs| - 1];
      InsertSorts(init, x, key);
      InsertBelow(init, x, key, key(last));
      AppendSorted(Insert(init, x, key), last, key);
    } else {
      AppendSorted(xs, x, key);
    }
  }

  lemma AppendSorted<T>(xs: seq<T>, x: T, key: T -> int)
    requires SortedBy(xs, key) && (xs == [] || key(xs[|xs| - 1]) <= key(x) || AllBelow(xs, key, key(x)))
    ensures SortedBy(xs + [x], key)
  {
  }

  lemma WithKeyNext<T>(xs: seq<T>, x: T, key: T -> int, k: int)
    ensures WithKey(xs + [x], key, k) == WithKey(xs, key, k) + if key(x) == k then [x] else []
  {
    assert (xs + [x])[..|xs|] == xs;
  }

  /** Elements with different keys can change places without being noticed under one key. */
  lemma SwapUnnoticed<T>(xs: seq<T>, x: T, y: T, key: T -> int, k: int)
    requires key(x) != key(y)
    ensures WithKey((xs + [x]) + [y], key, k) == WithKey((xs + [y]) + [x], key, k)
  {
    WithKeyNext(xs, x, key, k);
    WithKeyNext(xs, y, key, k);
    WithKeyNext(xs + [x], y, key, k);
    WithKeyNext(xs + [y], x, key, k);
  }

  lemma {:induction false} InsertIsStable<T>(xs: seq<T>, x: T, key: T -> int, k: int)
    ensures WithKey(Insert(xs, x, key), key, k) == WithKey(xs + [x], key, k)
  {
    if xs != [] && key(xs[|xs| - 1]) > key(x) {
      var init, last := xs[..|xs| - 1], xs[|xs| - 1];
      assert xs == init + [last];
      InsertIsStable(init, x, key, k);
      WithKeyNext(Insert(init, x, key), last, key, k);
      WithKeyNext(init + [x], last, key, k);
      SwapUnnoticed(init, x, last, key, k);
    }
  }

  /** Sorted, the same elements, and elements with equal keys in their old order. */
  lemma {:induction false} SortSorts<T>(xs: seq<T>, key: T -> int)
    ensures SortedBy(Sort(xs, key), key)
    ensures multiset(Sort(xs, key)) == multiset(xs)
    ensures forall k :: WithKey(Sort(xs, key), key, k) == WithKey(xs, key, k)
  {
    if xs != [] {
      var n := |xs| - 1;
      var s := Sort(xs[..n], key);
      SortSorts(xs[..n], key);
      InsertSorts(s, xs[n], key);
      InsertElements(s, xs[n], key);
      assert xs == xs[..n] + [xs[n]];
      forall k ensures WithKey(Sort(xs, key), key, k) == WithKey(xs, key, k) {
        InsertIsStable(s, xs[n], key, k);
        WithKeyNext(s, xs[n], key, k);
      }
    }
  }
}
