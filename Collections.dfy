/** The collection operations of the Kotlin standard library the schedule is
    built with: `distinct`, the stable `sortedBy` and `minOf`/`maxOf`. Each
    is a plain function with its properties in a lemma beside it, so that
    using one does not bring its properties along unasked. */
module Collections {

  predicate NoDuplicates<K(==)>(ks: seq<K>) {
    forall i, j | 0 <= i < j < |ks| :: ks[i] != ks[j]
  }

  /** `distinct`: each element once, at its first appearance. */
  function Distinct<K(==)>(ks: seq<K>): seq<K> {
    if ks == [] then []
    else
      var rest := Distinct(ks[..|ks| - 1]);
      var last := ks[|ks| - 1];
      if last in rest then rest else rest + [last]
  }

  lemma {:induction false} DistinctSpec<K>(ks: seq<K>)
    ensures forall k | k in ks :: k in Distinct(ks)
    ensures forall k | k in Distinct(ks) :: k in ks
    ensures NoDuplicates(Distinct(ks))
  {
    if ks != [] {
      var init := ks[..|ks| - 1];
      DistinctSpec(init);
      assert ks == init + [ks[|ks| - 1]];
    }
  }

  /** The position of the first occurrence of `k`. */
  function FirstIndex<K(==)>(ks: seq<K>, k: K): (i: nat)
    requires k in ks
    ensures i < |ks| && ks[i] == k
    ensures forall j | 0 <= j < i :: ks[j] != k
  {
    if ks[0] == k then 0 else 1 + FirstIndex(ks[1..], k)
  }

  /** Appending an element does not move an earlier first occurrence. */
  lemma FirstIndexSnoc<K>(ks: seq<K>, x: K, k: K)
    requires k in ks
    ensures FirstIndex(ks + [x], k) == FirstIndex(ks, k)
  {
    var i := FirstIndex(ks, k);
    assert (ks + [x])[i] == k;
  }

  /** `distinct` keeps the elements in the order of their first
      appearance. */
  lemma {:induction false} DistinctOrder<K>(ks: seq<K>)
    ensures forall k | k in Distinct(ks) :: k in ks
    ensures forall i, j | 0 <= i < j < |Distinct(ks)| ::
      Distinct(ks)[i] in ks && Distinct(ks)[j] in ks &&
      FirstIndex(ks, Distinct(ks)[i]) < FirstIndex(ks, Distinct(ks)[j])
  {
    DistinctSpec(ks);
    if ks != [] {
      var init, last := ks[..|ks| - 1], ks[|ks| - 1];
      assert ks == init + [last];
      DistinctOrder(init);
      DistinctSpec(init);
      var d, di := Distinct(ks), Distinct(init);
      forall k | k in di ensures FirstIndex(ks, k) == FirstIndex(init, k) {
        FirstIndexSnoc(init, last, k);
      }
      if last !in di {
        assert d == di + [last];
        assert last !in init;
        assert FirstIndex(ks, last) == |init|;
        forall i, j | 0 <= i < j < |d|
          ensures FirstIndex(ks, d[i]) < FirstIndex(ks, d[j])
        {
          if j == |d| - 1 {
            assert d[i] == di[i];
          } else {
            assert d[i] == di[i] && d[j] == di[j];
          }
        }
      }
    }
  }

  predicate SortedBy<T>(xs: seq<T>, key: T -> int) {
    forall i, j | 0 <= i < j < |xs| :: key(xs[i]) <= key(xs[j])
  }

  /** Places `x` after every element whose key is not greater, which keeps
      the sort stable. */
  function Insert<T>(x: T, sorted: seq<T>, key: T -> int): seq<T> {
    if sorted == [] then [x]
    else if key(x) < key(sorted[0]) then [x] + sorted
    else [sorted[0]] + Insert(x, sorted[1..], key)
  }

  lemma {:induction false} InsertSpec<T>(x: T, sorted: seq<T>, key: T -> int)
    requires SortedBy(sorted, key)
    ensures SortedBy(Insert(x, sorted, key), key)
    ensures multiset(Insert(x, sorted, key)) == multiset(sorted) + multiset{x}
  {
    InsertSorted(x, sorted, key);
    InsertKeepsElements(x, sorted, key);
  }

  /** The inserted list starts with `x` or with the old first element. */
  lemma InsertHead<T>(x: T, sorted: seq<T>, key: T -> int)
    ensures Insert(x, sorted, key)[0] == x || (|sorted| > 0 && Insert(x, sorted, key)[0] == sorted[0])
  {
  }

  lemma {:induction false} InsertKeepsElements<T>(x: T, sorted: seq<T>, key: T -> int)
    ensures multiset(Insert(x, sorted, key)) == multiset(sorted) + multiset{x}
  {
    if sorted != [] && key(x) >= key(sorted[0]) {
      InsertKeepsElements(x, sorted[1..], key);
      assert sorted == [sorted[0]] + sorted[1..];
    }
  }

  lemma {:induction false} InsertSorted<T>(x: T, sorted: seq<T>, key: T -> int)
    requires SortedBy(sorted, key)
    ensures SortedBy(Insert(x, sorted, key), key)
  {
    if sorted == [] {
    } else if key(x) < key(sorted[0]) {
      var r := [x] + sorted;
      forall i, j | 0 <= i < j < |r| ensures key(r[i]) <= key(r[j]) {
        if i == 0 {
          assert key(sorted[0]) <= key(sorted[j - 1]);
        } else {
          assert r[i] == sorted[i - 1] && r[j] == sorted[j - 1];
        }
      }
    } else {
      var tail := sorted[1..];
      var rest := Insert(x, tail, key);
      assert SortedBy(tail, key) by {
        forall i, j | 0 <= i < j < |tail| ensures key(tail[i]) <= key(tail[j]) {
          assert tail[i] == sorted[i + 1] && tail[j] == sorted[j + 1];
        }
      }
      InsertSorted(x, tail, key);
      InsertHead(x, tail, key);
      var r := [sorted[0]] + rest;
      assert key(sorted[0]) <= key(rest[0]);
      forall i, j | 0 <= i < j < |r| ensures key(r[i]) <= key(r[j]) {
        if i == 0 {
          assert j == 1 || key(rest[0]) <= key(rest[j - 1]);
        } else {
          assert r[i] == rest[i - 1] && r[j] == rest[j - 1];
        }
      }
      assert Insert(x, sorted, key) == r;
    }
  }

  /** `sortedBy`: insertion of each element in turn. */
  function SortBy<T>(xs: seq<T>, key: T -> int): seq<T> {
    if xs == [] then [] else Insert(xs[|xs| - 1], SortBy(xs[..|xs| - 1], key), key)
  }

  /** The sorted list is ascending by key and a permutation of the input. */
  lemma {:induction false} SortBySpec<T>(xs: seq<T>, key: T -> int)
    ensures SortedBy(SortBy(xs, key), key)
    ensures multiset(SortBy(xs, key)) == multiset(xs)
  {
    if xs != [] {
      var init := xs[..|xs| - 1];
      SortBySpec(init, key);
      InsertSpec(xs[|xs| - 1], SortBy(init, key), key);
      assert xs == init + [xs[|xs| - 1]];
    }
  }

  /** The key of a list of numbers sorted by their own value. */
  function Id(x: int): int { x }

  /** Sorting a list without repeats leaves it strictly ascending. */
  lemma SortedDistinctStrict(xs: seq<int>, sorted: seq<int>)
    requires NoDuplicates(xs)
    requires multiset(sorted) == multiset(xs)
    requires SortedBy(sorted, Id)
    ensures forall i, j | 0 <= i < j < |sorted| :: sorted[i] < sorted[j]
  {
    forall i, j | 0 <= i < j < |sorted|
      ensures sorted[i] < sorted[j]
    {
      assert sorted[i] <= sorted[j];
      PermutationKeepsDistinct(xs, sorted, i, j);
    }
  }

  /** A permutation of a list without repeats has none either. */
  lemma PermutationKeepsDistinct<T>(xs: seq<T>, ys: seq<T>, i: int, j: int)
    requires NoDuplicates(xs) && multiset(ys) == multiset(xs)
    requires 0 <= i < j < |ys|
    ensures ys[i] != ys[j]
  {
    if ys[i] == ys[j] {
      TwoOccurrences(ys, i, j);
      NoDuplicatesCount(xs, ys[i]);
      assert false;
    }
  }

  lemma {:induction false} NoDuplicatesCount<K>(ks: seq<K>, k: K)
    requires NoDuplicates(ks)
    ensures multiset(ks)[k] <= 1
  {
    if ks != [] {
      var init := ks[..|ks| - 1];
      assert ks == init + [ks[|ks| - 1]];
      NoDuplicatesCount(init, k);
      if ks[|ks| - 1] == k {
        assert k !in init by {
          forall i | 0 <= i < |init| ensures init[i] != k {
            assert ks[i] != ks[|ks| - 1];
          }
        }
      }
    }
  }

  lemma TwoOccurrences<K>(ks: seq<K>, i: int, j: int)
    requires 0 <= i < j < |ks| && ks[i] == ks[j]
    ensures multiset(ks)[ks[i]] >= 2
  {
    assert ks == ks[..j] + [ks[j]] + ks[j + 1..];
    assert ks[i] in ks[..j];
  }

  /** `minOf` of a non-empty list. */
  function MinOf(xs: seq<int>): int
    requires |xs| > 0
  {
    if |xs| == 1 then xs[0]
    else
      var rest := MinOf(xs[1..]);
      if xs[0] <= rest then xs[0] else rest
  }

  lemma {:induction false} MinOfSpec(xs: seq<int>)
    requires |xs| > 0
    ensures MinOf(xs) in xs
    ensures forall i | 0 <= i < |xs| :: MinOf(xs) <= xs[i]
  {
    if |xs| > 1 {
      MinOfSpec(xs[1..]);
      assert forall i | 1 <= i < |xs| :: xs[i] == xs[1..][i - 1];
    }
  }

  /** `maxOf` of a non-empty list. */
  function MaxOf(xs: seq<int>): int
    requires |xs| > 0
  {
    if |xs| == 1 then xs[0]
    else
      var rest := MaxOf(xs[1..]);
      if xs[0] >= rest then xs[0] else rest
  }

  lemma {:induction false} MaxOfSpec(xs: seq<int>)
    requires |xs| > 0
    ensures MaxOf(xs) in xs
    ensures forall i | 0 <= i < |xs| :: xs[i] <= MaxOf(xs)
  {
    if |xs| > 1 {
      MaxOfSpec(xs[1..]);
      assert forall i | 1 <= i < |xs| :: xs[i] == xs[1..][i - 1];
    }
  }
}
