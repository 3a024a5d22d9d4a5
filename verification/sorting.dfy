/**
  Python's `sorted` (insertion sort here; on a strict total order every
  sorting algorithm yields the same list) and `itertools.groupby` used to
  drop repeated neighbours.
 */
module Sorting {
  import opened Orders

  ghost predicate Sorted<T>(less: (T, T) -> bool, s: seq<T>)
  {
    forall i, j :: 0 <= i < j < |s| ==> !less(s[j], s[i])
  }

  ghost predicate StrictlySorted<T>(less: (T, T) -> bool, s: seq<T>)
  {
    forall i, j :: 0 <= i < j < |s| ==> less(s[i], s[j])
  }

  function Insert<T>(less: (T, T) -> bool, x: T, s: seq<T>): (r: seq<T>)
    ensures multiset(r) == multiset(s) + multiset{x}
  {
    if |s| == 0 then [x]
    else if less(s[0], x) then
      assert s == [s[0]] + s[1..];
      [s[0]] + Insert(less, x, s[1..])
    else [x] + s
  }

  lemma InsertSorted<T(!new)>(less: (T, T) -> bool, x: T, s: seq<T>)
    requires StrictTotalOrder(less)
    requires Sorted(less, s)
    ensures Sorted(less, Insert(less, x, s))
  {
    if |s| > 0 {
      if less(s[0], x) {
        InsertSorted(less, x, s[1..]);
        var t := Insert(less, x, s[1..]);
        assert s == [s[0]] + s[1..];
        forall j | 0 <= j < |t|
          ensures !less(t[j], s[0])
        {
          assert t[j] in multiset(t);
          if t[j] != x {
            assert t[j] in multiset(s[1..]);
            var k :| 0 <= k < |s[1..]| && s[1..][k] == t[j];
            assert s[k + 1] == t[j];
          }
        }
      } else {
        forall j | 0 <= j < |s|
          ensures !less(s[j], x)
        {
          if j > 0 {
            assert !less(s[j], s[0]);
          }
        }
      }
    }
  }

  /** `sorted(s)`: a permutation of `s`, and sorted whenever `less` is a strict total order. */
  function Sort<T(!new)>(less: (T, T) -> bool, s: seq<T>): (r: seq<T>)
    ensures multiset(r) == multiset(s)
    ensures |r| == |s|
  {
    if |s| == 0 then []
    else
      assert s == [s[0]] + s[1..];
      var r := Insert(less, s[0], Sort(less, s[1..]));
      assert |r| == |multiset(r)|;
      r
  }

  lemma {:induction false} SortSorted<T(!new)>(less: (T, T) -> bool, s: seq<T>)
    requires StrictTotalOrder(less)
    ensures Sorted(less, Sort(less, s))
  {
    if |s| > 0 {
      SortSorted(less, s[1..]);
      InsertSorted(less, s[0], Sort(less, s[1..]));
    }
  }

  /** `sorted` on strings yields an ascending list. */
  lemma SortStringsSorted(s: seq<string>)
    ensures Sorted(StrLess, Sort(StrLess, s))
  {
    StrLessIsStrictTotalOrder();
    SortSorted(StrLess, s);
  }

  /** Two sorted permutations of one multiset are the same list. */
  lemma {:induction false} SortedUnique<T(!new)>(less: (T, T) -> bool, a: seq<T>, b: seq<T>)
    requires StrictTotalOrder(less)
    requires Sorted(less, a) && Sorted(less, b)
    requires multiset(a) == multiset(b)
    ensures a == b
  {
    if |a| == 0 {
      assert |multiset(b)| == 0;
    } else {
      SortedHeads(less, a, b);
      MultisetTail(a, b);
      assert Sorted(less, a[1..]) && Sorted(less, b[1..]);
      SortedUnique(less, a[1..], b[1..]);
      assert a == [a[0]] + a[1..];
      assert b == [b[0]] + b[1..];
    }
  }

  /** Sorted permutations of one multiset start with the same element. */
  lemma SortedHeads<T(!new)>(less: (T, T) -> bool, a: seq<T>, b: seq<T>)
    requires StrictTotalOrder(less)
    requires Sorted(less, a) && Sorted(less, b)
    requires multiset(a) == multiset(b) && |a| > 0
    ensures |b| == |a| && a[0] == b[0]
  {
    assert |b| == |multiset(b)| == |multiset(a)| == |a|;
    assert a[0] in multiset(b);
    assert b[0] in multiset(a);
    var i :| 0 <= i < |b| && b[i] == a[0];
    var j :| 0 <= j < |a| && a[j] == b[0];
    assert !less(a[0], b[0]) by {
      if i > 0 { assert !less(b[i], b[0]); }
    }
    assert !less(b[0], a[0]) by {
      if j > 0 { assert !less(a[j], a[0]); }
    }
  }

  lemma MultisetTail<T>(a: seq<T>, b: seq<T>)
    requires multiset(a) == multiset(b) && |a| > 0 && |b| > 0 && a[0] == b[0]
    ensures multiset(a[1..]) == multiset(b[1..])
  {
    assert a == [a[0]] + a[1..];
    assert b == [b[0]] + b[1..];
    assert multiset(a) == multiset{a[0]} + multiset(a[1..]);
    assert multiset(b) == multiset{b[0]} + multiset(b[1..]);
    forall x
      ensures multiset(a[1..])[x] == multiset(b[1..])[x]
    {
      assert multiset(a)[x] == multiset(b)[x];
    }
  }

  /** `sorted` depends only on the multiset of its argument. */
  lemma SortDependsOnlyOnMultiset<T(!new)>(less: (T, T) -> bool, a: seq<T>, b: seq<T>)
    requires StrictTotalOrder(less)
    requires multiset(a) == multiset(b)
    ensures Sort(less, a) == Sort(less, b)
  {
    SortSorted(less, a);
    SortSorted(less, b);
    SortedUnique(less, Sort(less, a), Sort(less, b));
  }

  /** Sorting an already sorted list changes nothing. */
  lemma SortOfSorted<T(!new)>(less: (T, T) -> bool, s: seq<T>)
    requires StrictTotalOrder(less)
    requires Sorted(less, s)
    ensures Sort(less, s) == s
  {
    SortSorted(less, s);
    SortedUnique(less, Sort(less, s), s);
  }

  /** The first element of every run of equal neighbours: `[k for k, _ in groupby(s)]`. */
  function DedupAdjacent<T(==,!new)>(s: seq<T>): (r: seq<T>)
    ensures forall x :: x in r <==> x in s
    ensures |r| <= |s|
    ensures |s| > 0 ==> |r| > 0 && r[0] == s[0]
  {
    if |s| <= 1 then s
    else if s[0] == s[1] then
      var r := DedupAdjacent(s[1..]);
      assert s == [s[0]] + s[1..];
      r
    else
      assert s == [s[0]] + s[1..];
      [s[0]] + DedupAdjacent(s[1..])
  }

  /** On a sorted list, dropping repeated neighbours leaves it strictly sorted. */
  lemma {:induction false} DedupAdjacentStrict<T(!new)>(less: (T, T) -> bool, s: seq<T>)
    requires StrictTotalOrder(less)
    requires Sorted(less, s)
    ensures StrictlySorted(less, DedupAdjacent(s))
  {
    if |s| > 1 {
      DedupAdjacentStrict(less, s[1..]);
      if s[0] != s[1] {
        var t := DedupAdjacent(s[1..]);
        forall j | 0 <= j < |t|
          ensures less(s[0], t[j])
        {
          assert t[j] in s[1..];
          var k :| 1 <= k < |s| && s[k] == t[j];
          assert !less(s[k], s[0]);
          assert !less(s[1], s[0]);
          if k > 1 {
            assert !less(s[k], s[1]);
          }
        }
      }
    }
  }
}
