/**
  Python sets of strings, represented canonically as strictly ascending
  lists: two such lists hold the same elements exactly when they are equal,
  so the set comparisons of the source become list comparisons, and iterating
  a set (whose order Python leaves unspecified) visits it in ascending order.
 */
module StrSets {
  import opened Orders
  import opened Sorting
  import opened Seqs

  ghost predicate IsCanon(s: seq<string>)
  {
    StrictlySorted(StrLess, s)
  }

  function Elems(s: seq<string>): set<string>
  {
    set x | x in s
  }

  /** `sorted(set(xs))`. */
  function Canon(xs: seq<string>): (r: seq<string>)
    ensures IsCanon(r)
    ensures forall x :: x in r <==> x in xs
  {
    StrLessIsStrictTotalOrder();
    SortSorted(StrLess, xs);
    var sorted := Sort(StrLess, xs);
    assert forall x :: x in sorted <==> x in multiset(sorted);
    DedupAdjacentStrict(StrLess, sorted);
    DedupAdjacent(sorted)
  }

  /** `set(xs)` and `sorted(set(xs))` hold the same elements; either is empty exactly when `xs` is. */
  lemma CanonElems(xs: seq<string>)
    ensures Elems(Canon(xs)) == Elems(xs)
    ensures |Canon(xs)| > 0 <==> |xs| > 0
  {
    if |xs| > 0 {
      assert xs[0] in Canon(xs);
    }
  }

  lemma CanonNoDup(s: seq<string>)
    requires IsCanon(s)
    ensures NoDup(s)
  {
    forall i, j | 0 <= i < j < |s|
      ensures s[i] != s[j]
    {
      StrLessIrreflexive(s[i]);
    }
  }

  /** Two canonical lists with the same elements are equal. */
  lemma {:induction false} CanonUnique(a: seq<string>, b: seq<string>)
    requires IsCanon(a) && IsCanon(b)
    requires forall x :: x in a <==> x in b
    ensures a == b
  {
    assert |a| > 0 ==> a[0] in b;
    assert |b| > 0 ==> b[0] in a;
    if |a| > 0 {
      var i :| 0 <= i < |b| && b[i] == a[0];
      var j :| 0 <= j < |a| && a[j] == b[0];
      assert b[0] == a[0] || StrLess(b[0], a[0]) by {
        if i > 0 { assert StrLess(b[0], b[i]); }
      }
      assert a[0] == b[0] || StrLess(a[0], b[0]) by {
        if j > 0 { assert StrLess(a[0], a[j]); }
      }
      StrLessAsymmetric(a[0], b[0]);
      assert a[0] == b[0];
      forall x
        ensures x in a[1..] <==> x in b[1..]
      {
        if x in a[1..] {
          var k :| 1 <= k < |a| && a[k] == x;
          StrLessIrreflexive(a[0]);
          assert x in b;
          assert x != b[0];
        }
        if x in b[1..] {
          var k :| 1 <= k < |b| && b[k] == x;
          StrLessIrreflexive(b[0]);
          assert x in a;
          assert x != a[0];
        }
      }
      CanonUnique(a[1..], b[1..]);
      assert a == [a[0]] + a[1..] && b == [b[0]] + b[1..];
    }
  }

  /** Equal-as-sets canonical lists are equal lists, and conversely. */
  lemma CanonEqIff(a: seq<string>, b: seq<string>)
    requires IsCanon(a) && IsCanon(b)
    ensures a == b <==> Elems(a) == Elems(b)
  {
    if Elems(a) == Elems(b) {
      forall x
        ensures x in a <==> x in b
      {
        assert x in a <==> x in Elems(a);
      }
      CanonUnique(a, b);
    }
  }

  lemma {:induction false} FilterCanon(s: seq<string>, keep: string -> bool)
    requires IsCanon(s)
    ensures IsCanon(Filter(s, keep))
  {
    if |s| > 0 {
      FilterCanon(s[1..], keep);
      var t := Filter(s[1..], keep);
      forall j | 0 <= j < |t|
        ensures StrLess(s[0], t[j])
      {
        assert t[j] in s[1..];
      }
    }
  }

  /** `a & b`. */
  function Inter(a: seq<string>, b: seq<string>): (r: seq<string>)
    requires IsCanon(a)
    ensures IsCanon(r)
    ensures forall x :: x in r <==> x in a && x in b
  {
    FilterCanon(a, x => x in b);
    Filter(a, x => x in b)
  }

  /** `a - b`. */
  function Diff(a: seq<string>, b: seq<string>): (r: seq<string>)
    requires IsCanon(a)
    ensures IsCanon(r)
    ensures forall x :: x in r <==> x in a && x !in b
  {
    FilterCanon(a, x => x !in b);
    Filter(a, x => x !in b)
  }

  /** `a <= b` (`a.issubset(b)`). */
  predicate SubsetEq(a: seq<string>, b: seq<string>)
  {
    forall x :: x in a ==> x in b
  }
}
