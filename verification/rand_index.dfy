/**
  `adjusted_random_index`: the Rand index of two partitions `X` and `Y` of a
  set `S`, from the counts of the pairs of distinct elements that the two
  partitions treat alike or differently.
 */
module RandIndex {
  import opened Wrappers
  import opened Seqs

  /** How a pair is treated: together in both (`a`), in neither (`b`), only in `X` (`c`), only in `Y` (`d`). */
  datatype Kind = Both | Neither | OnlyX | OnlyY

  /** Some block of `P` holds both `x` and `y`. */
  predicate Together(P: seq<seq<string>>, x: string, y: string)
  {
    exists k :: 0 <= k < |P| && x in P[k] && y in P[k]
  }

  function Classify(X: seq<seq<string>>, Y: seq<seq<string>>, x: string, y: string): Kind
  {
    var sameX, sameY := Together(X, x, y), Together(Y, x, y);
    if sameX && sameY then Both
    else if !sameX && !sameY then Neither
    else if sameX then OnlyX
    else OnlyY
  }

  /** The number of `i < upto` for which the pair `S[i]`, `S[j]` is of kind `k`. */
  function RowCount(S: seq<string>, X: seq<seq<string>>, Y: seq<seq<string>>, j: nat, upto: nat, k: Kind): nat
    requires upto <= j < |S|
  {
    if upto == 0 then 0
    else RowCount(S, X, Y, j, upto - 1, k) + (if Classify(X, Y, S[upto - 1], S[j]) == k then 1 else 0)
  }

  /** The number of pairs `i < j < n` of kind `k`. */
  function PairCount(S: seq<string>, X: seq<seq<string>>, Y: seq<seq<string>>, n: nat, k: Kind): nat
    requires n <= |S|
  {
    if n == 0 then 0
    else PairCount(S, X, Y, n - 1, k) + RowCount(S, X, Y, n - 1, n - 1, k)
  }

  function Sum4(S: seq<string>, X: seq<seq<string>>, Y: seq<seq<string>>, n: nat): nat
    requires n <= |S|
  {
    PairCount(S, X, Y, n, Both) + PairCount(S, X, Y, n, Neither) + PairCount(S, X, Y, n, OnlyX) + PairCount(S, X, Y, n, OnlyY)
  }

  /** Each pair in a row has exactly one kind. */
  lemma {:induction false} RowTotal(S: seq<string>, X: seq<seq<string>>, Y: seq<seq<string>>, j: nat, upto: nat)
    requires upto <= j < |S|
    ensures RowCount(S, X, Y, j, upto, Both) + RowCount(S, X, Y, j, upto, Neither)
          + RowCount(S, X, Y, j, upto, OnlyX) + RowCount(S, X, Y, j, upto, OnlyY) == upto
  {
    if upto > 0 {
      RowTotal(S, X, Y, j, upto - 1);
    }
  }

  /** Every unordered pair of distinct positions is counted exactly once: `a+b+c+d = n(n-1)/2`. */
  lemma {:induction false} PairTotal(S: seq<string>, X: seq<seq<string>>, Y: seq<seq<string>>, n: nat)
    requires n <= |S|
    ensures 2 * Sum4(S, X, Y, n) == n * (n - 1)
  {
    if n > 0 {
      PairTotal(S, X, Y, n - 1);
      RowTotal(S, X, Y, n - 1, n - 1);
      assert Sum4(S, X, Y, n) == Sum4(S, X, Y, n - 1) + (n - 1);
      assert n * (n - 1) == (n - 1) * (n - 2) + 2 * (n - 1);
    }
  }

  lemma PairsOfSize(n: nat)
    ensures n < 2 <==> n * (n - 1) == 0
  {
    if n >= 2 {
      assert n * (n - 1) >= n * 1;
    }
  }

  /** `(a+b)/(a+b+c+d)`; none when `S` has fewer than two elements and the division is by zero. */
  function Rand(S: seq<string>, X: seq<seq<string>>, Y: seq<seq<string>>): (r: Option<real>)
    ensures r.None? <==> |S| < 2
    ensures r.Some? ==> 0.0 <= r.value <= 1.0
  {
    var total := Sum4(S, X, Y, |S|);
    var agree := PairCount(S, X, Y, |S|, Both) + PairCount(S, X, Y, |S|, Neither);
    PairTotal(S, X, Y, |S|);
    PairsOfSize(|S|);
    if total == 0 then None
    else
      assert agree as real <= total as real;
      Some(agree as real / total as real)
  }

  /** The loop over the blocks of a partition: whether one of them holds both elements. */
  method SameBlock(P: seq<seq<string>>, x: string, y: string) returns (same: bool)
    ensures same == Together(P, x, y)
  {
    same := false;
    var m := 0;
    while m < |P|
      invariant 0 <= m <= |P|
      invariant same == exists k :: 0 <= k < m && x in P[k] && y in P[k]
    {
      if x in P[m] && y in P[m] {
        same := true;
      }
      m := m + 1;
    }
  }

  /** The counting loops: every pair of positions `i < j` classified once. */
  method PairCounts(S: seq<string>, X: seq<seq<string>>, Y: seq<seq<string>>) returns (a: nat, b: nat, c: nat, d: nat)
    requires NoDup(S)
    ensures a == PairCount(S, X, Y, |S|, Both) && b == PairCount(S, X, Y, |S|, Neither)
    ensures c == PairCount(S, X, Y, |S|, OnlyX) && d == PairCount(S, X, Y, |S|, OnlyY)
  {
    a, b, c, d := 0, 0, 0, 0;
    var j := 0;
    while j < |S|
      invariant 0 <= j <= |S|
      invariant a == PairCount(S, X, Y, j, Both) && b == PairCount(S, X, Y, j, Neither)
      invariant c == PairCount(S, X, Y, j, OnlyX) && d == PairCount(S, X, Y, j, OnlyY)
    {
      var i := 0;
      while i < j
        invariant 0 <= i <= j
        invariant a == PairCount(S, X, Y, j, Both) + RowCount(S, X, Y, j, i, Both)
        invariant b == PairCount(S, X, Y, j, Neither) + RowCount(S, X, Y, j, i, Neither)
        invariant c == PairCount(S, X, Y, j, OnlyX) + RowCount(S, X, Y, j, i, OnlyX)
        invariant d == PairCount(S, X, Y, j, OnlyY) + RowCount(S, X, Y, j, i, OnlyY)
      {
        var sameX := SameBlock(X, S[i], S[j]);
        var sameY := SameBlock(Y, S[i], S[j]);
        if sameX && sameY {
          a := a + 1;
        } else if !sameX && !sameY {
          b := b + 1;
        } else if sameX && !sameY {
          c := c + 1;
        } else {
          d := d + 1;
        }
        i := i + 1;
      }
      j := j + 1;
    }
  }

  /** `adjusted_random_index(S, X, Y)`, none where the source divides by zero. */
  method AdjustedRandIndex(S: seq<string>, X: seq<seq<string>>, Y: seq<seq<string>>) returns (r: Option<real>)
    requires NoDup(S)
    ensures r == Rand(S, X, Y)
  {
    var a, b, c, d := PairCounts(S, X, Y);
    if a + b + c + d == 0 {
      r := None;
    } else {
      r := Some((a + b) as real / (a + b + c + d) as real);
    }
  }

  function Swap(k: Kind): Kind
  {
    match k
    case OnlyX => OnlyY
    case OnlyY => OnlyX
    case _ => k
  }

  lemma {:induction false} RowCountSwap(S: seq<string>, X: seq<seq<string>>, Y: seq<seq<string>>, j: nat, upto: nat, k: Kind)
    requires upto <= j < |S|
    ensures RowCount(S, Y, X, j, upto, k) == RowCount(S, X, Y, j, upto, Swap(k))
  {
    if upto > 0 {
      RowCountSwap(S, X, Y, j, upto - 1, k);
    }
  }

  lemma {:induction false} PairCountSwap(S: seq<string>, X: seq<seq<string>>, Y: seq<seq<string>>, n: nat, k: Kind)
    requires n <= |S|
    ensures PairCount(S, Y, X, n, k) == PairCount(S, X, Y, n, Swap(k))
  {
    if n > 0 {
      PairCountSwap(S, X, Y, n - 1, k);
      RowCountSwap(S, X, Y, n - 1, n - 1, k);
    }
  }

  /** Swapping the two partitions swaps `c` and `d` and leaves the index unchanged. */
  lemma RandSymmetric(S: seq<string>, X: seq<seq<string>>, Y: seq<seq<string>>)
    ensures PairCount(S, Y, X, |S|, OnlyX) == PairCount(S, X, Y, |S|, OnlyY)
    ensures PairCount(S, Y, X, |S|, OnlyY) == PairCount(S, X, Y, |S|, OnlyX)
    ensures Rand(S, X, Y) == Rand(S, Y, X)
  {
    PairCountSwap(S, X, Y, |S|, Both);
    PairCountSwap(S, X, Y, |S|, Neither);
    PairCountSwap(S, X, Y, |S|, OnlyX);
    PairCountSwap(S, X, Y, |S|, OnlyY);
  }

  lemma {:induction false} RowCountNoDisagreement(S: seq<string>, X: seq<seq<string>>, Y: seq<seq<string>>, j: nat, upto: nat)
    requires upto <= j < |S|
    requires forall i :: 0 <= i < upto ==> Together(X, S[i], S[j]) == Together(Y, S[i], S[j])
    ensures RowCount(S, X, Y, j, upto, OnlyX) == 0 && RowCount(S, X, Y, j, upto, OnlyY) == 0
  {
    if upto > 0 {
      RowCountNoDisagreement(S, X, Y, j, upto - 1);
    }
  }

  lemma {:induction false} PairCountNoDisagreement(S: seq<string>, X: seq<seq<string>>, Y: seq<seq<string>>, n: nat)
    requires n <= |S|
    requires forall i, j :: 0 <= i < j < n ==> Together(X, S[i], S[j]) == Together(Y, S[i], S[j])
    ensures PairCount(S, X, Y, n, OnlyX) == 0 && PairCount(S, X, Y, n, OnlyY) == 0
  {
    if n > 0 {
      PairCountNoDisagreement(S, X, Y, n - 1);
      RowCountNoDisagreement(S, X, Y, n - 1, n - 1);
    }
  }

  /** Two partitions that put the same pairs together have index 1. */
  lemma RandOfAgreeingPartitions(S: seq<string>, X: seq<seq<string>>, Y: seq<seq<string>>)
    requires |S| >= 2
    requires forall i, j :: 0 <= i < j < |S| ==> Together(X, S[i], S[j]) == Together(Y, S[i], S[j])
    ensures Rand(S, X, Y) == Some(1.0)
  {
    PairCountNoDisagreement(S, X, Y, |S|);
    PairTotal(S, X, Y, |S|);
    PairsOfSize(|S|);
    var total := Sum4(S, X, Y, |S|);
    assert total == PairCount(S, X, Y, |S|, Both) + PairCount(S, X, Y, |S|, Neither);
    assert total > 0;
    assert total as real / total as real == 1.0;
  }
}
