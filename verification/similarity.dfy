/**
  `dice_coefficient`: the Dice coefficient over the character bigrams of two
  strings, with matches counted by a merge scan over the two sorted bigram lists.
 */
module Similarity {
  import opened Orders
  import opened Sorting

  /** `[s[i:i+2] for i in range(len(s)-1)]`: empty when `s` has fewer than two characters. */
  function Bigrams(s: string): (r: seq<string>)
    ensures |r| == if |s| < 2 then 0 else |s| - 1
  {
    seq(if |s| < 2 then 0 else |s| - 1, i requires 0 <= i < |s| - 1 => s[i..i + 2])
  }

  /** The merge scan: advance both on a match, otherwise advance the smaller side. */
  function MatchCount(a: seq<string>, b: seq<string>): (m: nat)
    ensures m <= |a| && m <= |b|
    decreases |a| + |b|
  {
    if |a| == 0 || |b| == 0 then 0
    else if a[0] == b[0] then 1 + MatchCount(a[1..], b[1..])
    else if StrLess(a[0], b[0]) then MatchCount(a[1..], b)
    else MatchCount(a, b[1..])
  }

  lemma InterBothCons(x: string, A: multiset<string>, B: multiset<string>)
    ensures (multiset{x} + A) * (multiset{x} + B) == multiset{x} + A * B
  {
    forall y
      ensures ((multiset{x} + A) * (multiset{x} + B))[y] == (multiset{x} + A * B)[y]
    {
    }
  }

  lemma InterDropAbsent(x: string, A: multiset<string>, B: multiset<string>)
    requires B[x] == 0
    ensures (multiset{x} + A) * B == A * B
  {
    forall y
      ensures ((multiset{x} + A) * B)[y] == (A * B)[y]
    {
    }
  }

  /** Nothing below the head of a sorted list occurs in it. */
  lemma BelowHeadAbsent(x: string, b: seq<string>)
    requires Sorted(StrLess, b) && |b| > 0
    requires StrLess(x, b[0])
    ensures multiset(b)[x] == 0
  {
    StrLessIrreflexive(x);
    forall k | 0 <= k < |b|
      ensures b[k] != x
    {
      if k > 0 {
        assert !StrLess(b[k], b[0]);
      }
    }
  }

  /** On sorted inputs the scan counts exactly the common elements, with multiplicity. */
  lemma {:induction false} MatchCountIsIntersection(a: seq<string>, b: seq<string>)
    requires Sorted(StrLess, a) && Sorted(StrLess, b)
    ensures MatchCount(a, b) == |multiset(a) * multiset(b)|
    decreases |a| + |b|
  {
    if |a| == 0 || |b| == 0 {
      assert multiset(a) * multiset(b) == multiset{};
    } else {
      assert a == [a[0]] + a[1..];
      assert b == [b[0]] + b[1..];
      var A, B := multiset(a[1..]), multiset(b[1..]);
      assert multiset(a) == multiset{a[0]} + A;
      assert multiset(b) == multiset{b[0]} + B;
      if a[0] == b[0] {
        MatchCountIsIntersection(a[1..], b[1..]);
        InterBothCons(a[0], A, B);
      } else if StrLess(a[0], b[0]) {
        MatchCountIsIntersection(a[1..], b);
        BelowHeadAbsent(a[0], b);
        InterDropAbsent(a[0], A, multiset(b));
      } else {
        MatchCountIsIntersection(a, b[1..]);
        StrLessTotal(a[0], b[0]);
        BelowHeadAbsent(b[0], a);
        InterDropAbsent(b[0], B, multiset(a));
        assert multiset(a) * multiset(b) == multiset(b) * multiset(a);
        assert multiset(a) * B == B * multiset(a);
      }
    }
  }

  /** `dice_coefficient(a, b)`. */
  function Dice(a: string, b: string): (score: real)
    ensures a == b ==> score == 1.0
    ensures a != b && (|a| == 1 || |b| == 1) ==> score == 0.0
    ensures 0.0 <= score <= 1.0
  {
    if a == b then 1.0
    else if |a| == 1 || |b| == 1 then 0.0
    else BigramScore(a, b)
  }

  /**
    The score proper, `2*matches/(lena+lenb)`: twice the size of the multiset
    intersection of the bigrams over the total number of bigrams.
   */
  function BigramScore(a: string, b: string): (score: real)
    requires |a| >= 2 || |b| >= 2
    ensures 2 * |multiset(Bigrams(a)) * multiset(Bigrams(b))| <= |Bigrams(a)| + |Bigrams(b)|
    ensures score == Ratio(2 * |multiset(Bigrams(a)) * multiset(Bigrams(b))|, |Bigrams(a)| + |Bigrams(b)|)
    ensures 0.0 <= score <= 1.0
  {
    Ratio(2 * Matches(a, b), |Bigrams(a)| + |Bigrams(b)|)
  }

  /** The bigrams of `s`, sorted as the scan expects them. */
  function SortedBigrams(s: string): (r: seq<string>)
    ensures multiset(r) == multiset(Bigrams(s))
    ensures |r| == |Bigrams(s)|
    ensures Sorted(StrLess, r)
  {
    SortStringsSorted(Bigrams(s));
    Sort(StrLess, Bigrams(s))
  }

  /** The number of matches the scan finds over the two sorted bigram lists. */
  function Matches(a: string, b: string): (m: nat)
    ensures m == |multiset(Bigrams(a)) * multiset(Bigrams(b))|
    ensures m <= |Bigrams(a)| && m <= |Bigrams(b)|
  {
    MatchCountIsIntersection(SortedBigrams(a), SortedBigrams(b));
    MatchCount(SortedBigrams(a), SortedBigrams(b))
  }

  /** `float(p) / float(q)` for a part `p` of a whole `q`. */
  function Ratio(p: nat, q: nat): (r: real)
    requires 0 < q && p <= q
    ensures 0.0 <= r <= 1.0
  {
    assert p as real <= q as real;
    p as real / q as real
  }

  /** The score does not depend on the order of the arguments. */
  lemma DiceSymmetric(a: string, b: string)
    ensures Dice(a, b) == Dice(b, a)
  {
    if a != b && |a| != 1 && |b| != 1 {
      var A, B := multiset(Bigrams(a)), multiset(Bigrams(b));
      assert A * B == B * A;
      assert Dice(a, b) == BigramScore(a, b);
      assert Dice(b, a) == BigramScore(b, a);
    }
  }
}
