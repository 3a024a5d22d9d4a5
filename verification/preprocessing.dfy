/**
  The aggregation step of `preprocessing`: each result row of the node query
  (the labels, the property keys and the number of nodes having exactly
  those) becomes a signature string, and equal signatures are merged into one
  entry whose amount is the sum of their counts.
 */
module Preprocessing {
  import opened Seqs
  import opened Orders
  import opened Sorting
  import opened Strs
  import opened Tally
  import opened Reference

  /** One row of `MATCH(n) RETURN DISTINCT labels(n), keys(n), COUNT(n)`. */
  datatype QueryRow = QueryRow(labels: seq<string>, keys: seq<string>, count: nat)

  /** The sorted labels followed by the sorted property keys, separated by spaces. */
  function Signature(row: QueryRow): string
  {
    Join(Sort(StrLess, row.labels) + Sort(StrLess, row.keys), " ")
  }

  /**
    Splitting a signature on spaces gives back the sorted labels followed by the
    sorted keys, when no label or key contains a space.
   */
  lemma SignatureSplits(row: QueryRow)
    requires |row.labels| + |row.keys| >= 1
    requires forall x :: x in row.labels + row.keys ==> ' ' !in x
    ensures Split(Signature(row), ' ') == Sort(StrLess, row.labels) + Sort(StrLess, row.keys)
    ensures Sorted(StrLess, Sort(StrLess, row.labels)) && Sorted(StrLess, Sort(StrLess, row.keys))
  {
    var a, b := Sort(StrLess, row.labels), Sort(StrLess, row.keys);
    forall i | 0 <= i < |a + b|
      ensures ' ' !in (a + b)[i]
    {
      if i < |a| {
        assert a[i] in multiset(row.labels);
        assert a[i] in row.labels + row.keys;
      } else {
        assert b[i - |a|] in multiset(row.keys);
        assert b[i - |a|] in row.labels + row.keys;
      }
    }
    SplitJoin(a + b, ' ');
    SortStringsSorted(row.labels);
    SortStringsSorted(row.keys);
  }

  /** The signature does not depend on the order in which the query lists labels or keys. */
  lemma SignatureOrderIrrelevant(r1: QueryRow, r2: QueryRow)
    requires multiset(r1.labels) == multiset(r2.labels)
    requires multiset(r1.keys) == multiset(r2.keys)
    ensures Signature(r1) == Signature(r2)
  {
    StrLessIsStrictTotalOrder();
    SortDependsOnlyOnMultiset(StrLess, r1.labels, r2.labels);
    SortDependsOnlyOnMultiset(StrLess, r1.keys, r2.keys);
  }

  /** The rows as a stream of (signature, count) pairs. */
  function Entries(rows: seq<QueryRow>): (es: seq<Entry>)
    ensures |es| == |rows|
    ensures forall i :: 0 <= i < |rows| ==> es[i] == (Signature(rows[i]), rows[i].count)
  {
    seq(|rows|, i requires 0 <= i < |rows| => (Signature(rows[i]), rows[i].count))
  }

  function KeepAll(w: string): bool
  {
    true
  }

  /** The two parallel lists as a dictionary. */
  function ToMap(keys: seq<string>, counts: seq<nat>): (m: Amounts)
    requires |keys| == |counts| && NoDup(keys)
    ensures forall x :: x in m <==> x in keys
    ensures forall i :: 0 <= i < |keys| ==> m[keys[i]] == counts[i]
  {
    map i | 0 <= i < |keys| :: keys[i] := counts[i]
  }

  /**
    `amount_dict` and `list_of_distinct_nodes`: the signatures without repetition,
    in the order each first appears among the rows; each one's amount is the
    sum of the counts of the rows that produce it; and the dictionary has
    exactly the listed signatures as keys.
   */
  function Aggregate(rows: seq<QueryRow>): (r: (Amounts, seq<string>))
    ensures NoDup(r.1)
    ensures forall i :: 0 <= i < |rows| ==> Signature(rows[i]) in r.1
    ensures forall x :: x in r.1 ==> exists i :: 0 <= i < |rows| && Signature(rows[i]) == x
    ensures FirstAppearance(r.1, Words(Entries(rows)), KeepAll)
    ensures forall x :: x in r.0 <==> x in r.1
    ensures forall x :: x in r.0 ==> r.0[x] == RowSum(rows, x)
  {
    var c := CountWhere(Entries(rows), KeepAll);
    SignaturesListed(rows, c.keys);
    CountsAreRowSums(rows, c);
    (ToMap(c.keys, c.counts), c.keys)
  }

  lemma SignaturesListed(rows: seq<QueryRow>, keys: seq<string>)
    requires forall x :: x in keys <==> x in Words(Entries(rows)) && KeepAll(x)
    ensures forall i :: 0 <= i < |rows| ==> Signature(rows[i]) in keys
    ensures forall x :: x in keys ==> exists i :: 0 <= i < |rows| && Signature(rows[i]) == x
  {
    var ws := Words(Entries(rows));
    forall i | 0 <= i < |rows|
      ensures Signature(rows[i]) in keys
    {
      assert ws[i] == Signature(rows[i]);
    }
    forall x | x in keys
      ensures exists i :: 0 <= i < |rows| && Signature(rows[i]) == x
    {
      var i := FirstIndex(ws, x);
      assert ws[i] == Signature(rows[i]);
    }
  }

  lemma CountsAreRowSums(rows: seq<QueryRow>, c: Counter)
    requires |c.keys| == |c.counts|
    requires forall i :: 0 <= i < |c.keys| ==> c.counts[i] == Weight(Entries(rows), c.keys[i])
    ensures forall i :: 0 <= i < |c.keys| ==> c.counts[i] == RowSum(rows, c.keys[i])
  {
    forall i | 0 <= i < |c.keys|
      ensures c.counts[i] == RowSum(rows, c.keys[i])
    {
      WeightIsRowSum(rows, c.keys[i]);
    }
  }

  /** A signature's amount is the sum over the rows producing it, counted row by row. */
  lemma {:induction false} WeightIsRowSum(rows: seq<QueryRow>, x: string)
    ensures Weight(Entries(rows), x) == RowSum(rows, x)
  {
    if |rows| > 0 {
      assert Entries(rows)[..|rows| - 1] == Entries(rows[..|rows| - 1]);
      WeightIsRowSum(rows[..|rows| - 1], x);
    }
  }

  /** The sum of the counts of the rows whose signature is `x`. */
  function RowSum(rows: seq<QueryRow>, x: string): nat
  {
    if |rows| == 0 then 0
    else RowSum(rows[..|rows| - 1], x) + (if Signature(rows[|rows| - 1]) == x then rows[|rows| - 1].count else 0)
  }
}
