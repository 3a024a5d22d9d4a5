/**
  Weighted occurrence counting as the source does it twice: a stream of
  (token, weight) pairs folded into distinct tokens in order of first
  appearance, each with the sum of its weights.
 */
module Tally {
  import opened Seqs

  type Entry = (string, nat)

  function Words(s: seq<Entry>): (ws: seq<string>)
    ensures |ws| == |s|
    ensures forall i :: 0 <= i < |s| ==> ws[i] == s[i].0
  {
    seq(|s|, i requires 0 <= i < |s| => s[i].0)
  }

  /** Sum of the weights of every occurrence of `w` in the stream. */
  function Weight(s: seq<Entry>, w: string): nat
  {
    if |s| == 0 then 0
    else Weight(s[..|s| - 1], w) + (if s[|s| - 1].0 == w then s[|s| - 1].1 else 0)
  }

  lemma {:induction false} WeightAppend(a: seq<Entry>, b: seq<Entry>, w: string)
    ensures Weight(a + b, w) == Weight(a, w) + Weight(b, w)
  {
    if |b| > 0 {
      assert (a + b)[..|a + b| - 1] == a + b[..|b| - 1];
      WeightAppend(a, b[..|b| - 1], w);
    } else {
      assert a + b == a;
    }
  }

  lemma {:induction false} WeightAbsent(s: seq<Entry>, w: string)
    requires w !in Words(s)
    ensures Weight(s, w) == 0
  {
    if |s| > 0 {
      assert Words(s[..|s| - 1]) == Words(s)[..|s| - 1];
      WeightAbsent(s[..|s| - 1], w);
    }
  }

  /**
    `keys` lists, without repetition, exactly the words of `ws` that satisfy
    `keep`, in the order in which each first appears in `ws`.
   */
  ghost predicate FirstAppearance(keys: seq<string>, ws: seq<string>, keep: string -> bool)
  {
    && NoDup(keys)
    && (forall x :: x in keys <==> x in ws && keep(x))
    && (forall i, j :: 0 <= i < j < |keys| ==> FirstIndex(ws, keys[i]) < FirstIndex(ws, keys[j]))
  }

  lemma FirstIndexAppend(ws: seq<string>, w: string, x: string)
    requires x in ws
    ensures FirstIndex(ws + [w], x) == FirstIndex(ws, x)
  {
    var i := FirstIndex(ws, x);
    var k := FirstIndex(ws + [w], x);
    assert (ws + [w])[i] == x;
    assert k <= i;
    assert ws[k] == x;
  }

  /** Parallel lists of distinct tokens and their running totals (`labs`/`values_labs`). */
  datatype Counter = Counter(keys: seq<string>, counts: seq<nat>)

  /** One step of the counting loop: add `amt` to `w`'s total, appending `w` if it is new. */
  function Bump(c: Counter, w: string, amt: nat): (r: Counter)
    requires |c.keys| == |c.counts|
    ensures |r.keys| == |r.counts|
    ensures |r.keys| == if w in c.keys then |c.keys| else |c.keys| + 1
    ensures r.keys[..|c.keys|] == c.keys && w in r.keys
    ensures r.counts[FirstIndex(r.keys, w)] == amt + if w in c.keys then c.counts[FirstIndex(c.keys, w)] else 0
    ensures forall i :: 0 <= i < |c.keys| && c.keys[i] != w ==> r.counts[i] == c.counts[i]
  {
    if w in c.keys then
      var i := FirstIndex(c.keys, w);
      Counter(c.keys, c.counts[i := c.counts[i] + amt])
    else
      Counter(c.keys + [w], c.counts + [amt])
  }

  /** Fold of the whole stream, counting only tokens that satisfy `keep`. */
  function CountWhere(s: seq<Entry>, keep: string -> bool): (c: Counter)
    ensures |c.keys| == |c.counts|
    ensures FirstAppearance(c.keys, Words(s), keep)
    ensures forall i :: 0 <= i < |c.keys| ==> c.counts[i] == Weight(s, c.keys[i])
  {
    if |s| == 0 then Counter([], [])
    else
      var init := s[..|s| - 1];
      var e := s[|s| - 1];
      var c0 := CountWhere(init, keep);
      var c := if keep(e.0) then Bump(c0, e.0, e.1) else c0;
      assert s == init + [e];
      CountWhereStep(init, e, keep, c0, c);
      c
  }

  lemma CountWhereStep(init: seq<Entry>, e: Entry, keep: string -> bool, c0: Counter, c: Counter)
    requires |c0.keys| == |c0.counts|
    requires FirstAppearance(c0.keys, Words(init), keep)
    requires forall i :: 0 <= i < |c0.keys| ==> c0.counts[i] == Weight(init, c0.keys[i])
    requires c == if keep(e.0) then Bump(c0, e.0, e.1) else c0
    ensures FirstAppearance(c.keys, Words(init + [e]), keep)
    ensures forall i :: 0 <= i < |c.keys| ==> c.counts[i] == Weight(init + [e], c.keys[i])
  {
    StepKeys(init, e, keep, c0, c);
    StepCounts(init, e, keep, c0, c);
  }

  lemma StepKeys(init: seq<Entry>, e: Entry, keep: string -> bool, c0: Counter, c: Counter)
    requires FirstAppearance(c0.keys, Words(init), keep)
    requires c.keys == if keep(e.0) && e.0 !in c0.keys then c0.keys + [e.0] else c0.keys
    ensures FirstAppearance(c.keys, Words(init + [e]), keep)
  {
    var s := init + [e];
    var ws := Words(s);
    assert ws == Words(init) + [e.0];
    forall x | x in Words(init)
      ensures FirstIndex(ws, x) == FirstIndex(Words(init), x)
    {
      FirstIndexAppend(Words(init), e.0, x);
    }
    if keep(e.0) && e.0 !in c0.keys {
      assert e.0 !in Words(init);
      assert FirstIndex(ws, e.0) == |init|;
      forall i | 0 <= i < |c0.keys|
        ensures FirstIndex(ws, c0.keys[i]) < FirstIndex(ws, e.0)
      {
        assert c0.keys[i] in Words(init);
      }
    }
  }

  lemma StepCounts(init: seq<Entry>, e: Entry, keep: string -> bool, c0: Counter, c: Counter)
    requires |c0.keys| == |c0.counts|
    requires FirstAppearance(c0.keys, Words(init), keep)
    requires forall i :: 0 <= i < |c0.keys| ==> c0.counts[i] == Weight(init, c0.keys[i])
    requires c == if keep(e.0) then Bump(c0, e.0, e.1) else c0
    ensures forall i :: 0 <= i < |c.keys| ==> c.counts[i] == Weight(init + [e], c.keys[i])
  {
    var s := init + [e];
    assert s[..|s| - 1] == init;
    if keep(e.0) && e.0 !in c0.keys {
      assert e.0 !in Words(init);
      WeightAbsent(init, e.0);
    }
  }
}
