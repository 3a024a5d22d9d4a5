/**
  Supertype discovery for labelled node types: `list_intersections` (the
  distinct proper, non-empty pairwise intersections of label sets),
  `crt_inheritance_edge` (a `SubtypeOf` edge between two comparable label
  sets) and the dict manipulation of `infer_node_hierarchies`.
  Label sets are canonical lists (`StrSets`).
 */
module Hierarchies {
  import opened Wrappers
  import opened Seqs
  import opened Orders
  import opened Sorting
  import opened Strs
  import opened StrSets
  import opened FormatUtils
  import opened Json

  // ---------------------------------------------------------------------------
  // list_intersections

  /** `tab[i] & tab[j]`. */
  function PairInter(tab: seq<seq<string>>, i: nat, j: nat): (r: seq<string>)
    requires i < |tab| && j < |tab|
    ensures IsCanon(r)
    ensures forall x :: x in r <==> x in tab[i] && x in tab[j]
  {
    Inter(Canon(tab[i]), tab[j])
  }

  /** The intersection is kept: it is not empty and not all of `tab[i]`. */
  predicate Qualifies(tab: seq<seq<string>>, i: nat, j: nat)
    requires i < |tab| && j < |tab|
  {
    |PairInter(tab, i, j)| > 0 && PairInter(tab, i, j) != Canon(tab[i])
  }

  /** The intersections appended for row `i`, partners `j` from `from` on, in loop order. */
  function RowInters(tab: seq<seq<string>>, i: nat, from: nat): (r: seq<seq<string>>)
    requires i < |tab|
    ensures forall x :: x in r <==> exists j :: from <= j < |tab| && Qualifies(tab, i, j) && PairInter(tab, i, j) == x
    decreases |tab| - from
  {
    if from >= |tab| then []
    else
      var rest := RowInters(tab, i, from + 1);
      if Qualifies(tab, i, from) then [PairInter(tab, i, from)] + rest else rest
  }

  /** `inters` after the double loop, from row `i` on. */
  function Inters(tab: seq<seq<string>>, i: nat): (r: seq<seq<string>>)
    ensures forall x :: x in r <==>
      exists a, b :: i <= a < b < |tab| && Qualifies(tab, a, b) && PairInter(tab, a, b) == x
    decreases |tab| - i
  {
    if i >= |tab| then []
    else
      var row, rest := RowInters(tab, i, i + 1), Inters(tab, i + 1);
      IntersStep(tab, i, row, rest);
      row + rest
  }

  lemma IntersStep(tab: seq<seq<string>>, i: nat, row: seq<seq<string>>, rest: seq<seq<string>>)
    requires i < |tab|
    requires forall x :: x in row <==> exists j :: i + 1 <= j < |tab| && Qualifies(tab, i, j) && PairInter(tab, i, j) == x
    requires forall x :: x in rest <==> exists a, b :: i + 1 <= a < b < |tab| && Qualifies(tab, a, b) && PairInter(tab, a, b) == x
    ensures forall x :: x in row + rest <==> exists a, b :: i <= a < b < |tab| && Qualifies(tab, a, b) && PairInter(tab, a, b) == x
  {
    forall x | x in row + rest
      ensures exists a, b :: i <= a < b < |tab| && Qualifies(tab, a, b) && PairInter(tab, a, b) == x
    {
      if x in row {
        var j :| i + 1 <= j < |tab| && Qualifies(tab, i, j) && PairInter(tab, i, j) == x;
      }
    }
    forall x | exists a, b :: i <= a < b < |tab| && Qualifies(tab, a, b) && PairInter(tab, a, b) == x
      ensures x in row + rest
    {
      var a, b :| i <= a < b < |tab| && Qualifies(tab, a, b) && PairInter(tab, a, b) == x;
      if a == i {
        assert x in row;
      } else {
        assert x in rest;
      }
    }
  }

  /**
    `list_intersections(tab)`: every qualifying pairwise intersection and
    nothing else, each set once, in ascending list order.
   */
  function ListIntersections(tab: seq<seq<string>>): (r: seq<seq<string>>)
    ensures forall x :: x in r <==> exists i, j :: 0 <= i < j < |tab| && Qualifies(tab, i, j) && PairInter(tab, i, j) == x
    ensures StrictlySorted(ListLess, r)
    ensures NoDup(r)
    ensures forall k :: 0 <= k < |r| ==> IsCanon(r[k]) && |r[k]| > 0
  {
    var all := Inters(tab, 0);
    SortDedup(all);
    IntersCanon(tab, all);
    DedupAdjacent(Sort(ListLess, all))
  }

  /** Sorting and dropping repeated neighbours keeps the same elements, each once, strictly ascending. */
  lemma SortDedup(all: seq<seq<string>>)
    ensures var r := DedupAdjacent(Sort(ListLess, all));
      (forall x :: x in r <==> x in all) && StrictlySorted(ListLess, r) && NoDup(r)
  {
    var sorted := Sort(ListLess, all);
    assert forall x :: x in sorted <==> x in multiset(sorted);
    ListLessIsStrictTotalOrder();
    SortSorted(ListLess, all);
    DedupAdjacentStrict(ListLess, sorted);
    StrictlySortedNoDup(DedupAdjacent(sorted));
  }

  lemma IntersCanon(tab: seq<seq<string>>, all: seq<seq<string>>)
    requires forall x :: x in all ==> exists i, j :: 0 <= i < j < |tab| && Qualifies(tab, i, j) && PairInter(tab, i, j) == x
    ensures forall x :: x in all ==> IsCanon(x) && |x| > 0
  {
    forall x | x in all
      ensures IsCanon(x) && |x| > 0
    {
      var i, j :| 0 <= i < j < |tab| && Qualifies(tab, i, j) && PairInter(tab, i, j) == x;
    }
  }

  lemma StrictlySortedNoDup(s: seq<seq<string>>)
    requires StrictlySorted(ListLess, s)
    ensures NoDup(s)
  {
    forall i, j | 0 <= i < j < |s|
      ensures s[i] != s[j]
    {
      ListLessIrreflexive(s[i]);
    }
  }

  // ---------------------------------------------------------------------------
  // crt_inheritance_edge

  /** `sublab + "::SubtypeOf::" + superlab`. */
  function SubtypeKey(sub: seq<string>, super: seq<string>): string
  {
    LabelFormat(sub) + "::SubtypeOf::" + LabelFormat(super)
  }

  /** Python's `a == b` on sets. */
  predicate SameSet(a: seq<string>, b: seq<string>)
  {
    SubsetEq(a, b) && SubsetEq(b, a)
  }

  /** On canonical lists, set equality is list equality. */
  lemma SameSetCanon(a: seq<string>, b: seq<string>)
    requires IsCanon(a) && IsCanon(b)
    ensures SameSet(a, b) <==> a == b
  {
    if SameSet(a, b) {
      CanonUnique(a, b);
    }
  }

  /** The edge key for two label sets when one strictly contains the other (the larger is the subtype). */
  function EdgeKeyOf(a: seq<string>, b: seq<string>): (r: Option<string>)
    ensures r.Some? <==> !SameSet(a, b) && (SubsetEq(a, b) || SubsetEq(b, a))
    ensures SubsetEq(b, a) && !SameSet(a, b) ==> r == Some(SubtypeKey(a, b))
    ensures SubsetEq(a, b) && !SameSet(a, b) ==> r == Some(SubtypeKey(b, a))
  {
    if SameSet(a, b) then None
    else if SubsetEq(b, a) then Some(SubtypeKey(a, b))
    else if SubsetEq(a, b) then Some(SubtypeKey(b, a))
    else None
  }

  /**
    `crt_inheritance_edge(elem0, elem1, edges, nodes)`: when one set strictly
    contains the other, the edge `larger::SubtypeOf::smaller` with an empty
    dict; for equal or incomparable sets, nothing. No other entry changes,
    and which of the two sets comes first does not matter.
   */
  function InheritanceEdge(a: seq<string>, b: seq<string>, edges: seq<Field>): (r: seq<Field>)
    ensures EdgeKeyOf(a, b).None? ==> r == edges
    ensures EdgeKeyOf(a, b).Some? ==>
      && Keys(r) == (if EdgeKeyOf(a, b).value in Keys(edges) then Keys(edges) else Keys(edges) + [EdgeKeyOf(a, b).value])
      && Get(r, EdgeKeyOf(a, b).value) == Some(JObj([]))
      && forall k :: k != EdgeKeyOf(a, b).value ==> Get(r, k) == Get(edges, k)
  {
    if !SameSet(a, b) then
      if SubsetEq(b, a) then Set(edges, SubtypeKey(a, b), JObj([]))
      else if SubsetEq(a, b) then Set(edges, SubtypeKey(b, a), JObj([]))
      else edges
    else edges
  }

  /** The order of the two sets is irrelevant. */
  lemma InheritanceEdgeSymmetric(a: seq<string>, b: seq<string>, edges: seq<Field>)
    ensures InheritanceEdge(a, b, edges) == InheritanceEdge(b, a, edges)
  {
  }

  // ---------------------------------------------------------------------------
  // infer_node_hierarchies

  /** `set(key.lstrip(":").split(":"))`. */
  function LabelSet(key: string): (r: seq<string>)
    ensures IsCanon(r)
    ensures forall x :: x in r <==> x in Split(LStrip(key, ':'), ':')
  {
    Canon(Split(LStrip(key, ':'), ':'))
  }

  function LabelSets(fs: seq<Field>): (r: seq<seq<string>>)
    ensures |r| == |fs|
    ensures forall i :: 0 <= i < |fs| ==> r[i] == LabelSet(fs[i].key)
  {
    seq(|fs|, i requires 0 <= i < |fs| => LabelSet(fs[i].key))
  }

  /** `nodes.setdefault(label_format(stype), {})` for each supertype in turn. */
  function AddSupertypes(nodes: seq<Field>, stypes: seq<seq<string>>): (r: seq<Field>)
    ensures |Keys(r)| >= |Keys(nodes)| && Keys(r)[..|nodes|] == Keys(nodes)
    ensures forall k :: k in Keys(r) <==> k in Keys(nodes) || exists s :: s in stypes && LabelFormat(s) == k
    ensures forall k :: k in Keys(nodes) ==> Get(r, k) == Get(nodes, k)
    ensures forall k :: k !in Keys(nodes) && k in Keys(r) ==> Get(r, k) == Some(JObj([]))
    decreases |stypes|
  {
    if |stypes| == 0 then nodes
    else
      var n1 := SetDefault(nodes, LabelFormat(stypes[0]), JObj([]));
      var r := AddSupertypes(n1, stypes[1..]);
      AddSupertypesStep(nodes, stypes, n1, r);
      r
  }

  lemma AddSupertypesStep(nodes: seq<Field>, stypes: seq<seq<string>>, n1: seq<Field>, r: seq<Field>)
    requires |stypes| > 0 && n1 == SetDefault(nodes, LabelFormat(stypes[0]), JObj([]))
    requires |Keys(r)| >= |Keys(n1)| && Keys(r)[..|n1|] == Keys(n1)
    requires forall k :: k in Keys(r) <==> k in Keys(n1) || exists s :: s in stypes[1..] && LabelFormat(s) == k
    requires forall k :: k in Keys(n1) ==> Get(r, k) == Get(n1, k)
    requires forall k :: k !in Keys(n1) && k in Keys(r) ==> Get(r, k) == Some(JObj([]))
    ensures |Keys(r)| >= |Keys(nodes)| && Keys(r)[..|nodes|] == Keys(nodes)
    ensures forall k :: k in Keys(r) <==> k in Keys(nodes) || exists s :: s in stypes && LabelFormat(s) == k
    ensures forall k :: k in Keys(nodes) ==> Get(r, k) == Get(nodes, k)
    ensures forall k :: k !in Keys(nodes) && k in Keys(r) ==> Get(r, k) == Some(JObj([]))
  {
    var lab := LabelFormat(stypes[0]);
    assert Keys(n1)[..|nodes|] == Keys(nodes);
    assert Keys(r)[..|nodes|] == Keys(r)[..|n1|][..|nodes|];
    forall k | k in Keys(r)
      ensures k in Keys(nodes) || exists s :: s in stypes && LabelFormat(s) == k
    {
      if k !in Keys(n1) {
        var s :| s in stypes[1..] && LabelFormat(s) == k;
        assert s in stypes;
      } else if k == lab {
        assert stypes[0] in stypes;
      }
    }
    forall k | k in Keys(nodes) || exists s :: s in stypes && LabelFormat(s) == k
      ensures k in Keys(r)
    {
      if k !in Keys(nodes) && k != lab {
        var s :| s in stypes && LabelFormat(s) == k;
        assert s != stypes[0];
        assert s in stypes[1..];
      }
    }
  }

  /** The index pairs `(i, j)` with `i < j < n`, in the order of the two nested loops from row `i` on. */
  function Pairs(n: nat, i: nat): (ps: seq<(nat, nat)>)
    decreases n - i
  {
    if i >= n then [] else Row(n, i, i + 1) + Pairs(n, i + 1)
  }

  function Row(n: nat, i: nat, j: nat): (ps: seq<(nat, nat)>)
    decreases n - j
  {
    if j >= n then [] else [(i, j)] + Row(n, i, j + 1)
  }

  lemma {:induction false} RowPairs(n: nat, i: nat, j: nat)
    ensures forall p :: p in Row(n, i, j) <==> p.0 == i && j <= p.1 < n
    ensures NoDup(Row(n, i, j))
    decreases n - j
  {
    if j < n {
      RowPairs(n, i, j + 1);
    }
  }

  /** The nested loops visit every pair `i < j < n` exactly once. */
  lemma {:induction false} PairsExactlyOnce(n: nat, i: nat)
    ensures forall p :: p in Pairs(n, i) <==> i <= p.0 < p.1 < n
    ensures NoDup(Pairs(n, i))
    decreases n - i
  {
    if i < n {
      RowPairs(n, i, i + 1);
      PairsExactlyOnce(n, i + 1);
      var a, b := Row(n, i, i + 1), Pairs(n, i + 1);
      forall x, y | 0 <= x < y < |a + b|
        ensures (a + b)[x] != (a + b)[y]
      {
        if x < |a| && y >= |a| {
          assert (a + b)[x] in a;
          assert (a + b)[y] in b;
        } else if x >= |a| {
          assert (a + b)[x] == b[x - |a|];
        }
      }
    }
  }

  /** `crt_inheritance_edge` applied to each listed pair in turn. */
  function EdgesFor(sets: seq<seq<string>>, ps: seq<(nat, nat)>, edges: seq<Field>): (r: seq<Field>)
    requires forall p :: p in ps ==> p.0 < |sets| && p.1 < |sets|
    ensures forall k :: (exists p :: p in ps && EdgeKeyOf(sets[p.0], sets[p.1]) == Some(k)) ==> Get(r, k) == Some(JObj([]))
    ensures forall k :: (forall p :: p in ps ==> EdgeKeyOf(sets[p.0], sets[p.1]) != Some(k)) ==> Get(r, k) == Get(edges, k)
    decreases |ps|
  {
    if |ps| == 0 then edges
    else
      var n := |ps|;
      var prev := EdgesFor(sets, ps[..n - 1], edges);
      var p := ps[n - 1];
      var r := InheritanceEdge(sets[p.0], sets[p.1], prev);
      EdgesForStep(sets, ps, edges, prev, r);
      r
  }

  lemma EdgesForStep(sets: seq<seq<string>>, ps: seq<(nat, nat)>, edges: seq<Field>, prev: seq<Field>, r: seq<Field>)
    requires |ps| > 0
    requires forall p :: p in ps ==> p.0 < |sets| && p.1 < |sets|
    requires r == InheritanceEdge(sets[ps[|ps| - 1].0], sets[ps[|ps| - 1].1], prev)
    requires forall k :: (exists p :: p in ps[..|ps| - 1] && EdgeKeyOf(sets[p.0], sets[p.1]) == Some(k)) ==> Get(prev, k) == Some(JObj([]))
    requires forall k :: (forall p :: p in ps[..|ps| - 1] ==> EdgeKeyOf(sets[p.0], sets[p.1]) != Some(k)) ==> Get(prev, k) == Get(edges, k)
    ensures forall k :: (exists p :: p in ps && EdgeKeyOf(sets[p.0], sets[p.1]) == Some(k)) ==> Get(r, k) == Some(JObj([]))
    ensures forall k :: (forall p :: p in ps ==> EdgeKeyOf(sets[p.0], sets[p.1]) != Some(k)) ==> Get(r, k) == Get(edges, k)
  {
    var n := |ps|;
    var last := ps[n - 1];
    assert ps == ps[..n - 1] + [last];
    forall k | exists p :: p in ps && EdgeKeyOf(sets[p.0], sets[p.1]) == Some(k)
      ensures Get(r, k) == Some(JObj([]))
    {
      var p :| p in ps && EdgeKeyOf(sets[p.0], sets[p.1]) == Some(k);
      if EdgeKeyOf(sets[last.0], sets[last.1]) != Some(k) {
        assert p in ps[..n - 1];
      }
    }
    forall k | forall p :: p in ps ==> EdgeKeyOf(sets[p.0], sets[p.1]) != Some(k)
      ensures Get(r, k) == Get(edges, k)
    {
      assert forall p :: p in ps[..n - 1] ==> p in ps;
    }
  }

  /**
    The node half of `infer_node_hierarchies`: the supertypes found among the
    node types' label sets become node types with an empty dict, after the
    existing ones, which keep their entries.
   */
  function SupertypeNodes(nodes: seq<Field>): (r: seq<Field>)
    ensures |r| >= |nodes| && Keys(r)[..|nodes|] == Keys(nodes)
    ensures forall k :: k in Keys(nodes) ==> Get(r, k) == Get(nodes, k)
    ensures forall s :: s in ListIntersections(LabelSets(nodes)) ==> LabelFormat(s) in Keys(r)
    ensures forall k :: k in Keys(r) ==> k in Keys(nodes) || exists s :: s in ListIntersections(LabelSets(nodes)) && LabelFormat(s) == k
    ensures forall k :: k in Keys(r) && k !in Keys(nodes) ==> Get(r, k) == Some(JObj([]))
  {
    AddSupertypes(nodes, ListIntersections(LabelSets(nodes)))
  }

  /**
    The edge half: every pair of node types (supertypes included) is offered
    to `crt_inheritance_edge`, so exactly the keys of the comparable pairs are
    set to an empty dict and every other entry is left alone.
   */
  function HierarchyEdges(nodes: seq<Field>, edges: seq<Field>): (r: seq<Field>)
    ensures var sets := LabelSets(nodes);
      forall i, j :: 0 <= i < j < |sets| && EdgeKeyOf(sets[i], sets[j]).Some? ==>
        Get(r, EdgeKeyOf(sets[i], sets[j]).value) == Some(JObj([]))
    ensures var sets := LabelSets(nodes);
      forall k :: (forall i, j :: 0 <= i < j < |sets| ==> EdgeKeyOf(sets[i], sets[j]) != Some(k)) ==> Get(r, k) == Get(edges, k)
  {
    var sets := LabelSets(nodes);
    PairsExactlyOnce(|sets|, 0);
    var r := EdgesFor(sets, Pairs(|sets|, 0), edges);
    InferEdges(sets, edges, r);
    r
  }

  /** `infer_node_hierarchies(schema)` without the file output: the new nodes and edges. */
  function InferNodeHierarchies(nodes: seq<Field>, edges: seq<Field>): (r: (seq<Field>, seq<Field>))
    ensures r.0 == SupertypeNodes(nodes)
    ensures |r.0| >= |nodes| && Keys(r.0)[..|nodes|] == Keys(nodes)
    ensures forall k :: k in Keys(nodes) ==> Get(r.0, k) == Get(nodes, k)
    ensures forall s :: s in ListIntersections(LabelSets(nodes)) ==> Get(r.0, LabelFormat(s)).Some?
    ensures forall k :: k in Keys(r.0) && k !in Keys(nodes) ==>
              Get(r.0, k) == Some(JObj([])) && exists s :: s in ListIntersections(LabelSets(nodes)) && LabelFormat(s) == k
    ensures var sets := LabelSets(r.0);
      forall i, j :: 0 <= i < j < |sets| && EdgeKeyOf(sets[i], sets[j]).Some? ==>
        Get(r.1, EdgeKeyOf(sets[i], sets[j]).value) == Some(JObj([]))
    ensures var sets := LabelSets(r.0);
      forall k :: (forall i, j :: 0 <= i < j < |sets| ==> EdgeKeyOf(sets[i], sets[j]) != Some(k)) ==> Get(r.1, k) == Get(edges, k)
  {
    var nodes' := SupertypeNodes(nodes);
    (nodes', HierarchyEdges(nodes', edges))
  }

  lemma InferEdges(sets: seq<seq<string>>, edges: seq<Field>, r: seq<Field>)
    requires forall p :: p in Pairs(|sets|, 0) <==> 0 <= p.0 < p.1 < |sets|
    requires r == EdgesFor(sets, Pairs(|sets|, 0), edges)
    ensures forall i, j :: 0 <= i < j < |sets| && EdgeKeyOf(sets[i], sets[j]).Some? ==>
              Get(r, EdgeKeyOf(sets[i], sets[j]).value) == Some(JObj([]))
    ensures forall k :: (forall i, j :: 0 <= i < j < |sets| ==> EdgeKeyOf(sets[i], sets[j]) != Some(k)) ==> Get(r, k) == Get(edges, k)
  {
    var ps := Pairs(|sets|, 0);
    InferEdgesSet(sets, ps, r);
    InferEdgesKept(sets, ps, edges, r);
  }

  lemma InferEdgesSet(sets: seq<seq<string>>, ps: seq<(nat, nat)>, r: seq<Field>)
    requires forall p :: p in ps <==> 0 <= p.0 < p.1 < |sets|
    requires forall k :: (exists p :: p in ps && EdgeKeyOf(sets[p.0], sets[p.1]) == Some(k)) ==> Get(r, k) == Some(JObj([]))
    ensures forall i, j :: 0 <= i < j < |sets| && EdgeKeyOf(sets[i], sets[j]).Some? ==>
              Get(r, EdgeKeyOf(sets[i], sets[j]).value) == Some(JObj([]))
  {
    forall i, j | 0 <= i < j < |sets| && EdgeKeyOf(sets[i], sets[j]).Some?
      ensures Get(r, EdgeKeyOf(sets[i], sets[j]).value) == Some(JObj([]))
    {
      assert (i, j) in ps;
    }
  }

  lemma InferEdgesKept(sets: seq<seq<string>>, ps: seq<(nat, nat)>, edges: seq<Field>, r: seq<Field>)
    requires forall p :: p in ps <==> 0 <= p.0 < p.1 < |sets|
    requires forall k :: (forall p :: p in ps ==> EdgeKeyOf(sets[p.0], sets[p.1]) != Some(k)) ==> Get(r, k) == Get(edges, k)
    ensures forall k :: (forall i, j :: 0 <= i < j < |sets| ==> EdgeKeyOf(sets[i], sets[j]) != Some(k)) ==> Get(r, k) == Get(edges, k)
  {
    forall k | forall i, j :: 0 <= i < j < |sets| ==> EdgeKeyOf(sets[i], sets[j]) != Some(k)
      ensures Get(r, k) == Get(edges, k)
    {
      assert forall p :: p in ps ==> EdgeKeyOf(sets[p.0], sets[p.1]) != Some(k);
    }
  }
}
