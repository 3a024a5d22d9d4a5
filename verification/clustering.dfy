/**
  Recursive bisection of the signatures (`iter_gmm`, `rec_clustering`). The
  mixture model that splits the per-instance similarity values in two is an
  oracle passed in as a function; `all_clusters` is threaded through the
  recursion as an explicit list; every set of signatures is a canonical
  ascending list (see `StrSets`).
 */
module Clustering {
  import opened Wrappers
  import opened Seqs
  import opened Strs
  import opened StrSets
  import opened Reference
  import opened Similarity

  /** `[set, child1, child2]`: a cluster and the sub-clusters found inside it. */
  datatype Tree = Tree(members: seq<string>, left: Option<Tree>, right: Option<Tree>)

  /**
    Stand-in for `BayesianGaussianMixture(...).fit(v).predict(v)`: one
    component per value, `false` for component 0 and `true` for component 1.
   */
  type Oracle = seq<real> -> seq<bool>

  ghost predicate SameLength(split: Oracle)
  {
    forall v :: |split(v)| == |v|
  }

  // ---------------------------------------------------------------------------
  // Selecting the signatures of one basic type

  predicate HasToken(node: string, w: string)
  {
    w in Split(node, ' ')
  }

  /**
    The test of `iter_gmm`: for an empty label set, the signature carries no
    known label; otherwise it carries every label of the set (other labels
    are allowed).
   */
  predicate Belongs(node: string, labels: seq<string>, labSet: seq<string>)
  {
    if |labSet| == 0 then forall l :: l in labels ==> !HasToken(node, l)
    else forall l :: l in labSet ==> HasToken(node, l)
  }

  /** `correct_nodes` for one label set, in the order of `list_of_distinct_nodes`. */
  function Select(nodes: seq<string>, labels: seq<string>, labSet: seq<string>): (sel: seq<string>)
    ensures |sel| <= |nodes|
    ensures forall x :: x in sel <==> x in nodes && Belongs(x, labels, labSet)
    ensures NoDup(nodes) ==> NoDup(sel)
  {
    var keep := x => Belongs(x, labels, labSet);
    if NoDup(nodes) then
      FilterNoDup(nodes, keep);
      Filter(nodes, keep)
    else Filter(nodes, keep)
  }

  // ---------------------------------------------------------------------------
  // Routing instances to the two candidate clusters

  /** The copies of `node` appended to `clusters[side]` for the predictions `p` of its instances. */
  function Route(node: string, p: seq<bool>, side: bool): (r: seq<string>)
    ensures |r| <= |p|
    ensures forall x :: x in r <==> x == node && side in p
  {
    if |p| == 0 then []
    else Route(node, p[..|p| - 1], side) + (if p[|p| - 1] == side then [node] else [])
  }

  lemma {:induction false} RouteSplits(node: string, p: seq<bool>)
    ensures |Route(node, p, false)| + |Route(node, p, true)| == |p|
  {
    if |p| > 0 {
      RouteSplits(node, p[..|p| - 1]);
    }
  }

  /** Some instance of `x` was predicted to be on `side`. */
  predicate RoutedTo(amount: Amounts, nodes: seq<string>, preds: seq<bool>, x: string, side: bool)
    requires Covers(amount, nodes) && |preds| == Total(amount, nodes)
  {
    exists i :: 0 <= i < |nodes| && nodes[i] == x && side in Block(preds, amount, nodes, i)
  }

  /**
    The double loop of `rec_clustering`: prediction `j` goes to the `j`-th
    instance, instances taken signature by signature in list order, each
    signature `amount_dict[node]` times. A signature lands in a cluster
    exactly when one of its own instances was predicted there.
   */
  function Assign(amount: Amounts, nodes: seq<string>, preds: seq<bool>): (c: (seq<string>, seq<string>))
    requires Covers(amount, nodes) && |preds| == Total(amount, nodes)
    ensures |c.0| + |c.1| == |preds|
    ensures forall x :: x in c.0 <==> RoutedTo(amount, nodes, preds, x, false)
    ensures forall x :: x in c.1 <==> RoutedTo(amount, nodes, preds, x, true)
    ensures forall x :: x in c.0 ==> x in nodes
    ensures forall x :: x in c.1 ==> x in nodes
  {
    if |nodes| == 0 then ([], [])
    else
      var init := nodes[..|nodes| - 1];
      var last := nodes[|nodes| - 1];
      TotalStep(amount, nodes, |nodes| - 1);
      assert nodes[..|nodes|] == nodes;
      var t0 := Total(amount, init);
      var c0 := Assign(amount, init, preds[..t0]);
      var p := preds[t0..];
      RouteSplits(last, p);
      AssignStep(amount, nodes, preds, false, c0.0);
      AssignStep(amount, nodes, preds, true, c0.1);
      (c0.0 + Route(last, p, false), c0.1 + Route(last, p, true))
  }

  lemma AssignStep(amount: Amounts, nodes: seq<string>, preds: seq<bool>, side: bool, a0: seq<string>)
    requires Covers(amount, nodes) && |nodes| > 0 && |preds| == Total(amount, nodes)
    requires Total(amount, nodes[..|nodes| - 1]) <= |preds|
    requires forall x :: x in a0 <==> RoutedTo(amount, nodes[..|nodes| - 1], preds[..Total(amount, nodes[..|nodes| - 1])], x, side)
    ensures var a := a0 + Route(nodes[|nodes| - 1], preds[Total(amount, nodes[..|nodes| - 1])..], side);
            forall x :: x in a <==> RoutedTo(amount, nodes, preds, x, side)
  {
    var a := a0 + Route(nodes[|nodes| - 1], preds[Total(amount, nodes[..|nodes| - 1])..], side);
    forall x | x in a
      ensures RoutedTo(amount, nodes, preds, x, side)
    {
      RoutedToSnocSound(amount, nodes, preds, side, a0, x);
    }
    forall x | RoutedTo(amount, nodes, preds, x, side)
      ensures x in a
    {
      RoutedToSnocComplete(amount, nodes, preds, side, a0, x);
    }
  }

  lemma RoutedToSnocSound(amount: Amounts, nodes: seq<string>, preds: seq<bool>, side: bool, a0: seq<string>, x: string)
    requires Covers(amount, nodes) && |nodes| > 0 && |preds| == Total(amount, nodes)
    requires Total(amount, nodes[..|nodes| - 1]) <= |preds|
    requires x in a0 ==> RoutedTo(amount, nodes[..|nodes| - 1], preds[..Total(amount, nodes[..|nodes| - 1])], x, side)
    requires x in a0 + Route(nodes[|nodes| - 1], preds[Total(amount, nodes[..|nodes| - 1])..], side)
    ensures RoutedTo(amount, nodes, preds, x, side)
  {
    var init := nodes[..|nodes| - 1];
    var t0 := Total(amount, init);
    var q, p := preds[..t0], preds[t0..];
    TotalStep(amount, nodes, |nodes| - 1);
    assert nodes[..|nodes|] == nodes;
    assert preds == q + p;
    if x in a0 {
      var i :| 0 <= i < |init| && init[i] == x && side in Block(q, amount, init, i);
      BlockAppend(q, p, amount, nodes, i);
      assert nodes[i] == x;
    } else {
      BlockAppend(q, p, amount, nodes, |nodes| - 1);
      assert nodes[|nodes| - 1] == x;
    }
  }

  lemma RoutedToSnocComplete(amount: Amounts, nodes: seq<string>, preds: seq<bool>, side: bool, a0: seq<string>, x: string)
    requires Covers(amount, nodes) && |nodes| > 0 && |preds| == Total(amount, nodes)
    requires Total(amount, nodes[..|nodes| - 1]) <= |preds|
    requires RoutedTo(amount, nodes[..|nodes| - 1], preds[..Total(amount, nodes[..|nodes| - 1])], x, side) ==> x in a0
    requires RoutedTo(amount, nodes, preds, x, side)
    ensures x in a0 + Route(nodes[|nodes| - 1], preds[Total(amount, nodes[..|nodes| - 1])..], side)
  {
    var init := nodes[..|nodes| - 1];
    var t0 := Total(amount, init);
    var q, p := preds[..t0], preds[t0..];
    TotalStep(amount, nodes, |nodes| - 1);
    assert nodes[..|nodes|] == nodes;
    assert preds == q + p;
    var i :| 0 <= i < |nodes| && nodes[i] == x && side in Block(preds, amount, nodes, i);
    BlockAppend(q, p, amount, nodes, i);
    if i < |nodes| - 1 {
      assert init[i] == x;
      assert RoutedTo(amount, init, q, x, side);
    }
  }

  /** Every signature with at least one instance lands in one cluster or the other, or both. */
  lemma AssignCovers(amount: Amounts, nodes: seq<string>, preds: seq<bool>, i: nat)
    requires Covers(amount, nodes) && |preds| == Total(amount, nodes)
    requires i < |nodes| && amount[nodes[i]] > 0
    ensures nodes[i] in Assign(amount, nodes, preds).0 || nodes[i] in Assign(amount, nodes, preds).1
  {
    var b := Block(preds, amount, nodes, i);
    assert b[0] in b;
    assert RoutedTo(amount, nodes, preds, nodes[i], b[0]);
  }

  // ---------------------------------------------------------------------------
  // Termination: each recursive call follows the recording of a new subset

  ghost function Subsets(u: seq<string>): set<set<string>>
    decreases |u|
  {
    if |u| == 0 then {{}}
    else
      var r0 := Subsets(u[1..]);
      r0 + set s | s in r0 :: s + {u[0]}
  }

  lemma {:induction false} SubsetsComplete(u: seq<string>, s: set<string>)
    requires forall x :: x in s ==> x in u
    ensures s in Subsets(u)
    decreases |u|
  {
    if |u| == 0 {
      assert s == {};
    } else {
      var s' := s - {u[0]};
      forall x | x in s'
        ensures x in u[1..]
      {
        var k :| 0 <= k < |u| && u[k] == x;
        assert k != 0;
        assert u[1..][k - 1] == x;
      }
      SubsetsComplete(u[1..], s');
      if u[0] in s {
        assert s == s' + {u[0]};
      } else {
        assert s == s';
      }
    }
  }

  /** The sets already recorded in `all_clusters`. */
  ghost function SeenSets(seen: seq<set<string>>): set<set<string>>
  {
    set k | 0 <= k < |seen| :: seen[k]
  }

  lemma {:induction false} SubsetCard<T>(a: set<T>, b: set<T>)
    requires a <= b
    ensures |a| <= |b|
    decreases |a|
  {
    if a != {} {
      var x :| x in a;
      SubsetCard(a - {x}, b - {x});
    }
  }

  lemma CardStrict<T>(a: set<T>, b: set<T>, e: T)
    requires a <= b && e in b && e !in a
    ensures |a| < |b|
  {
    SubsetCard(a, b - {e});
  }

  /** Recording a new subset of the universe strictly shrinks the unrecorded remainder. */
  lemma MeasureDrops(univ: seq<string>, seen: seq<set<string>>, seen': seq<set<string>>, e: set<string>)
    requires |seen| <= |seen'| && seen'[..|seen|] == seen
    requires e !in seen'
    requires forall x :: x in e ==> x in univ
    ensures |Subsets(univ) - SeenSets(seen' + [e])| < |Subsets(univ) - SeenSets(seen)|
  {
    SubsetsComplete(univ, e);
    forall k | 0 <= k < |seen|
      ensures seen[k] in SeenSets(seen' + [e]) && seen[k] != e
    {
      assert seen[k] == seen'[k] == (seen' + [e])[k];
    }
    assert (seen' + [e])[|seen'|] == e;
    assert e in SeenSets(seen' + [e]);
    CardStrict(Subsets(univ) - SeenSets(seen' + [e]), Subsets(univ) - SeenSets(seen), e);
  }

  // ---------------------------------------------------------------------------
  // The recursion

  /** The member sets of all sub-clusters of `t`, in the order the recursion records them. */
  function Descendants(t: Tree): seq<set<string>>
    decreases t
  {
    Branch(t.left) + Branch(t.right)
  }

  /** A child's member set followed by its own sub-clusters. */
  function Branch(o: Option<Tree>): seq<set<string>>
    decreases o
  {
    match o
    case None => []
    case Some(t) => [Elems(t.members)] + Descendants(t)
  }

  /** A present child is a non-empty subset of `within` whose own children nest in it. */
  predicate ChildWithin(o: Option<Tree>, within: seq<string>)
    decreases o
  {
    match o
    case None => true
    case Some(t) => |t.members| > 0 && SubsetEq(t.members, within) && Nested(t)
  }

  predicate ChildrenWithin(t: Tree, within: seq<string>)
    decreases t
  {
    ChildWithin(t.left, within) && ChildWithin(t.right, within)
  }

  /** Every sub-cluster is a non-empty subset of its parent cluster. */
  predicate Nested(t: Tree)
    decreases t
  {
    ChildWithin(t.left, t.members) && ChildWithin(t.right, t.members)
  }

  /** Appending a new set keeps `all_clusters` duplicate-free. */
  lemma RecordNew(seen: seq<set<string>>, e: set<string>)
    requires NoDup(seen) && e !in seen
    ensures NoDup(seen + [e])
    ensures (seen + [e])[..|seen|] == seen
  {
  }

  /** Recording more clusters never enlarges the unrecorded remainder. */
  lemma MeasureMono(univ: seq<string>, seen: seq<set<string>>, seen': seq<set<string>>)
    requires |seen| <= |seen'| && seen'[..|seen|] == seen
    ensures |Subsets(univ) - SeenSets(seen')| <= |Subsets(univ) - SeenSets(seen)|
  {
    forall k | 0 <= k < |seen|
      ensures seen[k] in SeenSets(seen')
    {
      assert seen[k] == seen'[k];
    }
    SubsetCard(Subsets(univ) - SeenSets(seen'), Subsets(univ) - SeenSets(seen));
  }

  /**
    `computed_measures`: the similarity of each instance's signature to the
    reference signature `max_labs_props(amount_dict, nodes, 1, distinct_labels)`.
   */
  function Measures(amount: Amounts, nodes: seq<string>, labels: seq<string>): (m: seq<real>)
    requires Covers(amount, nodes)
    ensures |m| == Total(amount, nodes)
    ensures forall i :: 0 <= i < |nodes| ==>
              Block(m, amount, nodes, i)
              == Repeat(Dice(MaxLabsProps(amount, nodes, 1, labels), nodes[i]), amount[nodes[i]])
  {
    var ref := MaxLabsProps(amount, nodes, 1, labels);
    var sims := ComputeSimilarities(nodes, ref);
    ToFormat(sims, amount, nodes)
  }

  lemma CoversSubset(amount: Amounts, nodes: seq<string>, c: seq<string>)
    requires Covers(amount, nodes) && forall x :: x in c ==> x in nodes
    ensures Covers(amount, c)
  {
    forall i | 0 <= i < |c|
      ensures c[i] in amount
    {
      assert c[i] in nodes;
      var j :| 0 <= j < |nodes| && nodes[j] == c[i];
    }
  }

  /**
    `rec_clustering(amount_dict, nodes, distinct_labels, all_clusters, [root, None, None])`.
    The similarity values are computed against the reference signature; with
    more than one instance they are split by the oracle, and each of the two
    resulting sets is explored in turn (the second one against the clusters
    recorded while exploring the first). `amount_dict` is passed down
    unchanged.
   */
  function RecClustering(amount: Amounts, nodes: seq<string>, labels: seq<string>,
                         seen: seq<set<string>>, root: seq<string>, split: Oracle,
                         ghost univ: seq<string>): (r: (seq<set<string>>, Tree))
    requires Covers(amount, nodes) && SameLength(split)
    requires forall x :: x in nodes ==> x in univ
    requires NoDup(seen)
    ensures r.1.members == root
    ensures r.0 == seen + Descendants(r.1)
    ensures NoDup(r.0)
    ensures ChildrenWithin(r.1, nodes)
    ensures Total(amount, nodes) <= 1 ==> r.1 == Tree(root, None, None)
    ensures Total(amount, nodes) > 1 ==> SplitInto(r.1, Assign(amount, nodes, split(Measures(amount, nodes, labels))), seen)
    ensures Bisected(r.1, amount, nodes, labels, seen, split)
    decreases |Subsets(univ) - SeenSets(seen)|, 1
  {
    var measures := Measures(amount, nodes, labels);
    if |measures| <= 1 then (seen, Tree(root, None, None))
    else
      var preds := split(measures);
      var clusters := Assign(amount, nodes, preds);
      var first := Explore(amount, nodes, Canon(clusters.0), labels, seen, split, univ);
      MeasureMono(univ, seen, first.0);
      var second := Explore(amount, nodes, Canon(clusters.1), labels, first.0, split, univ);
      AppendAssoc(seen, Branch(first.1), Branch(second.1));
      ExploredSplit(Tree(root, first.1, second.1), clusters, seen, first.0);
      (second.0, Tree(root, first.1, second.1))
  }

  /**
    The children of `t` are the two candidate clusters `c` of the split, each
    kept exactly when it is non-empty and its set is new: the first against
    `seen`, the second also against the first child's clusters.
   */
  predicate SplitInto(t: Tree, c: (seq<string>, seq<string>), seen: seq<set<string>>)
  {
    && (t.left.Some? <==> |c.0| > 0 && Elems(c.0) !in seen)
    && (t.left.Some? ==> t.left.value.members == Canon(c.0))
    && (t.right.Some? <==> |c.1| > 0 && Elems(c.1) !in seen + Branch(t.left))
    && (t.right.Some? ==> t.right.value.members == Canon(c.1))
  }

  /**
    `t` is what `rec_clustering` builds over `nodes` against the recorded
    clusters `seen`: no children with at most one instance, otherwise the
    oracle's split as `SplitInto` states; and each child is in turn bisected
    over its own signatures, with the same `amount_dict`, against the
    clusters recorded by the time it is explored.
   */
  ghost predicate Bisected(t: Tree, amount: Amounts, nodes: seq<string>, labels: seq<string>,
                           seen: seq<set<string>>, split: Oracle)
    decreases t
  {
    && Covers(amount, nodes) && SameLength(split)
    && (Total(amount, nodes) <= 1 ==> t.left.None? && t.right.None?)
    && (Total(amount, nodes) > 1 ==> SplitInto(t, Assign(amount, nodes, split(Measures(amount, nodes, labels))), seen))
    && (t.left.Some? ==>
          var u := t.left.value;
          Bisected(u, amount, u.members, labels, seen + [Elems(u.members)], split))
    && (t.right.Some? ==>
          var u := t.right.value;
          Bisected(u, amount, u.members, labels, seen + Branch(t.left) + [Elems(u.members)], split))
  }

  /** Exploring both candidate clusters, in ascending order, gives children as `SplitInto` states. */
  lemma ExploredSplit(t: Tree, c: (seq<string>, seq<string>), seen: seq<set<string>>, seen': seq<set<string>>)
    requires t.left.None? <==> Elems(Canon(c.0)) in seen || |Canon(c.0)| == 0
    requires t.left.Some? ==> t.left.value.members == Canon(c.0)
    requires seen' == seen + Branch(t.left)
    requires t.right.None? <==> Elems(Canon(c.1)) in seen' || |Canon(c.1)| == 0
    requires t.right.Some? ==> t.right.value.members == Canon(c.1)
    ensures SplitInto(t, c, seen)
  {
    CanonElems(c.0);
    CanonElems(c.1);
  }

  /**
    One of the two candidate clusters of `rec_clustering`, listed in
    ascending order: when it is non-empty and its set is not yet in
    `all_clusters`, the set is appended and the cluster explored; otherwise
    nothing happens.
   */
  function Explore(amount: Amounts, nodes: seq<string>, c: seq<string>, labels: seq<string>,
                   seen: seq<set<string>>, split: Oracle, ghost univ: seq<string>): (r: (seq<set<string>>, Option<Tree>))
    requires Covers(amount, nodes) && SameLength(split)
    requires forall x :: x in nodes ==> x in univ
    requires forall x :: x in c ==> x in nodes
    requires NoDup(seen)
    ensures r.1.None? <==> Elems(c) in seen || |c| == 0
    ensures r.1.Some? ==> r.1.value.members == c
    ensures r.0 == seen + Branch(r.1)
    ensures NoDup(r.0)
    ensures ChildWithin(r.1, nodes)
    ensures r.1.Some? ==> Bisected(r.1.value, amount, c, labels, seen + [Elems(c)], split)
    decreases |Subsets(univ) - SeenSets(seen)|, 0
  {
    if Elems(c) in seen || |c| == 0 then (seen, None)
    else
      MeasureDrops(univ, seen, seen, Elems(c));
      RecordNew(seen, Elems(c));
      CoversSubset(amount, nodes, c);
      var sub := RecClustering(amount, c, labels, seen + [Elems(c)], c, split, univ);
      ExploreResult(seen, c, sub.0, sub.1);
      (sub.0, Some(sub.1))
  }

  lemma ExploreResult(seen: seq<set<string>>, c: seq<string>, seen': seq<set<string>>, t: Tree)
    requires t.members == c
    requires seen' == (seen + [Elems(c)]) + Descendants(t)
    ensures seen' == seen + Branch(Some(t))
  {
    AppendAssoc(seen, [Elems(c)], Descendants(t));
  }

  // ---------------------------------------------------------------------------
  // One tree per label set

  /** The sub-cluster sets of a list of trees, tree after tree. */
  function AllDescendants(ts: seq<Tree>): seq<set<string>>
  {
    if |ts| == 0 then [] else AllDescendants(ts[..|ts| - 1]) + Descendants(ts[|ts| - 1])
  }

  /** The tree `iter_gmm` builds for one label set: rooted at the set, children among its signatures. */
  predicate TreeFor(t: Tree, nodes: seq<string>, labels: seq<string>, labSet: seq<string>)
  {
    t.members == Canon(labSet) && ChildrenWithin(t, Select(nodes, labels, labSet))
  }

  /** One tree per label set, in order, each built for its label set. */
  predicate ForestFor(ts: seq<Tree>, nodes: seq<string>, labels: seq<string>, labSets: seq<seq<string>>)
  {
    |ts| == |labSets| && forall i :: 0 <= i < |labSets| ==> TreeFor(ts[i], nodes, labels, labSets[i])
  }

  lemma ForestSnoc(trees: seq<Tree>, t: Tree, nodes: seq<string>, labels: seq<string>, labSets: seq<seq<string>>)
    requires |labSets| == |trees| + 1
    requires ForestFor(trees, nodes, labels, labSets[..|trees|])
    requires TreeFor(t, nodes, labels, labSets[|trees|])
    ensures ForestFor(trees + [t], nodes, labels, labSets)
    ensures AllDescendants(trees + [t]) == AllDescendants(trees) + Descendants(t)
  {
    var ts := trees + [t];
    assert ts[..|ts| - 1] == trees;
    forall i | 0 <= i < |labSets|
      ensures TreeFor(ts[i], nodes, labels, labSets[i])
    {
      if i < |trees| {
        assert ts[i] == trees[i] && labSets[i] == labSets[..|trees|][i];
      }
    }
  }

  /**
    `iter_gmm`: for each label set in order, select its signatures and run
    the recursion from a root holding the label set itself, all trees
    sharing one `all_clusters`.
   */
  function IterGmm(amount: Amounts, nodes: seq<string>, labels: seq<string>,
                   labSets: seq<seq<string>>, split: Oracle): (r: (seq<set<string>>, seq<Tree>))
    requires Covers(amount, nodes) && SameLength(split)
    ensures ForestFor(r.1, nodes, labels, labSets)
    ensures r.0 == AllDescendants(r.1)
    ensures NoDup(r.0)
    ensures ForestBisected(r.1, amount, nodes, labels, labSets, split)
  {
    if |labSets| == 0 then ([], [])
    else
      var n := |labSets| - 1;
      var before := IterGmm(amount, nodes, labels, labSets[..n], split);
      var tree := TreeOfLabelSet(amount, nodes, labels, before.0, labSets[n], split);
      ForestSnoc(before.1, tree.1, nodes, labels, labSets);
      BisectedSnoc(before.1, tree.1, amount, nodes, labels, labSets, split);
      (tree.0, before.1 + [tree.1])
  }

  /**
    Each tree of the forest is bisected over the signatures of its label
    set, against the clusters the trees before it recorded.
   */
  ghost predicate ForestBisected(ts: seq<Tree>, amount: Amounts, nodes: seq<string>, labels: seq<string>,
                                 labSets: seq<seq<string>>, split: Oracle)
    requires |ts| == |labSets|
  {
    forall i :: 0 <= i < |labSets| ==>
      Bisected(ts[i], amount, Select(nodes, labels, labSets[i]), labels, AllDescendants(ts[..i]), split)
  }

  lemma BisectedSnoc(trees: seq<Tree>, t: Tree, amount: Amounts, nodes: seq<string>, labels: seq<string>,
                     labSets: seq<seq<string>>, split: Oracle)
    requires |labSets| == |trees| + 1
    requires ForestBisected(trees, amount, nodes, labels, labSets[..|trees|], split)
    requires Bisected(t, amount, Select(nodes, labels, labSets[|trees|]), labels, AllDescendants(trees), split)
    ensures ForestBisected(trees + [t], amount, nodes, labels, labSets, split)
  {
    var ts := trees + [t];
    forall i | 0 <= i < |labSets|
      ensures Bisected(ts[i], amount, Select(nodes, labels, labSets[i]), labels, AllDescendants(ts[..i]), split)
    {
      if i < |trees| {
        BisectedEarlier(trees, t, amount, nodes, labels, labSets, split, i);
      } else {
        assert ts[..i] == trees;
      }
    }
  }

  /** A tree already in the forest keeps its bisection when another tree follows it. */
  lemma BisectedEarlier(trees: seq<Tree>, t: Tree, amount: Amounts, nodes: seq<string>, labels: seq<string>,
                        labSets: seq<seq<string>>, split: Oracle, i: nat)
    requires |labSets| == |trees| + 1 && i < |trees|
    requires ForestBisected(trees, amount, nodes, labels, labSets[..|trees|], split)
    ensures Bisected((trees + [t])[i], amount, Select(nodes, labels, labSets[i]), labels, AllDescendants((trees + [t])[..i]), split)
  {
    assert (trees + [t])[i] == trees[i];
    assert (trees + [t])[..i] == trees[..i];
    assert labSets[..|trees|][i] == labSets[i];
  }

  /** One round of the `iter_gmm` loop: the tree of one label set, over the nodes that carry it. */
  function TreeOfLabelSet(amount: Amounts, nodes: seq<string>, labels: seq<string>,
                          seen: seq<set<string>>, labSet: seq<string>, split: Oracle): (r: (seq<set<string>>, Tree))
    requires Covers(amount, nodes) && SameLength(split) && NoDup(seen)
    ensures TreeFor(r.1, nodes, labels, labSet)
    ensures Bisected(r.1, amount, Select(nodes, labels, labSet), labels, seen, split)
    ensures r.0 == seen + Descendants(r.1)
    ensures NoDup(r.0)
  {
    var sel := Select(nodes, labels, labSet);
    CoversSubset(amount, nodes, sel);
    RecClustering(amount, sel, labels, seen, Canon(labSet), split, nodes)
  }
}
