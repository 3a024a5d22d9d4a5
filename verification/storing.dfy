/**
  `storing` and `rec_storing`: the lines of `data.csv`. Every basic type gives
  a base line; every sub-cluster below it gives a line whose labels and
  properties are those shared by all of its nodes, followed by the optional
  ones marked with `?`, unless a line with the same labels and properties was
  already written.
 */
module Storing {
  import opened Wrappers
  import opened Seqs
  import opened Strs
  import opened StrSets
  import opened Clustering

  // ---------------------------------------------------------------------------
  // What a cluster shows

  /** The tokens of one node of one kind: the labels (`isLabel`) or the properties. */
  function Tokens(node: string, distinct: seq<string>, isLabel: bool): (r: seq<string>)
    ensures forall x :: x in r <==> x in Split(node, ' ') && (x in distinct) == isLabel
  {
    Filter(Split(node, ' '), x => (x in distinct) == isLabel)
  }

  /** `all_labels` / `all_properties`: the tokens of the kind found in some node. */
  function AllOf(members: seq<string>, distinct: seq<string>, isLabel: bool): (r: seq<string>)
    ensures IsCanon(r)
    ensures forall x :: x in r <==> exists m :: m in members && x in Tokens(m, distinct, isLabel)
  {
    if |members| == 0 then []
    else
      var rest := AllOf(members[1..], distinct, isLabel);
      assert members == [members[0]] + members[1..];
      Canon(Tokens(members[0], distinct, isLabel) + rest)
  }

  /**
    `always_labels` / `always_properties`: the tokens of the kind found in every
    node, seeded by the first node and narrowed by each following one; empty
    for a cluster without nodes.
   */
  function AlwaysOf(members: seq<string>, distinct: seq<string>, isLabel: bool): (r: seq<string>)
    ensures IsCanon(r)
    ensures forall x :: x in r <==> |members| > 0 && InEvery(members, distinct, isLabel, x)
  {
    if |members| == 0 then []
    else if |members| == 1 then
      assert members == [members[0]];
      Canon(Tokens(members[0], distinct, isLabel))
    else
      var rest := AlwaysOf(members[1..], distinct, isLabel);
      var r := Inter(Canon(Tokens(members[0], distinct, isLabel)), rest);
      AlwaysStep(members, distinct, isLabel, rest, r);
      r
  }

  /** `x` is a token of the kind in every one of `members`. */
  predicate InEvery(members: seq<string>, distinct: seq<string>, isLabel: bool, x: string)
  {
    forall m :: m in members ==> x in Tokens(m, distinct, isLabel)
  }

  lemma AlwaysStep(members: seq<string>, distinct: seq<string>, isLabel: bool, rest: seq<string>, r: seq<string>)
    requires |members| > 1
    requires forall x :: x in rest <==> InEvery(members[1..], distinct, isLabel, x)
    requires forall x :: x in r <==> x in Tokens(members[0], distinct, isLabel) && x in rest
    ensures forall x :: x in r <==> InEvery(members, distinct, isLabel, x)
  {
    assert members == [members[0]] + members[1..];
    forall x
      ensures x in r <==> InEvery(members, distinct, isLabel, x)
    {
      if InEvery(members, distinct, isLabel, x) {
        assert x in Tokens(members[0], distinct, isLabel);
        assert InEvery(members[1..], distinct, isLabel, x);
      }
    }
  }

  /** What every node has, every node of the cluster has somewhere. */
  lemma AlwaysWithinAll(members: seq<string>, distinct: seq<string>, isLabel: bool)
    ensures SubsetEq(AlwaysOf(members, distinct, isLabel), AllOf(members, distinct, isLabel))
  {
    forall x | x in AlwaysOf(members, distinct, isLabel)
      ensures x in AllOf(members, distinct, isLabel)
    {
      assert members[0] in members;
    }
  }

  /**
    The order in which the nodes of a cluster are visited does not matter: both
    token sets depend only on which nodes the cluster holds.
   */
  lemma MemberOrderIrrelevant(a: seq<string>, b: seq<string>, distinct: seq<string>, isLabel: bool)
    requires forall m :: m in a <==> m in b
    ensures AllOf(a, distinct, isLabel) == AllOf(b, distinct, isLabel)
    ensures AlwaysOf(a, distinct, isLabel) == AlwaysOf(b, distinct, isLabel)
  {
    assert |a| > 0 ==> a[0] in b;
    assert |b| > 0 ==> b[0] in a;
    CanonUnique(AllOf(a, distinct, isLabel), AllOf(b, distinct, isLabel));
    CanonUnique(AlwaysOf(a, distinct, isLabel), AlwaysOf(b, distinct, isLabel));
  }

  /** The optional tokens, each with its `?` mark. */
  function Questioned(o: seq<string>): (r: seq<string>)
    ensures |r| == |o|
    ensures forall i :: 0 <= i < |o| ==> r[i] == "?" + o[i]
  {
    seq(|o|, i requires 0 <= i < |o| => "?" + o[i])
  }

  /**
    The cell text: the always-present tokens joined by `:`, then, if there are
    optional tokens, `:?` before each of them.
   */
  function Render(always: seq<string>, optional: seq<string>): string
  {
    if |optional| > 0 then Join(always, ":") + ":?" + Join(optional, ":?")
    else Join(always, ":")
  }

  /** `"?" + ":?".join(o)` is `":".join` of the marked tokens. */
  lemma {:induction false} QuestionedJoin(o: seq<string>)
    requires |o| >= 1
    ensures "?" + Join(o, ":?") == Join(Questioned(o), ":")
  {
    if |o| > 1 {
      QuestionedJoin(o[1..]);
      assert Questioned(o)[1..] == Questioned(o[1..]);
      assert "?" + Join(o, ":?") == ("?" + o[0]) + ":" + ("?" + Join(o[1..], ":?"));
    }
  }

  /**
    Reading a rendered cell back: splitting it on `:` gives the always-present
    tokens (a single empty piece when there are none) followed by the optional
    ones, each marked with `?`.
   */
  lemma RenderSplits(always: seq<string>, optional: seq<string>)
    requires forall i :: 0 <= i < |always| ==> ':' !in always[i]
    requires forall i :: 0 <= i < |optional| ==> ':' !in optional[i]
    ensures Split(Render(always, optional), ':') == (if |always| == 0 then [""] else always) + Questioned(optional)
  {
    var shown := if |always| == 0 then [""] else always;
    var q := Questioned(optional);
    assert Join(shown, ":") == Join(always, ":");
    if |optional| > 0 {
      QuestionedJoin(optional);
      JoinAppend(shown, q, ":");
      assert Render(always, optional) == Join(shown, ":") + ":" + ("?" + Join(optional, ":?"));
      assert Render(always, optional) == Join(shown + q, ":");
    } else {
      assert shown + q == shown;
    }
    assert forall i :: 0 <= i < |q| ==> q[i] == "?" + optional[i];
    assert forall i :: 0 <= i < |shown + q| ==> ':' !in (shown + q)[i];
    SplitJoin(shown + q, ':');
  }

  /** The `labels` (`isLabel`) or `properties` cell of a cluster. */
  function Describe(members: seq<string>, distinct: seq<string>, isLabel: bool): string
  {
    var always := AlwaysOf(members, distinct, isLabel);
    Render(always, Diff(AllOf(members, distinct, isLabel), always))
  }

  /** No node token of the kind contains `:`. */
  predicate ColonFree(members: seq<string>, distinct: seq<string>, isLabel: bool)
  {
    forall m, x :: m in members && x in Tokens(m, distinct, isLabel) ==> ':' !in x
  }

  /**
    A cell read back: first the tokens every node has, then, marked with `?`,
    the tokens some but not all nodes have, both in ascending order.
   */
  lemma DescribeSplits(members: seq<string>, distinct: seq<string>, isLabel: bool)
    requires ColonFree(members, distinct, isLabel)
    ensures var always := AlwaysOf(members, distinct, isLabel);
            var optional := Diff(AllOf(members, distinct, isLabel), always);
            && (forall x :: x in optional <==> (exists m :: m in members && x in Tokens(m, distinct, isLabel)) && x !in always)
            && Split(Describe(members, distinct, isLabel), ':') == (if |always| == 0 then [""] else always) + Questioned(optional)
  {
    var always := AlwaysOf(members, distinct, isLabel);
    var all := AllOf(members, distinct, isLabel);
    var optional := Diff(all, always);
    forall i | 0 <= i < |always|
      ensures ':' !in always[i]
    {
      assert always[i] in always;
      assert members[0] in members;
    }
    forall i | 0 <= i < |optional|
      ensures ':' !in optional[i]
    {
      assert optional[i] in optional;
    }
    RenderSplits(always, optional);
  }

  // ---------------------------------------------------------------------------
  // The lines

  /** One line of `data.csv`: `id, labels, properties, subtypeof, type, is_basetype`. */
  datatype Row = Row(id: nat, labels: string, properties: string, parent: Option<nat>, typeNo: nat, basetype: bool)

  const Header: seq<string> := ["id", "labels", "properties", "subtypeof", "type", "is_basetype"]

  /** The cells written for a line. */
  function Cells(r: Row): (c: seq<string>)
    ensures |c| == |Header|
  {
    [NatToString(r.id), r.labels, r.properties,
     (match r.parent case None => "" case Some(p) => NatToString(p)),
     "T" + NatToString(r.typeNo),
     if r.basetype then "yes" else "no"]
  }

  /** Reading a line of cells back; none unless it has one cell per column. */
  function ParseRow(c: seq<string>): (r: Option<Row>)
    ensures r.Some? <==> |c| == |Header|
  {
    if |c| != |Header| then None
    else
      Some(Row(ParseNat(c[0]), c[1], c[2],
               if c[3] == "" then None else Some(ParseNat(c[3])),
               if |c[4]| > 0 then ParseNat(c[4][1..]) else 0,
               c[5] == "yes"))
  }

  /** Every written line reads back as the line it was written from. */
  lemma CellsRoundTrip(r: Row)
    ensures ParseRow(Cells(r)) == Some(r)
  {
    var c := Cells(r);
    assert c[4][1..] == NatToString(r.typeNo);
    if r.parent.Some? {
      assert c[3] == NatToString(r.parent.value);
    }
  }

  /** The key a sub-cluster line is remembered by: `labels + properties`. */
  function Key(r: Row): string
  {
    r.labels + r.properties
  }

  function Keys(rows: seq<Row>): (ks: seq<string>)
    ensures |ks| == |rows|
    ensures forall j :: 0 <= j < |rows| ==> ks[j] == Key(rows[j])
  {
    seq(|rows|, j requires 0 <= j < |rows| => Key(rows[j]))
  }

  lemma KeysAppend(a: seq<Row>, b: seq<Row>)
    ensures Keys(a + b) == Keys(a) + Keys(b)
  {
  }

  /** A sub-cluster as `rec_storing` sees it: the two cells it shows, then its own sub-clusters. */
  datatype Shown = Shown(labels: string, properties: string, left: Option<Shown>, right: Option<Shown>)

  /** The labels and properties cells of every sub-cluster of `t`. */
  function Show(t: Tree, distinct: seq<string>): Shown
    decreases t
  {
    Shown(Describe(t.members, distinct, true), Describe(t.members, distinct, false),
          ShowChild(t.left, distinct), ShowChild(t.right, distinct))
  }

  function ShowChild(o: Option<Tree>, distinct: seq<string>): Option<Shown>
    decreases o
  {
    match o
    case None => None
    case Some(u) => Some(Show(u, distinct))
  }

  /** The line a sub-cluster gets: its cells, under line `parent`, with type `T<k>`. */
  function NodeRow(s: Shown, id: nat, parent: nat, k: nat): Row
  {
    Row(id, s.labels, s.properties, Some(parent), k, false)
  }

  /** The state `rec_storing` threads: lines written, keys seen, next id and next type number. */
  datatype Out = Out(rows: seq<Row>, run: seq<string>, next: nat, k: nat)

  /**
    `rows` are sub-cluster lines numbered from `next` and typed from `k` on,
    each one's parent being `parent` or a line written before it in `rows`.
   */
  predicate Written(rows: seq<Row>, next: nat, k: nat, parent: nat)
  {
    forall j :: 0 <= j < |rows| ==>
      && rows[j].id == next + j
      && rows[j].typeNo == k + j
      && !rows[j].basetype
      && rows[j].parent.Some?
      && (rows[j].parent.value == parent || next <= rows[j].parent.value < next + j)
  }

  lemma WrittenAppend(a: seq<Row>, b: seq<Row>, next: nat, k: nat, parent: nat)
    requires Written(a, next, k, parent)
    requires Written(b, next + |a|, k + |a|, parent)
    ensures Written(a + b, next, k, parent)
  {
    forall j | |a| <= j < |a + b|
      ensures (a + b)[j] == b[j - |a|]
    {
    }
  }

  lemma WrittenCons(row: Row, b: seq<Row>, next: nat, k: nat, parent: nat)
    requires row.id == next && row.typeNo == k && !row.basetype && row.parent == Some(parent)
    requires Written(b, next + 1, k + 1, next)
    ensures Written([row] + b, next, k, parent)
  {
    forall j | 1 <= j < |[row] + b|
      ensures ([row] + b)[j] == b[j - 1]
    {
    }
  }

  lemma NoDupSnoc(run: seq<string>, x: string)
    ensures NoDup(run) && x !in run ==> NoDup(run + [x])
  {
  }

  /**
    `rec_storing` on one sub-cluster: its line, unless its key is already known,
    and then the lines of its children with it as their parent.
   */
  function RecStoring(t: Shown, next: nat, parent: nat, run: seq<string>, k: nat): (r: Out)
    ensures r.next == next + |r.rows| && r.k == k + |r.rows|
    ensures Written(r.rows, next, k, parent)
    ensures r.run == run + Keys(r.rows)
    ensures NoDup(run) ==> NoDup(r.run)
    ensures Key(NodeRow(t, next, parent, k)) in run <==> |r.rows| == 0
    ensures |r.rows| == 0 ==> r == Out([], run, next, k)
    ensures |r.rows| > 0 ==> r.rows[0] == NodeRow(t, next, parent, k)
    decreases t, 2
  {
    Emit(t, NodeRow(t, next, parent, k), next, parent, run, k)
  }

  /** Writing `row` for `t` unless its key is known, then the children of `t` under it. */
  function Emit(t: Shown, row: Row, next: nat, parent: nat, run: seq<string>, k: nat): (r: Out)
    requires row.id == next && row.typeNo == k && !row.basetype && row.parent == Some(parent)
    ensures r.next == next + |r.rows| && r.k == k + |r.rows|
    ensures Written(r.rows, next, k, parent)
    ensures r.run == run + Keys(r.rows)
    ensures NoDup(run) ==> NoDup(r.run)
    ensures Key(row) in run <==> |r.rows| == 0
    ensures |r.rows| == 0 ==> r == Out([], run, next, k)
    ensures |r.rows| > 0 ==> r.rows[0] == row
    ensures |r.rows| > 0 ==> r.rows == [row] + Children(t, next + 1, next, run + [Key(row)], k + 1).rows
    decreases t, 1
  {
    if Key(row) in run then Out([], run, next, k)
    else
      var below := Children(t, next + 1, next, run + [Key(row)], k + 1);
      EmitStep(row, below, next, parent, run, k);
      Out([row] + below.rows, below.run, below.next, below.k)
  }

  lemma EmitStep(row: Row, below: Out, next: nat, parent: nat, run: seq<string>, k: nat)
    requires row.id == next && row.typeNo == k && !row.basetype && row.parent == Some(parent)
    requires Key(row) !in run
    requires below.next == next + 1 + |below.rows| && below.k == k + 1 + |below.rows|
    requires Written(below.rows, next + 1, k + 1, next)
    requires below.run == run + [Key(row)] + Keys(below.rows)
    requires NoDup(run + [Key(row)]) ==> NoDup(below.run)
    ensures Written([row] + below.rows, next, k, parent)
    ensures below.run == run + Keys([row] + below.rows)
    ensures NoDup(run) ==> NoDup(below.run)
  {
    KeysAppend([row], below.rows);
    AppendAssoc(run, [Key(row)], Keys(below.rows));
    WrittenCons(row, below.rows, next, k, parent);
    NoDupSnoc(run, Key(row));
  }

  /** The left child's lines, then the right child's, both under `parent`. */
  function Children(t: Shown, next: nat, parent: nat, run: seq<string>, k: nat): (r: Out)
    ensures r.next == next + |r.rows| && r.k == k + |r.rows|
    ensures Written(r.rows, next, k, parent)
    ensures r.run == run + Keys(r.rows)
    ensures NoDup(run) ==> NoDup(r.run)
    ensures var l := Child(t.left, next, parent, run, k);
            var m := Child(t.right, l.next, parent, l.run, l.k);
            r.rows == l.rows + m.rows && r.run == m.run
    decreases t, 0
  {
    var first := Child(t.left, next, parent, run, k);
    var second := Child(t.right, first.next, parent, first.run, first.k);
    KeysAppend(first.rows, second.rows);
    AppendAssoc(run, Keys(first.rows), Keys(second.rows));
    WrittenAppend(first.rows, second.rows, next, k, parent);
    Out(first.rows + second.rows, second.run, second.next, second.k)
  }

  function Child(o: Option<Shown>, next: nat, parent: nat, run: seq<string>, k: nat): (r: Out)
    ensures r.next == next + |r.rows| && r.k == k + |r.rows|
    ensures Written(r.rows, next, k, parent)
    ensures r.run == run + Keys(r.rows)
    ensures NoDup(run) ==> NoDup(r.run)
    ensures o.None? ==> r == Out([], run, next, k)
    ensures o.Some? ==> (Key(NodeRow(o.value, next, parent, k)) in run <==> |r.rows| == 0)
    ensures o.Some? && |r.rows| == 0 ==> r == Out([], run, next, k)
    ensures o.Some? && |r.rows| > 0 ==> r.rows[0] == NodeRow(o.value, next, parent, k)
    decreases o
  {
    match o
    case None => Out([], run, next, k)
    case Some(t) => RecStoring(t, next, parent, run, k)
  }

  /**
    A present child is stored by exactly one `RecStoring` call under the given
    parent. Stated apart from `Child`'s own contract: there it would make every
    proof about the recursion unfold it without end.
   */
  lemma ChildIs(o: Option<Shown>, next: nat, parent: nat, run: seq<string>, k: nat)
    ensures o.Some? ==> Child(o, next, parent, run, k) == RecStoring(o.value, next, parent, run, k)
  {
  }

  // ---------------------------------------------------------------------------
  // The lines as a depth-first listing of the tree

  /** The sub-clusters below `t`, depth first, each before its own sub-clusters and the left child's before the right's. */
  function Below(t: Shown): seq<Shown>
    decreases t
  {
    Sub(t.left) + Sub(t.right)
  }

  /** A child, then the sub-clusters below it. */
  function Sub(o: Option<Shown>): seq<Shown>
    decreases o
  {
    match o
    case None => []
    case Some(u) => [u] + Below(u)
  }

  /**
    The id of each sub-cluster's parent line, when `t` has line `at` and the
    clusters of `Below(t)` get the ids from `start` on, one each, in order.
   */
  function BelowParents(t: Shown, at: nat, start: nat): (ps: seq<nat>)
    ensures |ps| == |Below(t)|
    decreases t
  {
    var l := SubParents(t.left, at, start);
    l + SubParents(t.right, at, start + |l|)
  }

  function SubParents(o: Option<Shown>, parent: nat, start: nat): (ps: seq<nat>)
    ensures |ps| == |Sub(o)|
    decreases o
  {
    match o
    case None => []
    case Some(u) => [parent] + BelowParents(u, start, start + 1)
  }

  /** The keys the lines of `us` have: labels followed by properties. */
  function ClusterKeys(us: seq<Shown>): (ks: seq<string>)
    ensures |ks| == |us|
    ensures forall j :: 0 <= j < |us| ==> ks[j] == us[j].labels + us[j].properties
  {
    seq(|us|, j requires 0 <= j < |us| => us[j].labels + us[j].properties)
  }

  lemma ClusterKeysAppend(a: seq<Shown>, b: seq<Shown>)
    ensures ClusterKeys(a + b) == ClusterKeys(a) + ClusterKeys(b)
  {
  }

  /** The line of each of `us`, ids from `next` and types from `k` on, the `j`-th under line `parents[j]`. */
  function Lines(us: seq<Shown>, next: nat, parents: seq<nat>, k: nat): (rows: seq<Row>)
    requires |parents| == |us|
    ensures |rows| == |us|
    decreases |us|
  {
    if |us| == 0 then []
    else [NodeRow(us[0], next, parents[0], k)] + Lines(us[1..], next + 1, parents[1..], k + 1)
  }

  /** Line `j` of `Lines` shows `us[j]`, with id `next + j`, parent `parents[j]` and type `k + j`. */
  lemma {:induction false} LinesAt(us: seq<Shown>, next: nat, parents: seq<nat>, k: nat, j: nat)
    requires |parents| == |us| && j < |us|
    ensures Lines(us, next, parents, k)[j] == NodeRow(us[j], next + j, parents[j], k + j)
    decreases |us|
  {
    if j > 0 {
      LinesAt(us[1..], next + 1, parents[1..], k + 1, j - 1);
    }
  }

  lemma {:induction false} LinesAppend(a: seq<Shown>, b: seq<Shown>, next: nat, pa: seq<nat>, pb: seq<nat>, k: nat)
    requires |pa| == |a| && |pb| == |b|
    ensures Lines(a + b, next, pa + pb, k) == Lines(a, next, pa, k) + Lines(b, next + |a|, pb, k + |a|)
    decreases |a|
  {
    if |a| == 0 {
      assert a + b == b && pa + pb == pb;
    } else {
      var ab, pab := a + b, pa + pb;
      var first := [NodeRow(a[0], next, pa[0], k)];
      assert ab[0] == a[0] && pab[0] == pa[0];
      assert ab[1..] == a[1..] + b && pab[1..] == pa[1..] + pb;
      LinesAppend(a[1..], b, next + 1, pa[1..], pb, k + 1);
      var rest := Lines(a[1..], next + 1, pa[1..], k + 1);
      var tail := Lines(b, next + |a|, pb, k + |a|);
      assert Lines(ab, next, pab, k) == first + (rest + tail);
      assert Lines(a, next, pa, k) == first + rest;
      AppendAssoc(first, rest, tail);
    }
  }

  lemma NoDupPrefix(a: seq<string>, b: seq<string>)
    requires NoDup(a + b)
    ensures NoDup(a)
  {
    assert forall i :: 0 <= i < |a| ==> a[i] == (a + b)[i];
  }

  /**
    When no two sub-clusters of `t` show the same labels and properties and
    none was written before, `rec_storing` writes one line for `t` and one for
    every sub-cluster below it, depth first, each under the line of its own
    parent cluster.
   */
  lemma {:induction false} RecStoringListsTree(t: Shown, next: nat, parent: nat, run: seq<string>, k: nat)
    requires NoDup(run + ClusterKeys([t] + Below(t)))
    ensures var r := RecStoring(t, next, parent, run, k);
            && r.rows == Lines([t] + Below(t), next, [parent] + BelowParents(t, next, next + 1), k)
            && r.run == run + ClusterKeys([t] + Below(t))
    decreases t, 1
  {
    TreeKeys(t, next, parent, run, k);
    ChildrenListsTree(t, next + 1, next, run + [Key(NodeRow(t, next, parent, k))], k + 1);
    TreeFromChildren(t, next, parent, run, k);
  }

  /** The key of `t`'s own line is fresh, and so are those below it after it. */
  lemma TreeKeys(t: Shown, next: nat, parent: nat, run: seq<string>, k: nat)
    requires NoDup(run + ClusterKeys([t] + Below(t)))
    ensures Key(NodeRow(t, next, parent, k)) !in run
    ensures NoDup(run + [Key(NodeRow(t, next, parent, k))] + ClusterKeys(Below(t)))
    ensures run + ClusterKeys([t] + Below(t)) == run + [Key(NodeRow(t, next, parent, k))] + ClusterKeys(Below(t))
  {
    var row := NodeRow(t, next, parent, k);
    var ks := ClusterKeys(Below(t));
    assert ClusterKeys([t] + Below(t)) == [Key(row)] + ks by {
      ClusterKeysAppend([t], Below(t));
    }
    FreshHead(run, Key(row), ks);
  }

  /** The listing of `t`'s own line followed by the listing its children get. */
  lemma TreeFromChildren(t: Shown, next: nat, parent: nat, run: seq<string>, k: nat)
    requires Key(NodeRow(t, next, parent, k)) !in run
    requires run + ClusterKeys([t] + Below(t)) == run + [Key(NodeRow(t, next, parent, k))] + ClusterKeys(Below(t))
    requires var c := Children(t, next + 1, next, run + [Key(NodeRow(t, next, parent, k))], k + 1);
             && c.rows == Lines(Below(t), next + 1, BelowParents(t, next, next + 1), k + 1)
             && c.run == run + [Key(NodeRow(t, next, parent, k))] + ClusterKeys(Below(t))
    ensures var r := RecStoring(t, next, parent, run, k);
            && r.rows == Lines([t] + Below(t), next, [parent] + BelowParents(t, next, next + 1), k)
            && r.run == run + ClusterKeys([t] + Below(t))
  {
    RecStoringFresh(t, next, parent, run, k);
    LinesCons(t, Below(t), next, parent, BelowParents(t, next, next + 1), k);
  }

  /** A sub-cluster whose key is new gets its line, followed by its children's lines. */
  lemma RecStoringFresh(t: Shown, next: nat, parent: nat, run: seq<string>, k: nat)
    requires Key(NodeRow(t, next, parent, k)) !in run
    ensures var below := Children(t, next + 1, next, run + [Key(NodeRow(t, next, parent, k))], k + 1);
            RecStoring(t, next, parent, run, k) == Out([NodeRow(t, next, parent, k)] + below.rows, below.run, below.next, below.k)
  {
  }

  /** A key that heads the fresh keys after `run` is not in `run`, and the rest stay fresh after it. */
  lemma FreshHead(run: seq<string>, x: string, ks: seq<string>)
    requires NoDup(run + ([x] + ks))
    ensures x !in run
    ensures run + ([x] + ks) == (run + [x]) + ks
    ensures NoDup((run + [x]) + ks)
  {
    AppendAssoc(run, [x], ks);
    var all := run + [x] + ks;
    assert all[|run|] == x;
    assert forall i :: 0 <= i < |run| ==> all[i] == run[i];
  }

  /** The lines of a cluster followed by others: its own line, then theirs. */
  lemma LinesCons(u: Shown, us: seq<Shown>, next: nat, p: nat, ps: seq<nat>, k: nat)
    requires |ps| == |us|
    ensures Lines([u] + us, next, [p] + ps, k) == [NodeRow(u, next, p, k)] + Lines(us, next + 1, ps, k + 1)
  {
    assert ([u] + us)[1..] == us;
    assert ([p] + ps)[1..] == ps;
  }

  lemma {:induction false} ChildrenListsTree(t: Shown, next: nat, parent: nat, run: seq<string>, k: nat)
    requires NoDup(run + ClusterKeys(Below(t)))
    ensures var r := Children(t, next, parent, run, k);
            && r.rows == Lines(Below(t), next, BelowParents(t, parent, next), k)
            && r.run == run + ClusterKeys(Below(t))
    decreases t, 0
  {
    var a, b := Sub(t.left), Sub(t.right);
    var ka, kb := ClusterKeys(a), ClusterKeys(b);
    assert Below(t) == a + b;
    ClusterKeysAppend(a, b);
    FreshSplit(run, ka, kb);
    var l := Child(t.left, next, parent, run, k);
    ChildListsTree(t.left, next, parent, run, k);
    var pa, pb := SubParents(t.left, parent, next), SubParents(t.right, parent, l.next);
    assert l.next == next + |a| && l.k == k + |a| && l.run == run + ka;
    assert BelowParents(t, parent, next) == pa + pb;
    ChildListsTree(t.right, l.next, parent, l.run, l.k);
    LinesJoin(a, b, next, pa, pb, k, l.next, l.k);
    AppendAssoc(run, ka, kb);
  }

  lemma LinesJoin(a: seq<Shown>, b: seq<Shown>, next: nat, pa: seq<nat>, pb: seq<nat>, k: nat, nb: nat, kb: nat)
    requires |pa| == |a| && |pb| == |b|
    requires nb == next + |a| && kb == k + |a|
    ensures Lines(a + b, next, pa + pb, k) == Lines(a, next, pa, k) + Lines(b, nb, pb, kb)
  {
    LinesAppend(a, b, next, pa, pb, k);
  }

  lemma FreshSplit(run: seq<string>, ka: seq<string>, kb: seq<string>)
    requires NoDup(run + (ka + kb))
    ensures NoDup(run + ka) && NoDup((run + ka) + kb)
  {
    AppendAssoc(run, ka, kb);
    NoDupPrefix(run + ka, kb);
  }

  lemma {:induction false} ChildListsTree(o: Option<Shown>, next: nat, parent: nat, run: seq<string>, k: nat)
    requires NoDup(run + ClusterKeys(Sub(o)))
    ensures var r := Child(o, next, parent, run, k);
            && r.rows == Lines(Sub(o), next, SubParents(o, parent, next), k)
            && r.run == run + ClusterKeys(Sub(o))
    decreases o
  {
    match o
    case None =>
      assert run + [] == run;
    case Some(u) =>
      RecStoringListsTree(u, next, parent, run, k);
  }

  // ---------------------------------------------------------------------------
  // All basic types

  /** The labels of the base lines, in order. */
  function BaseLabels(rows: seq<Row>): seq<string>
  {
    if |rows| == 0 then []
    else BaseLabels(rows[..|rows| - 1]) + (if rows[|rows| - 1].basetype then [rows[|rows| - 1].labels] else [])
  }

  lemma {:induction false} BaseLabelsAppend(a: seq<Row>, b: seq<Row>)
    ensures BaseLabels(a + b) == BaseLabels(a) + BaseLabels(b)
  {
    if |b| > 0 {
      assert (a + b)[..|a + b| - 1] == a + b[..|b| - 1];
      BaseLabelsAppend(a, b[..|b| - 1]);
    } else {
      assert a + b == a;
    }
  }

  lemma {:induction false} BaseLabelsNone(b: seq<Row>)
    requires forall j :: 0 <= j < |b| ==> !b[j].basetype
    ensures BaseLabels(b) == []
  {
    if |b| > 0 {
      BaseLabelsNone(b[..|b| - 1]);
    }
  }

  /**
    What `data.csv` holds after some basic types, `bases` being their labels:
    lines numbered from 1; a base line for each basic type, in order, with no
    properties, no parent and type `T1`; after it the type numbers count up; a
    sub-cluster line's parent is an earlier line of the same basic type; the
    keys of the sub-cluster lines are distinct and are exactly those in `run`.
   */
  ghost predicate Stored(rows: seq<Row>, run: seq<string>, bases: seq<string>)
  {
    && Numbered(rows)
    && (|rows| > 0 ==> rows[0].basetype)
    && BaseLabels(rows) == bases
    && Typed(rows)
    && |run| + |bases| == |rows|
    && KeysRecorded(rows, run)
  }

  /** Lines numbered from 1. */
  predicate Numbered(rows: seq<Row>)
  {
    forall j :: 0 <= j < |rows| ==> rows[j].id == j + 1
  }

  /** Base lines have no properties, no parent and type `T1`; the other lines count up and point back into their basic type. */
  predicate Typed(rows: seq<Row>)
  {
    && (forall j :: 0 <= j < |rows| && rows[j].basetype ==>
          rows[j].properties == "" && rows[j].parent == None && rows[j].typeNo == 1)
    && (forall j :: 0 < j < |rows| && !rows[j].basetype ==> rows[j].typeNo == rows[j - 1].typeNo + 1)
    && (forall j :: 0 <= j < |rows| && !rows[j].basetype ==>
          rows[j].parent.Some? && rows[j].id - rows[j].typeNo + 1 <= rows[j].parent.value < rows[j].id)
  }

  /** The sub-cluster lines have distinct keys, all recorded in `run`, which has no repetition. */
  predicate KeysRecorded(rows: seq<Row>, run: seq<string>)
  {
    && NoDup(run)
    && (forall j :: 0 <= j < |rows| && !rows[j].basetype ==> Key(rows[j]) in run)
    && (forall a, b :: 0 <= a < b < |rows| && !rows[a].basetype && !rows[b].basetype ==> Key(rows[a]) != Key(rows[b]))
  }

  /** A basic type as `storing` writes it: the labels cell of its base line and its shown sub-clusters. */
  datatype Basic = Basic(name: string, shown: Shown)

  /** The labels cell of each basic type's base line. */
  function BaseNames(trees: seq<Tree>): (r: seq<string>)
    ensures |r| == |trees|
    ensures forall i :: 0 <= i < |trees| ==> r[i] == Join(trees[i].members, ":")
  {
    seq(|trees|, i requires 0 <= i < |trees| => Join(trees[i].members, ":"))
  }

  /** Each basic type with its label set joined by `:` and the cells of all its sub-clusters. */
  function Prepare(distinct: seq<string>, trees: seq<Tree>): (bs: seq<Basic>)
    ensures |bs| == |trees|
    ensures forall i :: 0 <= i < |trees| ==> bs[i].name == BaseNames(trees)[i] && bs[i].shown == Show(trees[i], distinct)
  {
    seq(|trees|, i requires 0 <= i < |trees| => Basic(Join(trees[i].members, ":"), Show(trees[i], distinct)))
  }

  function Names(bs: seq<Basic>): (r: seq<string>)
    ensures |r| == |bs|
    ensures forall i :: 0 <= i < |bs| ==> r[i] == bs[i].name
  {
    seq(|bs|, i requires 0 <= i < |bs| => bs[i].name)
  }

  lemma NamesSnoc(bs: seq<Basic>)
    requires |bs| > 0
    ensures Names(bs) == Names(bs[..|bs| - 1]) + [bs[|bs| - 1].name]
  {
  }

  /** The base line of a basic type: no properties, no parent, type `T1`. */
  function BaseRow(name: string, id: nat): Row
  {
    Row(id, name, "", None, 1, true)
  }

  /**
    `storing`: for each basic type its base line, then the lines of its
    sub-clusters, numbered on from the base line, typed from `T2`, and checked
    against one list of keys shared by all basic types.
   */
  function Store(distinct: seq<string>, trees: seq<Tree>): (r: (seq<Row>, seq<string>))
    ensures Stored(r.0, r.1, BaseNames(trees))
  {
    var bs := Prepare(distinct, trees);
    assert Names(bs) == BaseNames(trees);
    StoreBasicsStored(bs);
    StoreBasics(bs)
  }

  /** The lines of the basic types `bs` in turn, and the keys recorded along the way. */
  function StoreBasics(bs: seq<Basic>): (seq<Row>, seq<string>)
  {
    if |bs| == 0 then ([], [])
    else AddType(StoreBasics(bs[..|bs| - 1]), bs[|bs| - 1])
  }

  /** One more basic type after the file `prev`: its base line, then its sub-cluster lines. */
  function AddType(prev: (seq<Row>, seq<string>), b: Basic): (seq<Row>, seq<string>)
  {
    var below := Children(b.shown, |prev.0| + 2, |prev.0| + 1, prev.1, 2);
    (prev.0 + [BaseRow(b.name, |prev.0| + 1)] + below.rows, below.run)
  }

  /** Every prefix of the file `storing` writes keeps the invariant `Stored`. */
  lemma {:induction false} StoreBasicsStored(bs: seq<Basic>)
    ensures Stored(StoreBasics(bs).0, StoreBasics(bs).1, Names(bs))
  {
    if |bs| > 0 {
      var init := bs[..|bs| - 1];
      StoreBasicsStored(init);
      var prev := StoreBasics(init);
      var b := bs[|bs| - 1];
      var below := Children(b.shown, |prev.0| + 2, |prev.0| + 1, prev.1, 2);
      var base := BaseRow(b.name, |prev.0| + 1);
      StoreStep(prev.0, prev.1, Names(init), base, below);
      assert StoreBasics(bs) == (prev.0 + [base] + below.rows, below.run) by {
        StoreAppendsType(bs);
      }
      assert Names(bs) == Names(init) + [b.name] by {
        NamesSnoc(bs);
      }
    }
  }

  /**
    Each basic type adds its base line and then exactly the lines `rec_storing`
    writes for its two children, against the keys of all earlier basic types.
   */
  lemma {:induction false} StoreAppendsType(bs: seq<Basic>)
    requires |bs| > 0
    ensures var prev := StoreBasics(bs[..|bs| - 1]);
            var b := bs[|bs| - 1];
            var below := Children(b.shown, |prev.0| + 2, |prev.0| + 1, prev.1, 2);
            StoreBasics(bs) == (prev.0 + [BaseRow(b.name, |prev.0| + 1)] + below.rows, below.run)
  {
    assert StoreBasics(bs) == AddType(StoreBasics(bs[..|bs| - 1]), bs[|bs| - 1]);
  }

  /**
    `storing` over the basic types: the file for all but the last, then the
    last type's base line, then the lines `rec_storing` writes for its two
    children under that base line, against the keys recorded so far.
   */
  lemma StoreAddsType(distinct: seq<string>, trees: seq<Tree>)
    requires |trees| > 0
    ensures var n := |trees|;
            Store(distinct, trees) == AddType(Store(distinct, trees[..n - 1]), Basic(BaseNames(trees)[n - 1], Show(trees[n - 1], distinct)))
  {
    var n := |trees|;
    PrepareInit(distinct, trees);
    assert Store(distinct, trees[..n - 1]) == StoreBasics(Prepare(distinct, trees[..n - 1]));
    assert Store(distinct, trees) == StoreBasics(Prepare(distinct, trees));
  }

  /** Preparing all but the last tree is the prefix of preparing them all. */
  lemma PrepareInit(distinct: seq<string>, trees: seq<Tree>)
    requires |trees| > 0
    ensures var n := |trees|;
            Prepare(distinct, trees)[..n - 1] == Prepare(distinct, trees[..n - 1])
  {
    var n := |trees|;
    var bs := Prepare(distinct, trees);
    var init := Prepare(distinct, trees[..n - 1]);
    forall i | 0 <= i < n - 1
      ensures bs[i] == init[i]
    {
      assert trees[..n - 1][i] == trees[i];
    }
  }

  /** The sub-clusters of all basic types, type after type, each depth first. */
  function AllBelow(bs: seq<Basic>): seq<Shown>
  {
    if |bs| == 0 then [] else AllBelow(bs[..|bs| - 1]) + Below(bs[|bs| - 1].shown)
  }

  /**
    The file when no two sub-clusters show the same cells: each basic type's
    base line, then a line for every sub-cluster below it, depth first, each
    under the line of its parent cluster, typed from `T2`.
   */
  function Listing(bs: seq<Basic>): (rows: seq<Row>)
  {
    if |bs| == 0 then []
    else
      var prev := Listing(bs[..|bs| - 1]);
      var t := bs[|bs| - 1].shown;
      prev + [BaseRow(bs[|bs| - 1].name, |prev| + 1)] + Lines(Below(t), |prev| + 2, BelowParents(t, |prev| + 1, |prev| + 2), 2)
  }

  /** With all sub-cluster keys distinct, the file is exactly the listing, and every key is recorded. */
  lemma {:induction false} StoreListsTypes(bs: seq<Basic>)
    requires NoDup(ClusterKeys(AllBelow(bs)))
    ensures StoreBasics(bs) == (Listing(bs), ClusterKeys(AllBelow(bs)))
  {
    if |bs| > 0 {
      var init, b := bs[..|bs| - 1], bs[|bs| - 1];
      var ki, kt := ClusterKeys(AllBelow(init)), ClusterKeys(Below(b.shown));
      assert ClusterKeys(AllBelow(bs)) == ki + kt by {
        assert AllBelow(bs) == AllBelow(init) + Below(b.shown);
        ClusterKeysAppend(AllBelow(init), Below(b.shown));
      }
      assert StoreBasics(init) == (Listing(init), ki) by {
        NoDupPrefix(ki, kt);
        StoreListsTypes(init);
      }
      ListingSnoc(bs);
      ListsStep(StoreBasics(bs), StoreBasics(init), b, Listing(init), Listing(bs), kt);
    } else {
      assert ClusterKeys(AllBelow(bs)) == [];
    }
  }

  /**
    One more basic type `b` after the file `prev` whose lines are `lis`: when
    its sub-cluster keys are new, the file becomes `lis` extended by its base
    line and one line per sub-cluster, depth first, and records those keys.
   */
  lemma ListsStep(next: (seq<Row>, seq<string>), prev: (seq<Row>, seq<string>), b: Basic, lis: seq<Row>, all: seq<Row>, kt: seq<string>)
    requires next == AddType(prev, b)
    requires prev.0 == lis
    requires all == lis + [BaseRow(b.name, |lis| + 1)] + Lines(Below(b.shown), |lis| + 2, BelowParents(b.shown, |lis| + 1, |lis| + 2), 2)
    requires kt == ClusterKeys(Below(b.shown))
    requires NoDup(prev.1 + kt)
    ensures next == (all, prev.1 + kt)
  {
    ChildrenListsTree(b.shown, |lis| + 2, |lis| + 1, prev.1, 2);
  }

  /** The listing of one more basic type extends the listing of the earlier ones. */
  lemma ListingSnoc(bs: seq<Basic>)
    requires |bs| > 0
    ensures var prev := Listing(bs[..|bs| - 1]);
            var t := bs[|bs| - 1].shown;
            Listing(bs) == prev + [BaseRow(bs[|bs| - 1].name, |prev| + 1)] + Lines(Below(t), |prev| + 2, BelowParents(t, |prev| + 1, |prev| + 2), 2)
  {
  }


  lemma StoreStep(rows: seq<Row>, run: seq<string>, bases: seq<string>, base: Row, below: Out)
    requires Stored(rows, run, bases)
    requires base == Row(|rows| + 1, base.labels, "", None, 1, true)
    requires Written(below.rows, |rows| + 2, 2, |rows| + 1)
    requires below.run == run + Keys(below.rows)
    requires NoDup(below.run)
    ensures Stored(rows + [base] + below.rows, below.run, bases + [base.labels])
  {
    var all := rows + [base] + below.rows;
    StepNumbered(rows, base, below.rows);
    StepTyped(rows, base, below.rows);
    StepKeys(rows, run, base, below);
    BaseLabelsAppend(rows + [base], below.rows);
    BaseLabelsAppend(rows, [base]);
    assert BaseLabels([base]) == [base.labels] by {
      assert [base][..0] == [];
    }
    BaseLabelsNone(below.rows);
    assert all[0] == (rows + [base])[0];
  }

  lemma StepNumbered(rows: seq<Row>, base: Row, below: seq<Row>)
    requires Numbered(rows) && base.id == |rows| + 1
    requires Written(below, |rows| + 2, 2, |rows| + 1)
    ensures Numbered(rows + [base] + below)
  {
    var all := rows + [base] + below;
    var n := |rows|;
    forall j | 0 <= j < |all|
      ensures all[j].id == j + 1
    {
      if j < n {
        assert all[j] == rows[j];
      } else if j > n {
        assert all[j] == below[j - n - 1];
      }
    }
  }

  lemma StepTyped(rows: seq<Row>, base: Row, below: seq<Row>)
    requires Numbered(rows) && Typed(rows)
    requires base == Row(|rows| + 1, base.labels, "", None, 1, true)
    requires Written(below, |rows| + 2, 2, |rows| + 1)
    ensures Typed(rows + [base] + below)
  {
    var all := rows + [base] + below;
    var n := |rows|;
    assert forall j :: 0 <= j < n ==> all[j] == rows[j];
    assert all[n] == base;
    assert forall j :: n < j < |all| ==> all[j] == below[j - n - 1];
  }

  lemma StepKeys(rows: seq<Row>, run: seq<string>, base: Row, below: Out)
    requires KeysRecorded(rows, run)
    requires base.basetype
    requires forall j :: 0 <= j < |below.rows| ==> !below.rows[j].basetype
    requires below.run == run + Keys(below.rows)
    requires NoDup(below.run)
    ensures KeysRecorded(rows + [base] + below.rows, below.run)
  {
    var all := rows + [base] + below.rows;
    var n := |rows|;
    assert forall j :: 0 <= j < n ==> all[j] == rows[j];
    assert all[n] == base;
    assert forall j :: n < j < |all| ==> all[j] == below.rows[j - n - 1];
    forall j | 0 <= j < |all| && !all[j].basetype
      ensures Key(all[j]) in below.run
    {
      if j > n {
        assert below.run[|run| + j - n - 1] == Key(all[j]);
      }
    }
    forall a, b | 0 <= a < b < |all| && !all[a].basetype && !all[b].basetype
      ensures Key(all[a]) != Key(all[b])
    {
      if a > n {
        assert below.run[|run| + a - n - 1] == Key(all[a]);
        assert below.run[|run| + b - n - 1] == Key(all[b]);
      } else if b > n {
        assert a < n;
        var i :| 0 <= i < |run| && run[i] == Key(all[a]);
        assert below.run[i] == Key(all[a]);
        assert below.run[|run| + b - n - 1] == Key(all[b]);
      }
    }
  }

  /** The rows of `data.csv`: the header, then one row of cells per line. */
  function Csv(distinct: seq<string>, trees: seq<Tree>): (c: seq<seq<string>>)
    ensures |c| == |Store(distinct, trees).0| + 1 && c[0] == Header
  {
    var rows := Store(distinct, trees).0;
    [Header] + seq(|rows|, j requires 0 <= j < |rows| => Cells(rows[j]))
  }

  /** Each row of the file after the header reads back as the line it was written from. */
  lemma CsvReadsBack(distinct: seq<string>, trees: seq<Tree>, j: nat)
    requires j < |Store(distinct, trees).0|
    ensures ParseRow(Csv(distinct, trees)[j + 1]) == Some(Store(distinct, trees).0[j])
  {
    CellsRoundTrip(Store(distinct, trees).0[j]);
  }
}
