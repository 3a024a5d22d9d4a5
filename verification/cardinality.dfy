/**
  `get_edges_card`: the cardinality and optionality of every edge type, from
  the number of instances of the edge type, of its source and target nodes,
  and of the source and target node types.
 */
module Cardinality {
  import opened Wrappers
  import opened Seqs
  import opened FormatUtils
  import opened Json

  /** A node type and its number of instances. */
  datatype NodeType = NodeType(nlabel: seq<string>, nbn: int)

  /**
    An edge type `(n)-[e]->(m)`: its labels, the number of distinct source
    nodes (`nbn`), of distinct target nodes (`nbm`) and of edges.
   */
  datatype EdgeType = EdgeType(nlabel: seq<string>, elabel: string, mlabel: seq<string>, nbn: int, nbm: int, nbedges: int)

  /** The first node type whose label list equals `labels` (`mit.locate(...)[0]`). */
  function Locate(nodeTypes: seq<NodeType>, labels: seq<string>): (r: Option<nat>)
    ensures r.None? <==> forall i :: 0 <= i < |nodeTypes| ==> nodeTypes[i].nlabel != labels
    ensures r.Some? ==> r.value < |nodeTypes| && nodeTypes[r.value].nlabel == labels
    ensures r.Some? ==> forall i :: 0 <= i < r.value ==> nodeTypes[i].nlabel != labels
  {
    if |nodeTypes| == 0 then None
    else if nodeTypes[0].nlabel == labels then Some(0)
    else
      match Locate(nodeTypes[1..], labels)
      case None => None
      case Some(i) => Some(i + 1)
  }

  /** The number of instances of the node type with these labels; none where the source raises `IndexError`. */
  function Instances(nodeTypes: seq<NodeType>, labels: seq<string>): Option<int>
  {
    match Locate(nodeTypes, labels)
    case None => None
    case Some(i) => Some(nodeTypes[i].nbn)
  }

  /** The four cardinality cases, in the order the source tests them. */
  datatype Shape = OneToOne | ManyToOne | OneToMany | ManyToMany

  function ShapeOf(nbSource: int, nbTarget: int, nbEdges: int): Shape
  {
    if nbSource == nbTarget == nbEdges then OneToOne
    else if nbSource > nbTarget && nbEdges == nbSource then ManyToOne
    else if nbSource < nbTarget && nbEdges == nbTarget then OneToMany
    else ManyToMany
  }

  function Mirror(s: Shape): Shape
  {
    match s
    case ManyToOne => OneToMany
    case OneToMany => ManyToOne
    case _ => s
  }

  /**
    What each case means for the counts: one edge per source and target node
    for one-to-one; many-to-one exactly when there are more source than target
    nodes and one edge per source node; and more edges than either end forces
    many-to-many. Reading the edge type backwards mirrors the case.
   */
  lemma ShapeFacts(s: int, t: int, e: int)
    ensures ShapeOf(s, t, e) == OneToOne <==> s == t == e
    ensures ShapeOf(s, t, e) == ManyToOne <==> s > t && e == s
    ensures ShapeOf(s, t, e) == OneToMany <==> s < t && e == t
    ensures e > s && e > t ==> ShapeOf(s, t, e) == ManyToMany
    ensures ShapeOf(t, s, e) == Mirror(ShapeOf(s, t, e))
  {
  }

  /** One end of an edge type: whether every node of the type takes part, and whether it can take part many times. */
  datatype Multiplicity = Multiplicity(mandatory: bool, many: bool)

  /** The rendering `1`, `0..1`, `1..*` or `0..*`. */
  function Bound(m: Multiplicity): string
  {
    match m
    case Multiplicity(true, false) => "1"
    case Multiplicity(false, false) => "0..1"
    case Multiplicity(true, true) => "1..*"
    case Multiplicity(false, true) => "0..*"
  }

  /** Reading a bound back. */
  function ParseBound(s: string): (r: Option<Multiplicity>)
    ensures r.Some? ==> Bound(r.value) == s
  {
    if s == "1" then Some(Multiplicity(true, false))
    else if s == "0..1" then Some(Multiplicity(false, false))
    else if s == "1..*" then Some(Multiplicity(true, true))
    else if s == "0..*" then Some(Multiplicity(false, true))
    else None
  }

  lemma BoundRoundTrip(m: Multiplicity)
    ensures ParseBound(Bound(m)) == Some(m)
  {
  }

  /** Reading `"<source> : <target>"` back into the two multiplicities. */
  function ParseCardinality(c: string): (r: Option<(Multiplicity, Multiplicity)>)
    ensures r.Some? ==> c == Bound(r.value.0) + " : " + Bound(r.value.1)
  {
    if |c| >= 3 then
      var i := SepIndex(c, 0);
      if i < |c| then
        match (ParseBound(c[..i]), ParseBound(c[i + 3..]))
        case (Some(a), Some(b)) =>
          SplitAtSep(c, i);
          Some((a, b))
        case _ => None
      else None
    else None
  }

  lemma SplitAtSep(c: string, i: nat)
    requires SepAt(c, i)
    ensures c == c[..i] + " : " + c[i + 3..]
  {
    assert c == c[..i] + c[i..i + 3] + c[i + 3..];
  }

  /** `" : "` starts at position `j` of `c`. */
  predicate SepAt(c: string, j: nat)
  {
    j + 3 <= |c| && c[j..j + 3] == " : "
  }

  /** The first position from `from` where `" : "` starts, or `|c|` if there is none. */
  function SepIndex(c: string, from: nat): (i: nat)
    requires from <= |c|
    ensures from <= i <= |c|
    ensures i < |c| ==> SepAt(c, i)
    ensures forall j :: from <= j < i ==> !SepAt(c, j)
    decreases |c| - from
  {
    if from + 3 > |c| then |c|
    else if c[from..from + 3] == " : " then from
    else SepIndex(c, from + 1)
  }

  /** No bound contains a space, so the separator is found right after the source bound. */
  lemma SepAfterBound(a: Multiplicity, b: Multiplicity)
    ensures var c := Bound(a) + " : " + Bound(b); SepIndex(c, 0) == |Bound(a)|
  {
    var c := Bound(a) + " : " + Bound(b);
    var n := |Bound(a)|;
    assert c[n..n + 3] == " : ";
    BoundHasNoSpace(a);
    forall j | 0 <= j < n
      ensures !SepAt(c, j)
    {
      assert c[j] == Bound(a)[j] != ' ';
      assert c[j..j + 3][0] == c[j];
    }
    SepIndexFinds(c, 0, n);
  }

  lemma BoundHasNoSpace(m: Multiplicity)
    ensures forall j :: 0 <= j < |Bound(m)| ==> Bound(m)[j] != ' '
  {
  }

  lemma {:induction false} SepIndexFinds(c: string, from: nat, n: nat)
    requires from <= n && SepAt(c, n)
    requires forall j :: from <= j < n ==> !SepAt(c, j)
    ensures SepIndex(c, from) == n
    decreases n - from
  {
    if from < n {
      SepIndexFinds(c, from + 1, n);
    }
  }

  lemma CardinalityRoundTrip(a: Multiplicity, b: Multiplicity)
    ensures ParseCardinality(Bound(a) + " : " + Bound(b)) == Some((a, b))
  {
    var c := Bound(a) + " : " + Bound(b);
    SepAfterBound(a, b);
    var n := |Bound(a)|;
    assert c[..n] == Bound(a);
    assert c[n + 3..] == Bound(b);
    BoundRoundTrip(a);
    BoundRoundTrip(b);
  }

  /** The cardinality string, built as the source builds it case by case. */
  function CardString(nbSource: int, nbTarget: int, nbEdges: int, mandatorySource: bool, mandatoryTarget: bool): string
  {
    if nbSource == nbTarget == nbEdges then
      (if mandatorySource then "1 : " else "0..1 : ") + (if mandatoryTarget then "1" else "0..1")
    else if nbSource > nbTarget && nbEdges == nbSource then
      (if mandatorySource then "1..* : " else "0..* : ") + (if mandatoryTarget then "1" else "0..1")
    else if nbSource < nbTarget && nbEdges == nbTarget then
      (if mandatorySource then "1 : " else "0..1 : ") + (if mandatoryTarget then "1..*" else "0..*")
    else
      (if mandatorySource then "1..* : " else "0..* : ") + (if mandatoryTarget then "1..*" else "0..*")
  }

  /**
    The source end is many in the many-to-one and many-to-many cases, the
    target end in the one-to-many and many-to-many cases, and each end's
    bound is mandatory as given; the string reads back as those two ends.
   */
  lemma CardStringReadsBack(s: int, t: int, e: int, ms: bool, mt: bool)
    ensures var shape := ShapeOf(s, t, e);
      ParseCardinality(CardString(s, t, e, ms, mt)) ==
        Some((Multiplicity(ms, shape in {ManyToOne, ManyToMany}), Multiplicity(mt, shape in {OneToMany, ManyToMany})))
  {
    var shape := ShapeOf(s, t, e);
    var src := Multiplicity(ms, shape in {ManyToOne, ManyToMany});
    var tgt := Multiplicity(mt, shape in {OneToMany, ManyToMany});
    assert CardString(s, t, e, ms, mt) == Bound(src) + " : " + Bound(tgt);
    CardinalityRoundTrip(src, tgt);
  }

  /**
    The entry written for an edge type whose source node type has `nbn` and
    target node type `nbm` instances: mandatory exactly when every source and
    every target node takes part, and a cardinality string that reads back as
    the two ends.
   */
  function EdgeEntry(e: EdgeType, nbn: int, nbm: int): (r: Json)
    ensures r.JObj? && Keys(r.fields) == ["meta_mandatory", "meta_cardinality"]
    ensures Get(r.fields, "meta_mandatory") == Some(JBool(!(e.nbn < nbn || e.nbm < nbm)))
    ensures var shape := ShapeOf(e.nbn, e.nbm, e.nbedges);
      Get(r.fields, "meta_cardinality").Some? &&
      Get(r.fields, "meta_cardinality").value.JStr? &&
      ParseCardinality(Get(r.fields, "meta_cardinality").value.s) ==
        Some((Multiplicity(e.nbn >= nbn, shape in {ManyToOne, ManyToMany}),
              Multiplicity(e.nbm >= nbm, shape in {OneToMany, ManyToMany})))
  {
    var mandatory := !(e.nbn < nbn || e.nbm < nbm);
    var card := CardString(e.nbn, e.nbm, e.nbedges, !(e.nbn < nbn), !(e.nbm < nbm));
    CardStringReadsBack(e.nbn, e.nbm, e.nbedges, !(e.nbn < nbn), !(e.nbm < nbm));
    var fs := [Field("meta_mandatory", JBool(mandatory)), Field("meta_cardinality", JStr(card))];
    assert Keys(fs) == ["meta_mandatory", "meta_cardinality"];
    IndexOfIs(fs, "meta_mandatory", 0);
    IndexOfIs(fs, "meta_cardinality", 1);
    JObj(fs)
  }

  /** The edge is mandatory exactly when both of its ends are. */
  lemma MandatoryBothEnds(e: EdgeType, nbn: int, nbm: int)
    ensures var r := EdgeEntry(e, nbn, nbm);
      var ends := ParseCardinality(Get(r.fields, "meta_cardinality").value.s).value;
      Get(r.fields, "meta_mandatory") == Some(JBool(ends.0.mandatory && ends.1.mandatory))
  {
  }

  /** `nlab + "::" + elabel + "::" + mlab`. */
  function EdgeKey(e: EdgeType): string
  {
    LabelFormat(e.nlabel) + "::" + e.elabel + "::" + LabelFormat(e.mlabel)
  }

  /** Both end node types of the edge type are listed. */
  predicate Resolvable(nodeTypes: seq<NodeType>, e: EdgeType)
  {
    Instances(nodeTypes, e.nlabel).Some? && Instances(nodeTypes, e.mlabel).Some?
  }

  function Entry(nodeTypes: seq<NodeType>, e: EdgeType): Json
    requires Resolvable(nodeTypes, e)
  {
    EdgeEntry(e, Instances(nodeTypes, e.nlabel).value, Instances(nodeTypes, e.mlabel).value)
  }

  /** The keys of the edge types, in order. */
  function EdgeKeys(es: seq<EdgeType>): (ks: seq<string>)
    ensures |ks| == |es|
    ensures forall i :: 0 <= i < |es| ==> ks[i] == EdgeKey(es[i])
  {
    seq(|es|, i requires 0 <= i < |es| => EdgeKey(es[i]))
  }

  /** The entries of the edge types, in order. */
  function Entries(nodeTypes: seq<NodeType>, es: seq<EdgeType>): (vs: seq<Json>)
    requires forall i :: 0 <= i < |es| ==> Resolvable(nodeTypes, es[i])
    ensures |vs| == |es|
    ensures forall i :: 0 <= i < |es| ==> vs[i] == Entry(nodeTypes, es[i])
  {
    seq(|es|, i requires 0 <= i < |es| => Entry(nodeTypes, es[i]))
  }

  /**
    `get_edges_card`: one entry per edge type key, holding the entry of the
    last edge type with that key; fails when an end node type is not listed.
   */
  function EdgesCard(nodeTypes: seq<NodeType>, edgeTypes: seq<EdgeType>): (r: Result<seq<Field>>)
    ensures r.Ok? <==> forall i :: 0 <= i < |edgeTypes| ==> Resolvable(nodeTypes, edgeTypes[i])
    ensures r.Ok? ==> NoDup(Keys(r.value))
    ensures r.Ok? ==> forall k :: k in Keys(r.value) <==> k in EdgeKeys(edgeTypes)
    ensures r.Ok? ==> forall i :: 0 <= i < |edgeTypes| && LastWithKey(EdgeKeys(edgeTypes), i) ==>
              Get(r.value, EdgeKey(edgeTypes[i])) == Some(Entry(nodeTypes, edgeTypes[i]))
  {
    if forall i :: 0 <= i < |edgeTypes| ==> Resolvable(nodeTypes, edgeTypes[i]) then
      Ok(Assign(EdgeKeys(edgeTypes), Entries(nodeTypes, edgeTypes)))
    else Err("IndexError: node type not found")
  }
}
