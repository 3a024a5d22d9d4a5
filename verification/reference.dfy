/**
  One round of reference selection: token counts weighted by `amount_dict`
  (`count_labs_props`), the synthetic reference signature made of the most
  frequent label and the most frequent properties (`max_labs_props`), every
  signature's similarity to it (`compute_similarities`) and the expansion of
  those similarities into one value per instance (`to_format`).
 */
module Reference {
  import opened Seqs
  import opened Strs
  import opened Tally
  import opened Similarity

  /** `amount_dict`: how many instances carry each signature. */
  type Amounts = map<string, nat>

  /** Every listed signature has an entry in `amount_dict`. */
  predicate Covers(amount: Amounts, nodes: seq<string>)
  {
    forall i :: 0 <= i < |nodes| ==> nodes[i] in amount
  }

  /** The number of instances behind a list of signatures. */
  function Total(amount: Amounts, nodes: seq<string>): nat
    requires Covers(amount, nodes)
  {
    if |nodes| == 0 then 0
    else Total(amount, nodes[..|nodes| - 1]) + amount[nodes[|nodes| - 1]]
  }

  lemma TotalStep(amount: Amounts, nodes: seq<string>, i: nat)
    requires Covers(amount, nodes) && i < |nodes|
    ensures Total(amount, nodes[..i + 1]) == Total(amount, nodes[..i]) + amount[nodes[i]]
  {
    assert nodes[..i + 1][..i] == nodes[..i];
  }

  lemma {:induction false} TotalPrefix(amount: Amounts, nodes: seq<string>, i: nat)
    requires Covers(amount, nodes) && i <= |nodes|
    ensures Total(amount, nodes[..i]) <= Total(amount, nodes)
    decreases |nodes|
  {
    if i < |nodes| {
      var init := nodes[..|nodes| - 1];
      assert nodes[..i] == init[..i];
      TotalPrefix(amount, init, i);
    } else {
      assert nodes[..i] == nodes;
    }
  }

  /**
    The instances of `nodes[i]` occupy positions `Total(nodes[..i])` up to
    `Total(nodes[..i+1])` of any per-instance list: the part of `xs` that
    belongs to the `i`-th signature.
   */
  function Block<T>(xs: seq<T>, amount: Amounts, nodes: seq<string>, i: nat): (b: seq<T>)
    requires Covers(amount, nodes) && |xs| == Total(amount, nodes) && i < |nodes|
    ensures |b| == amount[nodes[i]]
  {
    TotalStep(amount, nodes, i);
    TotalPrefix(amount, nodes, i + 1);
    xs[Total(amount, nodes[..i])..Total(amount, nodes[..i + 1])]
  }

  /** Appending one signature's instances leaves the earlier blocks alone. */
  lemma BlockAppend<T>(xs: seq<T>, t: seq<T>, amount: Amounts, nodes: seq<string>, i: nat)
    requires Covers(amount, nodes) && |nodes| > 0
    requires |xs| == Total(amount, nodes[..|nodes| - 1])
    requires |t| == amount[nodes[|nodes| - 1]]
    requires i < |nodes|
    ensures |xs + t| == Total(amount, nodes)
    ensures i < |nodes| - 1 ==> Block(xs + t, amount, nodes, i) == Block(xs, amount, nodes[..|nodes| - 1], i)
    ensures i == |nodes| - 1 ==> Block(xs + t, amount, nodes, i) == t
  {
    var init := nodes[..|nodes| - 1];
    if i < |nodes| - 1 {
      assert nodes[..i] == init[..i];
      assert nodes[..i + 1] == init[..i + 1];
      TotalStep(amount, init, i);
      TotalPrefix(amount, init, i + 1);
      var lo, hi := Total(amount, init[..i]), Total(amount, init[..i + 1]);
      assert (xs + t)[lo..hi] == xs[lo..hi];
    } else {
      assert nodes[..i] == init;
      assert nodes[..i + 1] == nodes;
    }
  }

  function Repeat<T>(x: T, n: nat): (r: seq<T>)
    ensures |r| == n
    ensures forall k :: 0 <= k < n ==> r[k] == x
  {
    seq(n, _ => x)
  }

  /** `to_format`: each signature's similarity, once per instance, in list order. */
  function ToFormat(sims: map<string, real>, amount: Amounts, nodes: seq<string>): (data: seq<real>)
    requires Covers(amount, nodes)
    requires forall i :: 0 <= i < |nodes| ==> nodes[i] in sims
    ensures |data| == Total(amount, nodes)
    ensures forall i :: 0 <= i < |nodes| ==>
              Block(data, amount, nodes, i) == Repeat(sims[nodes[i]], amount[nodes[i]])
  {
    if |nodes| == 0 then []
    else
      var init := nodes[..|nodes| - 1];
      var last := nodes[|nodes| - 1];
      var d0 := ToFormat(sims, amount, init);
      var t := Repeat(sims[last], amount[last]);
      forall i | 0 <= i < |nodes|
        ensures Block(d0 + t, amount, nodes, i) == Repeat(sims[nodes[i]], amount[nodes[i]])
      {
        BlockAppend(d0, t, amount, nodes, i);
      }
      d0 + t
  }

  /** The (token, amount) pairs visited by the counting loop: every token of every signature. */
  function NodeStream(amount: Amounts, nodes: seq<string>): (s: seq<Entry>)
    requires Covers(amount, nodes)
    ensures forall w :: w in Words(s) <==> exists i :: 0 <= i < |nodes| && w in Split(nodes[i], ' ')
  {
    if |nodes| == 0 then []
    else
      var init := nodes[..|nodes| - 1];
      var last := nodes[|nodes| - 1];
      var s0 := NodeStream(amount, init);
      var toks := Split(last, ' ');
      var t := seq(|toks|, k requires 0 <= k < |toks| => (toks[k], amount[last]));
      assert Words(s0 + t) == Words(s0) + toks;
      assert forall i :: 0 <= i < |init| ==> init[i] == nodes[i];
      s0 + t
  }

  /** `word in distinct_labels`. */
  function IsLabel(labels: seq<string>): string -> bool
  {
    w => w in labels
  }

  function IsProperty(labels: seq<string>): string -> bool
  {
    w => w !in labels
  }

  /**
    `count_labs_props`: the labels and the properties met, each without
    repetition in order of first appearance, each with the sum of
    `amount_dict[node]` over its occurrences. The source keeps both counts in
    one loop; they are independent, so they are two folds here.
   */
  function CountLabsProps(amount: Amounts, nodes: seq<string>, labels: seq<string>): (r: (Counter, Counter))
    requires Covers(amount, nodes)
    ensures |r.0.keys| == |r.0.counts| && |r.1.keys| == |r.1.counts|
    ensures FirstAppearance(r.0.keys, Words(NodeStream(amount, nodes)), IsLabel(labels))
    ensures FirstAppearance(r.1.keys, Words(NodeStream(amount, nodes)), IsProperty(labels))
    ensures forall i :: 0 <= i < |r.0.keys| ==> r.0.counts[i] == Weight(NodeStream(amount, nodes), r.0.keys[i])
    ensures forall i :: 0 <= i < |r.1.keys| ==> r.1.counts[i] == Weight(NodeStream(amount, nodes), r.1.keys[i])
  {
    var s := NodeStream(amount, nodes);
    (CountWhere(s, IsLabel(labels)), CountWhere(s, IsProperty(labels)))
  }

  /** Every token of every signature is counted either as a label or as a property, never both. */
  lemma LabelsAndPropertiesPartition(amount: Amounts, nodes: seq<string>, labels: seq<string>, w: string)
    requires Covers(amount, nodes)
    requires exists i :: 0 <= i < |nodes| && w in Split(nodes[i], ' ')
    ensures var r := CountLabsProps(amount, nodes, labels);
            (w in r.0.keys) != (w in r.1.keys)
            && (w in r.0.keys <==> w in labels)
  {
    var s := NodeStream(amount, nodes);
    assert w in Words(s);
    assert IsLabel(labels)(w) == (w in labels);
    assert IsProperty(labels)(w) == (w !in labels);
  }

  /** `max(values)`. */
  function Max(vs: seq<nat>): (m: nat)
    requires |vs| > 0
    ensures m in vs
    ensures forall j :: 0 <= j < |vs| ==> vs[j] <= m
  {
    if |vs| == 1 then vs[0]
    else
      var m0 := Max(vs[..|vs| - 1]);
      assert vs[..|vs| - 1][0] == vs[0];
      if vs[|vs| - 1] > m0 then vs[|vs| - 1] else m0
  }

  /** `values.index(max(values))`. */
  function ArgMax(vs: seq<nat>): (k: nat)
    requires |vs| > 0
    ensures k < |vs|
    ensures forall j :: 0 <= j < |vs| ==> vs[j] <= vs[k]
    ensures forall j :: 0 <= j < k ==> vs[j] < vs[k]
  {
    FirstIndex(vs, Max(vs))
  }

  /** `list.remove(x)`: drops the first occurrence of `x`. */
  function RemoveFirst<T(==)>(s: seq<T>, x: T): (r: seq<T>)
    requires x in s
    ensures |r| == |s| - 1
    ensures r == s[..FirstIndex(s, x)] + s[FirstIndex(s, x) + 1..]
  {
    var i := FirstIndex(s, x);
    s[..i] + s[i + 1..]
  }

  /** The count that a pair of parallel lists gives a key. */
  function CountIn(keys: seq<string>, vals: seq<nat>, x: string): nat
    requires |keys| == |vals| && x in keys
  {
    vals[FirstIndex(keys, x)]
  }

  /**
    `freq_lab = labs[values_labs.index(max(values_labs))]`, or `""` when the
    lookup fails on an empty list.
   */
  function FreqLabel(c: Counter): (lab: string)
    requires |c.keys| == |c.counts| && NoDup(c.keys)
    ensures |c.keys| == 0 ==> lab == ""
    ensures |c.keys| > 0 ==> lab in c.keys
    ensures |c.keys| > 0 ==>
              (forall j :: 0 <= j < |c.keys| ==> c.counts[j] <= CountIn(c.keys, c.counts, lab))
              && (forall j :: 0 <= j < FirstIndex(c.keys, lab) ==> c.counts[j] < CountIn(c.keys, c.counts, lab))
  {
    if |c.counts| == 0 then ""
    else
      var k := ArgMax(c.counts);
      NoDupFirstIndex(c.keys, k);
      c.keys[k]
  }

  lemma NoDupFirstIndex<T>(s: seq<T>, k: nat)
    requires NoDup(s) && k < |s|
    ensures FirstIndex(s, s[k]) == k
  {
  }

  /** Removing position `ind` from both parallel lists keeps every other key's count. */
  lemma RemoveKeepsCounts(keys: seq<string>, vals: seq<nat>, ind: nat, x: string)
    requires |keys| == |vals| && NoDup(keys) && ind < |keys|
    requires x in keys && x != keys[ind]
    ensures x in keys[..ind] + keys[ind + 1..]
    ensures CountIn(keys[..ind] + keys[ind + 1..], vals[..ind] + vals[ind + 1..], x) == CountIn(keys, vals, x)
  {
    var k := FirstIndex(keys, x);
    var keys' := keys[..ind] + keys[ind + 1..];
    var vals' := vals[..ind] + vals[ind + 1..];
    var k' := if k < ind then k else k - 1;
    assert keys'[k'] == x;
    NoDupRemove(keys, ind);
    NoDupFirstIndex(keys', k');
  }

  lemma NoDupRemove<T>(s: seq<T>, ind: nat)
    requires NoDup(s) && ind < |s|
    ensures NoDup(s[..ind] + s[ind + 1..])
    ensures s[ind] !in s[..ind] + s[ind + 1..]
  {
    var r := s[..ind] + s[ind + 1..];
    forall i, j | 0 <= i < j < |r|
      ensures r[i] != r[j]
    {
      var i' := if i < ind then i else i + 1;
      var j' := if j < ind then j else j + 1;
      assert r[i] == s[i'] && r[j] == s[j'];
    }
    forall i | 0 <= i < |r|
      ensures r[i] != s[ind]
    {
      var i' := if i < ind then i else i + 1;
      assert r[i] == s[i'];
    }
  }

  /**
    The loop of `max_labs_props` over `range(n)`: take the property with the
    highest count (the first one on ties), then remove it from both lists;
    once the lists are empty the remaining rounds do nothing.
   */
  function TopProps(props: seq<string>, vals: seq<nat>, n: int): (sel: seq<string>)
    requires |props| == |vals| && NoDup(props)
    ensures |sel| == if n <= 0 then 0 else if n < |props| then n else |props|
    ensures NoDup(sel)
    ensures forall x :: x in sel ==> x in props
    ensures forall j, x :: 0 <= j < |sel| && x in props && x !in sel[..j] ==>
              CountIn(props, vals, sel[j]) >= CountIn(props, vals, x)
    decreases if n < 0 then 0 else n
  {
    if n <= 0 || |vals| == 0 then []
    else
      var ind := ArgMax(vals);
      var props' := RemoveFirst(props, props[ind]);
      var vals' := RemoveFirst(vals, vals[ind]);
      NoDupFirstIndex(props, ind);
      assert FirstIndex(vals, vals[ind]) == ind;
      NoDupRemove(props, ind);
      var rest := TopProps(props', vals', n - 1);
      TopPropsStep(props, vals, ind, rest);
      [props[ind]] + rest
  }

  lemma TopPropsStep(props: seq<string>, vals: seq<nat>, ind: nat, rest: seq<string>)
    requires |props| == |vals| && NoDup(props) && ind < |props|
    requires forall j :: 0 <= j < |vals| ==> vals[j] <= vals[ind]
    requires NoDup(props[..ind] + props[ind + 1..])
    requires props[ind] !in props[..ind] + props[ind + 1..]
    requires NoDup(rest)
    requires forall x :: x in rest ==> x in props[..ind] + props[ind + 1..]
    requires forall j, x :: 0 <= j < |rest| && rest[j] in props[..ind] + props[ind + 1..]
                            && x in props[..ind] + props[ind + 1..] && x !in rest[..j] ==>
               CountIn(props[..ind] + props[ind + 1..], vals[..ind] + vals[ind + 1..], rest[j])
               >= CountIn(props[..ind] + props[ind + 1..], vals[..ind] + vals[ind + 1..], x)
    ensures NoDup([props[ind]] + rest)
    ensures forall x :: x in [props[ind]] + rest ==> x in props
    ensures forall j, x :: 0 <= j < |[props[ind]] + rest| && x in props && x !in ([props[ind]] + rest)[..j] ==>
              CountIn(props, vals, ([props[ind]] + rest)[j]) >= CountIn(props, vals, x)
  {
    var sel := [props[ind]] + rest;
    var props' := props[..ind] + props[ind + 1..];
    var vals' := vals[..ind] + vals[ind + 1..];
    NoDupFirstIndex(props, ind);
    forall x | x in rest
      ensures x in props && x != props[ind]
    {
      assert x in props';
    }
    forall i, k | 0 <= i < k < |sel|
      ensures sel[i] != sel[k]
    {
      if i == 0 {
        assert sel[k] in rest;
      } else {
        assert sel[i] == rest[i - 1] && sel[k] == rest[k - 1];
      }
    }
    forall j, x | 0 <= j < |sel| && x in props && x !in sel[..j]
      ensures CountIn(props, vals, sel[j]) >= CountIn(props, vals, x)
    {
      if j == 0 {
        assert CountIn(props, vals, sel[0]) == vals[ind];
      } else {
        assert sel[..j] == [props[ind]] + rest[..j - 1];
        assert x != props[ind];
        RemoveKeepsCounts(props, vals, ind, x);
        assert sel[j] == rest[j - 1];
        assert rest[j - 1] in rest;
        assert rest[j - 1] in props';
        RemoveKeepsCounts(props, vals, ind, rest[j - 1]);
      }
    }
  }

  /** Tokens come from splitting on spaces, so no counted token contains one. */
  lemma TokensHaveNoSpace(amount: Amounts, nodes: seq<string>, w: string)
    requires Covers(amount, nodes)
    requires w in Words(NodeStream(amount, nodes))
    ensures ' ' !in w
  {
    var i :| 0 <= i < |nodes| && w in Split(nodes[i], ' ');
    var toks := Split(nodes[i], ' ');
    var k :| 0 <= k < |toks| && toks[k] == w;
  }

  /** `lab + " " + " ".join(sel)` splits back into the label followed by the properties. */
  lemma ReferenceSplits(lab: string, sel: seq<string>)
    requires ' ' !in lab
    requires forall k :: 0 <= k < |sel| ==> ' ' !in sel[k]
    ensures Split(lab + " " + Join(sel, " "), ' ') == [lab] + (if |sel| == 0 then [""] else sel)
  {
    var parts := [lab] + (if |sel| == 0 then [""] else sel);
    assert parts[1..] == (if |sel| == 0 then [""] else sel);
    assert Join(parts, [' ']) == lab + " " + Join(sel, " ");
    SplitJoin(parts, ' ');
  }

  /**
    `max_labs_props`: the most frequent label, a space, then the `n` most
    frequent properties joined by spaces. Split on spaces, the reference
    gives back the label followed by the chosen properties (a lone empty
    piece when none was chosen: the space is always there).
   */
  function MaxLabsProps(amount: Amounts, nodes: seq<string>, n: int, labels: seq<string>): (ref: string)
    requires Covers(amount, nodes)
    ensures var counts := CountLabsProps(amount, nodes, labels);
            var sel := TopProps(counts.1.keys, counts.1.counts, n);
            Split(ref, ' ') == [FreqLabel(counts.0)] + (if |sel| == 0 then [""] else sel)
  {
    var counts := CountLabsProps(amount, nodes, labels);
    var lab := FreqLabel(counts.0);
    var sel := TopProps(counts.1.keys, counts.1.counts, n);
    ChosenHaveNoSpace(amount, nodes, counts, lab, sel);
    ReferenceSplits(lab, sel);
    lab + " " + Join(sel, " ")
  }

  lemma ChosenHaveNoSpace(amount: Amounts, nodes: seq<string>, counts: (Counter, Counter), lab: string, sel: seq<string>)
    requires Covers(amount, nodes)
    requires |counts.0.keys| == |counts.0.counts| && NoDup(counts.0.keys)
    requires forall x :: x in counts.0.keys ==> x in Words(NodeStream(amount, nodes))
    requires forall x :: x in counts.1.keys ==> x in Words(NodeStream(amount, nodes))
    requires lab == FreqLabel(counts.0)
    requires forall x :: x in sel ==> x in counts.1.keys
    ensures ' ' !in lab
    ensures forall k :: 0 <= k < |sel| ==> ' ' !in sel[k]
  {
    if |counts.0.keys| > 0 {
      TokensHaveNoSpace(amount, nodes, lab);
    }
    forall k | 0 <= k < |sel|
      ensures ' ' !in sel[k]
    {
      assert sel[k] in sel;
      TokensHaveNoSpace(amount, nodes, sel[k]);
    }
  }

  /** `compute_similarities`: every signature mapped to its Dice coefficient with the reference. */
  function ComputeSimilarities(nodes: seq<string>, ref: string): (sims: map<string, real>)
    ensures forall x :: x in sims <==> x in nodes
    ensures forall x :: x in sims ==> sims[x] == Dice(ref, x) && 0.0 <= sims[x] <= 1.0
    ensures ref in nodes ==> sims[ref] == 1.0
  {
    if |nodes| == 0 then map[]
    else
      var init := nodes[..|nodes| - 1];
      var last := nodes[|nodes| - 1];
      assert forall x :: x in nodes <==> x in init || x == last;
      ComputeSimilarities(init, ref)[last := Dice(ref, last)]
  }
}
