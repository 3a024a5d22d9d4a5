/**
  JSON values as the source holds them after `json.loads`: Python dicts (key
  order kept, keys distinct), lists, strings, integers, booleans and `None`;
  with the dict operations the source uses (`d[k]`, `d[k] = v`, `d.update`),
  Python's truth test and `str`/`repr`.
 */
module Json {
  import opened Wrappers
  import opened Seqs
  import opened Strs

  datatype Json =
    | JNull
    | JBool(b: bool)
    | JInt(i: int)
    | JStr(s: string)
    | JArr(items: seq<Json>)
    | JObj(fields: seq<Field>)

  /** One `key: value` entry of a dict. */
  datatype Field = Field(key: string, val: Json)

  function Keys(fs: seq<Field>): (ks: seq<string>)
    ensures |ks| == |fs|
    ensures forall i :: 0 <= i < |fs| ==> ks[i] == fs[i].key
  {
    seq(|fs|, i requires 0 <= i < |fs| => fs[i].key)
  }

  /** The position of key `k`, if present. */
  function IndexOf(fs: seq<Field>, k: string): (r: Option<nat>)
    ensures r.None? <==> k !in Keys(fs)
    ensures r.Some? ==> r.value < |fs| && fs[r.value].key == k
    ensures r.Some? ==> forall j :: 0 <= j < r.value ==> fs[j].key != k
  {
    if |fs| == 0 then None
    else if fs[0].key == k then Some(0)
    else
      match IndexOf(fs[1..], k)
      case None =>
        assert Keys(fs) == [fs[0].key] + Keys(fs[1..]);
        None
      case Some(i) => Some(i + 1)
  }

  /** `d[k]`, none where Python raises `KeyError`. */
  function Get(fs: seq<Field>, k: string): (r: Option<Json>)
    ensures r.Some? <==> k in Keys(fs)
  {
    match IndexOf(fs, k)
    case None => None
    case Some(i) => Some(fs[i].val)
  }

  /** `d[k] = v`: an existing key keeps its place, a new one goes last. */
  function Set(fs: seq<Field>, k: string, v: Json): (r: seq<Field>)
    ensures Keys(r) == if k in Keys(fs) then Keys(fs) else Keys(fs) + [k]
    ensures Get(r, k) == Some(v)
    ensures forall k' :: k' != k ==> Get(r, k') == Get(fs, k')
  {
    match IndexOf(fs, k)
    case Some(i) =>
      var r := fs[i := Field(k, v)];
      assert Keys(r) == Keys(fs);
      assert IndexOf(r, k) == Some(i);
      SetKeepsOthers(fs, i, k, v);
      r
    case None =>
      var r := fs + [Field(k, v)];
      assert Keys(r) == Keys(fs) + [k];
      SetKeepsOthersAppend(fs, k, v);
      r
  }

  lemma {:induction false} IndexOfIs(fs: seq<Field>, k: string, p: nat)
    requires p < |fs| && fs[p].key == k
    requires forall j :: 0 <= j < p ==> fs[j].key != k
    ensures IndexOf(fs, k) == Some(p)
  {
    if p > 0 {
      assert fs[0].key != k;
      assert fs[1..][p - 1] == fs[p];
      IndexOfIs(fs[1..], k, p - 1);
    }
  }

  lemma SetKeepsOthers(fs: seq<Field>, i: nat, k: string, v: Json)
    requires i < |fs| && fs[i].key == k
    ensures forall k' :: k' != k ==> Get(fs[i := Field(k, v)], k') == Get(fs, k')
  {
    var r := fs[i := Field(k, v)];
    assert Keys(r) == Keys(fs);
    forall k' | k' != k
      ensures Get(r, k') == Get(fs, k')
    {
      match IndexOf(fs, k')
      case None =>
      case Some(p) => IndexOfIs(r, k', p);
    }
  }

  lemma SetKeepsOthersAppend(fs: seq<Field>, k: string, v: Json)
    requires k !in Keys(fs)
    ensures forall k' :: k' != k ==> Get(fs + [Field(k, v)], k') == Get(fs, k')
  {
    var r := fs + [Field(k, v)];
    assert Keys(r) == Keys(fs) + [k];
    forall k' | k' != k
      ensures Get(r, k') == Get(fs, k')
    {
      match IndexOf(fs, k')
      case None =>
      case Some(p) => IndexOfIs(r, k', p);
    }
  }

  /** `d.update(e)`: the entries of `e` set one by one, in order. */
  function Update(d: seq<Field>, e: seq<Field>): (r: seq<Field>)
    ensures forall k :: k in Keys(r) <==> k in Keys(d) || k in Keys(e)
    ensures forall k :: k !in Keys(e) ==> Get(r, k) == Get(d, k)
    ensures NoDup(Keys(e)) ==> forall k :: k in Keys(e) ==> Get(r, k) == Get(e, k)
    decreases |e|
  {
    if |e| == 0 then d
    else
      var d' := Set(d, e[0].key, e[0].val);
      var r := Update(d', e[1..]);
      UpdateStep(d, e, d', r);
      r
  }

  lemma UpdateStep(d: seq<Field>, e: seq<Field>, d': seq<Field>, r: seq<Field>)
    requires |e| > 0 && d' == Set(d, e[0].key, e[0].val)
    requires forall k :: k in Keys(r) <==> k in Keys(d') || k in Keys(e[1..])
    requires forall k :: k !in Keys(e[1..]) ==> Get(r, k) == Get(d', k)
    requires NoDup(Keys(e[1..])) ==> forall k :: k in Keys(e[1..]) ==> Get(r, k) == Get(e[1..], k)
    ensures forall k :: k in Keys(r) <==> k in Keys(d) || k in Keys(e)
    ensures forall k :: k !in Keys(e) ==> Get(r, k) == Get(d, k)
    ensures NoDup(Keys(e)) ==> forall k :: k in Keys(e) ==> Get(r, k) == Get(e, k)
  {
    assert Keys(e) == [e[0].key] + Keys(e[1..]);
    if NoDup(Keys(e)) {
      UpdateStepNoDup(e, d', r);
    }
  }

  /** Without repeated keys, the keys after the first field repeat neither each other nor the first. */
  lemma KeysTail(e: seq<Field>)
    requires |e| > 0 && NoDup(Keys(e))
    ensures NoDup(Keys(e[1..])) && e[0].key !in Keys(e[1..])
  {
    forall i, j | 0 <= i < j < |e[1..]|
      ensures Keys(e[1..])[i] != Keys(e[1..])[j]
    {
      assert Keys(e)[i + 1] != Keys(e)[j + 1];
    }
    forall i | 0 <= i < |e[1..]|
      ensures Keys(e[1..])[i] != e[0].key
    {
      assert Keys(e)[0] != Keys(e)[i + 1];
    }
  }

  lemma UpdateStepNoDup(e: seq<Field>, d': seq<Field>, r: seq<Field>)
    requires |e| > 0 && NoDup(Keys(e))
    requires Get(d', e[0].key) == Some(e[0].val)
    requires forall k :: k !in Keys(e[1..]) ==> Get(r, k) == Get(d', k)
    requires NoDup(Keys(e[1..])) ==> forall k :: k in Keys(e[1..]) ==> Get(r, k) == Get(e[1..], k)
    ensures forall k :: k in Keys(e) ==> Get(r, k) == Get(e, k)
  {
    IndexOfIs(e, e[0].key, 0);
    KeysTail(e);
    forall k | k in Keys(e[1..])
      ensures Get(e[1..], k) == Get(e, k)
    {
      var p := IndexOf(e[1..], k).value;
      assert Keys(e)[0] != Keys(e)[p + 1];
      IndexOfIs(e, k, p + 1);
    }
  }

  /** `d.setdefault(k, v)`: a new key goes last with value `v`, an existing one is left alone. */
  function SetDefault(fs: seq<Field>, k: string, v: Json): (r: seq<Field>)
    ensures Keys(r) == if k in Keys(fs) then Keys(fs) else Keys(fs) + [k]
    ensures Get(r, k) == if k in Keys(fs) then Get(fs, k) else Some(v)
    ensures forall k' :: k' != k ==> Get(r, k') == Get(fs, k')
  {
    if k in Keys(fs) then fs else Set(fs, k, v)
  }

  /** No later key equals the `i`-th. */
  predicate LastWithKey(keys: seq<string>, i: nat)
    requires i < |keys|
  {
    forall j :: i < j < |keys| ==> keys[j] != keys[i]
  }

  /** A last position before the final key stays last once that key is dropped. */
  lemma LastWithKeyPrefix(keys: seq<string>, i: nat)
    requires i < |keys| - 1 && LastWithKey(keys, i)
    ensures LastWithKey(keys[..|keys| - 1], i)
  {
    var init := keys[..|keys| - 1];
    forall j | i < j < |init|
      ensures init[j] != init[i]
    {
      assert init[j] == keys[j];
    }
  }

  /** The last position holding a key that occurs. */
  lemma {:induction false} LastOccurrence(keys: seq<string>, k: string) returns (i: nat)
    requires k in keys
    ensures i < |keys| && keys[i] == k && LastWithKey(keys, i)
  {
    var n := |keys|;
    if keys[n - 1] == k {
      i := n - 1;
    } else {
      assert k in keys[..n - 1] by {
        var j :| 0 <= j < n && keys[j] == k;
        assert keys[..n - 1][j] == k;
      }
      i := LastOccurrence(keys[..n - 1], k);
    }
  }

  /**
    The dict built by `d[ks[i]] = vs[i]` for each `i` in turn, from an empty
    dict: each key once, holding the value of its last assignment.
   */
  function Assign(ks: seq<string>, vs: seq<Json>): (r: seq<Field>)
    requires |ks| == |vs|
    ensures NoDup(Keys(r))
    ensures forall k :: k in Keys(r) <==> k in ks
    ensures forall i :: 0 <= i < |ks| && LastWithKey(ks, i) ==> Get(r, ks[i]) == Some(vs[i])
  {
    if |ks| == 0 then []
    else
      var n := |ks|;
      var prev := Assign(ks[..n - 1], vs[..n - 1]);
      AssignStep(ks, vs, prev);
      Set(prev, ks[n - 1], vs[n - 1])
  }

  lemma AssignStep(ks: seq<string>, vs: seq<Json>, prev: seq<Field>)
    requires |ks| == |vs| > 0
    requires NoDup(Keys(prev))
    requires forall k :: k in Keys(prev) <==> k in ks[..|ks| - 1]
    requires forall i :: 0 <= i < |ks| - 1 && LastWithKey(ks[..|ks| - 1], i) ==> Get(prev, ks[i]) == Some(vs[i])
    ensures var r := Set(prev, ks[|ks| - 1], vs[|ks| - 1]);
      && NoDup(Keys(r))
      && (forall k :: k in Keys(r) <==> k in ks)
      && (forall i :: 0 <= i < |ks| && LastWithKey(ks, i) ==> Get(r, ks[i]) == Some(vs[i]))
  {
    var n := |ks|;
    var key := ks[n - 1];
    var r := Set(prev, key, vs[n - 1]);
    assert ks == ks[..n - 1] + [key];
    assert NoDup(Keys(r)) by {
      if key !in Keys(prev) {
        forall i, j | 0 <= i < j < |Keys(r)|
          ensures Keys(r)[i] != Keys(r)[j]
        {
          if j == |Keys(prev)| {
            assert Keys(r)[i] == Keys(prev)[i];
          }
        }
      }
    }
    forall i | 0 <= i < n && LastWithKey(ks, i)
      ensures Get(r, ks[i]) == Some(vs[i])
    {
      if i < n - 1 {
        assert ks[n - 1] != ks[i];
        LastWithKeyPrefix(ks, i);
      }
    }
  }

  /** Python's truth test: `None`, `False`, `0`, and empty strings, lists and dicts are false. */
  predicate Falsy(j: Json)
  {
    match j
    case JNull => true
    case JBool(b) => !b
    case JInt(i) => i == 0
    case JStr(s) => |s| == 0
    case JArr(items) => |items| == 0
    case JObj(fields) => |fields| == 0
  }

  function IntToString(i: int): string
  {
    if i < 0 then "-" + NatToString(-i) else NatToString(i)
  }

  /** `repr(j)`, with strings always in single quotes and never escaped. */
  function Repr(j: Json): string
    decreases j, 1
  {
    match j
    case JNull => "None"
    case JBool(b) => if b then "True" else "False"
    case JInt(i) => IntToString(i)
    case JStr(s) => "'" + s + "'"
    case JArr(items) => "[" + ReprItems(j, |items|) + "]"
    case JObj(fields) => "{" + ReprFields(j, |fields|) + "}"
  }

  /** The first `n` items of a list, each in `repr` form, separated by `, `. */
  function ReprItems(j: Json, n: nat): string
    requires j.JArr? && n <= |j.items|
    decreases j, 0, n
  {
    if n == 0 then ""
    else if n == 1 then Repr(j.items[0])
    else ReprItems(j, n - 1) + ", " + Repr(j.items[n - 1])
  }

  /** The first `n` entries of a dict as `'key': repr(value)`, separated by `, `. */
  function ReprFields(j: Json, n: nat): string
    requires j.JObj? && n <= |j.fields|
    decreases j, 0, n
  {
    if n == 0 then ""
    else
      var f := j.fields[n - 1];
      var entry := "'" + f.key + "': " + Repr(f.val);
      if n == 1 then entry else ReprFields(j, n - 1) + ", " + entry
  }

  /** `str(j)`: a string is itself, anything else its `repr`. */
  function Str(j: Json): string
  {
    if j.JStr? then j.s else Repr(j)
  }
}
