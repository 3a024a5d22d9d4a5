/**
  The pure parts of the MapReduce schema handling: `find_data_type`, which
  decodes the `__Kind`/`__Content`/`__Optional` tree that the schema
  inference outputs; `merge_schema_infos` and `merge_unlabeled_nodes`, which
  complete the decoded schema; and the check on `call_mapreduce`'s `equiv`.
  Where Python raises (`KeyError`, `TypeError`, `AttributeError`,
  `IndexError`) the model returns `Err`.
 */
module MapReduce {
  import opened Wrappers
  import opened Seqs
  import opened Strs
  import opened Json

  // ---------------------------------------------------------------------------
  // call_mapreduce

  /** `equiv` must be `"k"` (kind equivalence) or `"l"` (label equivalence). */
  function CheckEquiv(equiv: string): (r: Result<string>)
    ensures r.Ok? <==> equiv == "k" || equiv == "l"
    ensures r.Ok? ==> r.value == equiv
  {
    if equiv == "k" || equiv == "l" then Ok(equiv)
    else Err("call_mapreduce: equiv must be either 'k' or 'l'.")
  }

  // ---------------------------------------------------------------------------
  // find_data_type

  /** `d[k]` on a value that may not be a dict. */
  function Lookup(j: Json, k: string): Option<Json>
  {
    if j.JObj? then Get(j.fields, k) else None
  }

  /** What the recursion writes into optional record contents: `{'__Kind': False}`. */
  const MetaMark: Json := JObj([Field("__Kind", JBool(false))])

  const Null: Json := JStr("Null")

  /**
    `find_data_type(prop)`: `'Null'` for an empty (false) value; for an array
    kind a one-element list; for a record kind a dict over the content's keys;
    for a union the `" + "`-join of its members' decodings; for any other kind
    the kind itself.
   */
  function FindDataType(prop: Json): (r: Result<Json>)
    ensures Falsy(prop) ==> r == Ok(Null)
    ensures !Falsy(prop) && Lookup(prop, "__Kind").None? ==> r.Err?
    ensures !Falsy(prop) && Lookup(prop, "__Kind").Some? &&
            Lookup(prop, "__Kind").value !in [JStr("ArrayType"), JStr("RecordType"), JStr("union")] ==>
              r == Ok(Lookup(prop, "__Kind").value)
    ensures !Falsy(prop) && Lookup(prop, "__Kind").Some? &&
            Lookup(prop, "__Kind").value in [JStr("ArrayType"), JStr("RecordType"), JStr("union")] &&
            Lookup(prop, "__Content").None?
            ==> r.Err?
    ensures !Falsy(prop) && Lookup(prop, "__Kind") == Some(JStr("ArrayType")) && Lookup(prop, "__Content").Some? ==>
              r == DecodeArray(Lookup(prop, "__Content").value)
    ensures !Falsy(prop) && Lookup(prop, "__Kind") == Some(JStr("ArrayType")) && r.Ok? ==>
              r.value.JArr? && |r.value.items| == 1
    ensures !Falsy(prop) && Lookup(prop, "__Kind") == Some(JStr("RecordType")) && Lookup(prop, "__Content").Some? ==>
              var content := Lookup(prop, "__Content").value;
              r == if content.JObj? then DecodeRecord(content, false, false) else Err("AttributeError: no items()")
    ensures !Falsy(prop) && Lookup(prop, "__Kind") == Some(JStr("RecordType")) && r.Ok? ==>
              r.value.JObj? && Lookup(prop, "__Content").Some? && Lookup(prop, "__Content").value.JObj? &&
              forall k :: k in Keys(r.value.fields) <==> k in Keys(Lookup(prop, "__Content").value.fields)
    ensures !Falsy(prop) && Lookup(prop, "__Kind") == Some(JStr("union")) && Lookup(prop, "__Content").Some? ==>
              var parts := DecodeUnion(Lookup(prop, "__Content").value);
              && (parts.Err? ==> r.Err?)
              && (parts.Ok? ==> r == Ok(JStr(Join(parts.value, " + "))))
    decreases prop, 2, 0
  {
    if Falsy(prop) then Ok(Null)
    else if !prop.JObj? then Err("TypeError: not a dict")
    else
      match IndexOf(prop.fields, "__Kind")
      case None => Err("KeyError: __Kind")
      case Some(ki) =>
        var kind := prop.fields[ki].val;
        if kind == JStr("ArrayType") then
          match IndexOf(prop.fields, "__Content")
          case None => Err("KeyError: __Content")
          case Some(ci) => DecodeArray(prop.fields[ci].val)
        else if kind == JStr("RecordType") then
          match IndexOf(prop.fields, "__Content")
          case None => Err("KeyError: __Content")
          case Some(ci) =>
            var content := prop.fields[ci].val;
            if !content.JObj? then Err("AttributeError: no items()")
            else DecodeRecord(content, false, false)
        else if kind == JStr("union") then
          match IndexOf(prop.fields, "__Content")
          case None => Err("KeyError: __Content")
          case Some(ci) =>
            var parts :- DecodeUnion(prop.fields[ci].val);
            Ok(JStr(Join(parts, " + ")))
        else Ok(kind)
  }

  /**
    An array's content: decoded in full when it is a record or a union,
    otherwise only its kind is kept; either way wrapped in a one-element list.
   */
  function DecodeArray(content: Json): (r: Result<Json>)
    ensures r.Ok? ==> r.value.JArr? && |r.value.items| == 1
    ensures r.Ok? ==> Lookup(content, "__Kind").Some?
    ensures Lookup(content, "__Kind").Some? ==>
              var ck := Lookup(content, "__Kind").value;
              if ck == JStr("RecordType") || ck == JStr("union")
              then && (FindDataType(content).Err? ==> r.Err?)
                   && (FindDataType(content).Ok? ==> r == Ok(JArr([FindDataType(content).value])))
              else r == Ok(JArr([ck]))
    decreases content, 3, 0
  {
    if !content.JObj? then Err("TypeError: not a dict")
    else
      match IndexOf(content.fields, "__Kind")
      case None => Err("KeyError: __Kind")
      case Some(cki) =>
        var ck := content.fields[cki].val;
        if ck == JStr("RecordType") || ck == JStr("union") then
          var inner :- FindDataType(content);
          Ok(JArr([inner]))
        else Ok(JArr([ck]))
  }

  /**
    A record's content, field by field. `marked` says whether the fields were
    marked (the record was itself a record-typed field), `addMeta` whether its
    content received `meta_mandatory: {'__Kind': False}` (it was an optional
    record inside a marked record).
   */
  function DecodeRecord(content: Json, marked: bool, addMeta: bool): (r: Result<Json>)
    requires content.JObj?
    ensures r.Ok? ==> r.value.JObj?
    ensures r.Ok? ==> forall k :: k in Keys(r.value.fields) <==>
              k in Keys(content.fields) || (addMeta && k == "meta_mandatory")
    ensures r.Ok? && addMeta ==> Get(r.value.fields, "meta_mandatory") == Some(JBool(false))
    ensures r.Ok? <==> forall i :: 0 <= i < |content.fields| ==> FieldValue(content.fields[i], marked, addMeta).Ok?
    ensures r.Ok? ==> forall i :: 0 <= i < |content.fields| && LastWithKey(Keys(content.fields), i) ==>
              Get(r.value.fields, content.fields[i].key) == Some(FieldValue(content.fields[i], marked, addMeta).value)
    decreases content, 1, 1
  {
    var rec :- DecodeFields(content, |content.fields|, marked, addMeta);
    assert content.fields[..|content.fields|] == content.fields;
    if addMeta && "meta_mandatory" !in Keys(content.fields) then Ok(JObj(Set(rec, "meta_mandatory", JBool(false))))
    else Ok(JObj(rec))
  }

  /**
    The value `record[key]` receives for field `i` of the content: the decoded
    field, or false for a `meta_mandatory` entry written in place.
   */
  function FieldValue(f: Field, marked: bool, addMeta: bool): Result<Json>
    decreases f, 0, 0
  {
    if addMeta && f.key == "meta_mandatory" then Ok(JBool(false)) else DecodeField(f.val, marked)
  }

  /**
    The values `record[key]` receives for the first `n` fields, in order: an
    error as soon as one field fails.
   */
  function DecodeValues(content: Json, n: nat, marked: bool, addMeta: bool): (r: Result<seq<Json>>)
    requires content.JObj? && n <= |content.fields|
    ensures r.Err? ==> exists i :: 0 <= i < n && FieldValue(content.fields[i], marked, addMeta).Err?
    ensures r.Ok? ==> |r.value| == n && forall i :: 0 <= i < n ==> FieldValue(content.fields[i], marked, addMeta) == Ok(r.value[i])
    decreases content, 0, n
  {
    if n == 0 then Ok([])
    else
      var prev := DecodeValues(content, n - 1, marked, addMeta);
      var last := FieldValue(content.fields[n - 1], marked, addMeta);
      if prev.Err? then
        assert exists i :: 0 <= i < n - 1 && !FieldValue(content.fields[i], marked, addMeta).Ok?;
        Err(prev.msg)
      else if last.Err? then
        Err(last.msg)
      else
        assert forall i :: 0 <= i < n - 1 ==> (prev.value + [last.value])[i] == prev.value[i];
        Ok(prev.value + [last.value])
  }

  /**
    The dict built from the first `n` fields of the content (`record[key] =
    propType`): an error as soon as one field fails; otherwise each key once,
    holding the value of its last field.
   */
  function DecodeFields(content: Json, n: nat, marked: bool, addMeta: bool): (r: Result<seq<Field>>)
    requires content.JObj? && n <= |content.fields|
    ensures r.Ok? <==> forall i :: 0 <= i < n ==> FieldValue(content.fields[i], marked, addMeta).Ok?
    ensures r.Ok? ==> forall k :: k in Keys(r.value) <==> k in Keys(content.fields[..n])
    ensures r.Ok? ==> NoDup(Keys(r.value))
    ensures r.Ok? ==> forall i :: 0 <= i < n && LastWithKey(Keys(content.fields[..n]), i) ==>
              FieldValue(content.fields[i], marked, addMeta).Ok? &&
              Get(r.value, content.fields[i].key) == Some(FieldValue(content.fields[i], marked, addMeta).value)
    ensures r.Ok? && addMeta && "meta_mandatory" in Keys(content.fields[..n]) ==>
              Get(r.value, "meta_mandatory") == Some(JBool(false))
    decreases content, 1, 0
  {
    var vs := DecodeValues(content, n, marked, addMeta);
    if vs.Err? then Err(vs.msg)
    else
      FieldsAssigned(content, n, marked, addMeta, vs.value);
      Ok(Assign(Keys(content.fields[..n]), vs.value))
  }

  /**
    Assigning the field values in order leaves under each key the value of its
    last field, and false under a `meta_mandatory` key written in place.
   */
  lemma FieldsAssigned(content: Json, n: nat, marked: bool, addMeta: bool, vs: seq<Json>)
    requires content.JObj? && n <= |content.fields|
    requires |vs| == n && forall i :: 0 <= i < n ==> FieldValue(content.fields[i], marked, addMeta) == Ok(vs[i])
    ensures forall i :: 0 <= i < n && LastWithKey(Keys(content.fields[..n]), i) ==>
              Get(Assign(Keys(content.fields[..n]), vs), content.fields[i].key) == Some(vs[i])
    ensures addMeta && "meta_mandatory" in Keys(content.fields[..n]) ==>
              Get(Assign(Keys(content.fields[..n]), vs), "meta_mandatory") == Some(JBool(false))
    decreases content, 0, n
  {
    var ks := Keys(content.fields[..n]);
    assert forall i :: 0 <= i < n ==> ks[i] == content.fields[i].key;
    if addMeta && "meta_mandatory" in ks {
      var i := LastOccurrence(ks, "meta_mandatory");
      assert FieldValue(content.fields[i], marked, addMeta) == Ok(JBool(false));
    }
  }

  /**
    One field of a record: unwrapped from `__Optional` if it has one, decoded,
    and for an optional field marked with ` ?`.
   */
  function DecodeField(s: Json, marked: bool): (r: Result<Json>)
    ensures r.Ok? ==> s.JObj?
    ensures s.JObj? && "__Optional" !in Keys(s.fields) ==> r == DecodeBody(s, false)
    ensures s.JObj? && "__Optional" in Keys(s.fields) ==>
              var inner := DecodeBody(Get(s.fields, "__Optional").value, marked);
              && (inner.Err? ==> r.Err?)
              && (inner.Ok? && inner.value.JStr? ==> r == Ok(JStr(inner.value.s + " ?")))
              && (inner.Ok? && inner.value.JArr? && |inner.value.items| > 0 ==>
                    r == Ok(JArr([JStr(Str(inner.value.items[0]) + " ?")])))
              && (inner.Ok? && !inner.value.JStr? && !inner.value.JArr? ==> r == inner)
    decreases s, 3, 0
  {
    if !s.JObj? then Err("AttributeError: no keys()")
    else
      match IndexOf(s.fields, "__Optional")
      case None => DecodeBody(s, false)
      case Some(oi) =>
        var inner :- DecodeBody(s.fields[oi].val, marked);
        MarkOptional(inner)
  }

  /** `propType + " ?"` for a string, `[str(propType[0]) + " ?"]` for a list, anything else as is. */
  function MarkOptional(t: Json): (r: Result<Json>)
    ensures r.Err? <==> t.JArr? && |t.items| == 0
  {
    match t
    case JStr(s) => Ok(JStr(s + " ?"))
    case JArr(items) =>
      if |items| == 0 then Err("IndexError: list index out of range")
      else Ok(JArr([JStr(Str(items[0]) + " ?")]))
    case _ => Ok(t)
  }

  /**
    The decoding of a field's (unwrapped) value by its kind. A record-typed
    value has its fields marked, and `addMeta` says whether its content
    received `meta_mandatory`.
   */
  function DecodeBody(u: Json, addMeta: bool): (r: Result<Json>)
    ensures Lookup(u, "__Kind").None? ==> r.Err?
    ensures Lookup(u, "__Kind") == Some(JStr("ArrayType")) ==> r == FindDataType(u)
    ensures Lookup(u, "__Kind").Some? &&
            Lookup(u, "__Kind").value !in [JStr("ArrayType"), JStr("RecordType"), JStr("union")] ==>
              r == Ok(Lookup(u, "__Kind").value)
    ensures Lookup(u, "__Kind").Some? &&
            Lookup(u, "__Kind").value in [JStr("RecordType"), JStr("union")] &&
            Lookup(u, "__Content").None?
            ==> r.Err?
    ensures Lookup(u, "__Kind") == Some(JStr("RecordType")) && Lookup(u, "__Content").Some? ==>
              var content := Lookup(u, "__Content").value;
              r == if content.JObj? then DecodeRecord(content, true, addMeta) else Err("AttributeError: no keys()")
    ensures Lookup(u, "__Kind") == Some(JStr("RecordType")) && addMeta && r.Ok? ==>
              r.value.JObj? && Get(r.value.fields, "meta_mandatory") == Some(JBool(false))
    ensures Lookup(u, "__Kind") == Some(JStr("union")) && Lookup(u, "__Content").Some? ==>
              var parts := DecodeUnion(Lookup(u, "__Content").value);
              && (parts.Err? ==> r.Err?)
              && (parts.Ok? ==> r == Ok(JStr(Join(parts.value, " + "))))
    decreases u, 2, 1
  {
    if !u.JObj? then Err("TypeError: not a dict")
    else
      match IndexOf(u.fields, "__Kind")
      case None => Err("KeyError: __Kind")
      case Some(ki) =>
        var kind := u.fields[ki].val;
        if kind == JStr("ArrayType") then FindDataType(u)
        else if kind == JStr("RecordType") then
          match IndexOf(u.fields, "__Content")
          case None => Err("KeyError: __Content")
          case Some(ci) =>
            var content := u.fields[ci].val;
            if !content.JObj? then Err("AttributeError: no keys()")
            else DecodeRecord(content, true, addMeta)
        else if kind == JStr("union") then
          match IndexOf(u.fields, "__Content")
          case None => Err("KeyError: __Content")
          case Some(ci) =>
            var parts :- DecodeUnion(u.fields[ci].val);
            Ok(JStr(Join(parts, " + ")))
        else Ok(kind)
  }

  /** `[str(find_data_type(elem)) for elem in content]`. */
  function DecodeUnion(content: Json): (r: Result<seq<string>>)
    ensures content.JArr? && r.Ok? ==> |r.value| == |content.items|
    ensures content.JArr? && r.Ok? ==> forall i :: 0 <= i < |content.items| ==>
              FindDataType(content.items[i]).Ok? && r.value[i] == Str(FindDataType(content.items[i]).value)
    ensures content.JArr? ==> (r.Ok? <==> forall i :: 0 <= i < |content.items| ==> FindDataType(content.items[i]).Ok?)
    decreases content, 1, 0
  {
    match content
    case JArr(items) => DecodeItems(content, |items|)
    case JObj(fields) => StringElems(Keys(fields))
    case JStr(s) => StringElems(seq(|s|, i requires 0 <= i < |s| => [s[i]]))
    case _ => Err("TypeError: not iterable")
  }

  function DecodeItems(content: Json, n: nat): (r: Result<seq<string>>)
    requires content.JArr? && n <= |content.items|
    ensures r.Ok? ==> |r.value| == n
    ensures r.Ok? ==> forall i :: 0 <= i < n ==>
              FindDataType(content.items[i]).Ok? && r.value[i] == Str(FindDataType(content.items[i]).value)
    ensures r.Ok? <==> forall i :: 0 <= i < n ==> FindDataType(content.items[i]).Ok?
    decreases content, 0, n
  {
    if n == 0 then Ok([])
    else
      var prev :- DecodeItems(content, n - 1);
      var d :- FindDataType(content.items[n - 1]);
      Ok(prev + [Str(d)])
  }

  /**
    Iterating a dict (its keys) or a string (its characters) gives strings,
    which decode to `'Null'` when empty and fail otherwise.
   */
  function StringElems(xs: seq<string>): (r: Result<seq<string>>)
    ensures r.Ok? <==> forall i :: 0 <= i < |xs| ==> xs[i] == ""
    ensures r.Ok? ==> |r.value| == |xs| && forall i :: 0 <= i < |xs| ==> r.value[i] == "Null"
  {
    if forall i :: 0 <= i < |xs| ==> xs[i] == "" then Ok(seq(|xs|, i requires 0 <= i < |xs| => "Null"))
    else Err("TypeError: string indices must be integers")
  }

  /** What `StringElems` stands for: a string element decodes to `'Null'` exactly when it is empty. */
  lemma StringElemDecodes(x: string)
    ensures FindDataType(JStr(x)).Ok? <==> x == ""
    ensures x == "" ==> Str(FindDataType(JStr(x)).value) == "Null"
  {
  }

  /** The constant the shortcut in `DecodeFields` stands for: `{'__Kind': False}` decodes to `False`. */
  lemma MetaMarkDecodes()
    ensures DecodeField(MetaMark, true) == Ok(JBool(false))
  {
    assert IndexOf(MetaMark.fields, "__Optional") == None;
    assert IndexOf(MetaMark.fields, "__Kind") == Some(0);
  }

  // ---------------------------------------------------------------------------
  // merge_schema_infos

  /** `{'Nodes': ..., 'Edges': ...}` with each part a dict. */
  datatype Schema = Schema(nodes: seq<Field>, edges: seq<Field>)

  /** Every edge type of the schema has a dict entry in `edgesCard`, and its own entry is a dict. */
  predicate Mergeable(schemaEdges: seq<Field>, edgesCard: seq<Field>)
  {
    forall i :: 0 <= i < |schemaEdges| ==> MergeableEdge(schemaEdges[i], edgesCard)
  }

  predicate MergeableEdge(e: Field, edgesCard: seq<Field>)
  {
    e.val.JObj? && Get(edgesCard, e.key).Some? && Get(edgesCard, e.key).value.JObj?
  }

  /** `edgesCard[key]` with the properties of schema edge `e` merged in. */
  function Merged(e: Field, edgesCard: seq<Field>): Json
    requires MergeableEdge(e, edgesCard)
  {
    JObj(Update(Get(edgesCard, e.key).value.fields, e.val.fields))
  }

  /**
    `merge_schema_infos`: the nodes without properties are added to the nodes;
    the edges become `edgesCard`, where each edge type of the schema has its
    properties merged into its cardinality entry and every other entry is
    left alone.
   */
  function MergeSchemaInfos(schema: Schema, nodesNoProp: seq<Field>, edgesCard: seq<Field>): (r: Result<Schema>)
    requires NoDup(Keys(schema.edges))
    ensures r.Ok? <==> Mergeable(schema.edges, edgesCard)
    ensures r.Ok? ==> forall k :: k in Keys(r.value.nodes) <==> k in Keys(schema.nodes) || k in Keys(nodesNoProp)
    ensures r.Ok? ==> forall k :: k !in Keys(nodesNoProp) ==> Get(r.value.nodes, k) == Get(schema.nodes, k)
    ensures r.Ok? && NoDup(Keys(nodesNoProp)) ==> forall k :: k in Keys(nodesNoProp) ==> Get(r.value.nodes, k) == Get(nodesNoProp, k)
    ensures r.Ok? ==> Keys(r.value.edges) == Keys(edgesCard)
    ensures r.Ok? ==> forall k :: k !in Keys(schema.edges) ==> Get(r.value.edges, k) == Get(edgesCard, k)
    ensures r.Ok? ==> forall i :: 0 <= i < |schema.edges| ==>
              MergeableEdge(schema.edges[i], edgesCard) &&
              Get(r.value.edges, schema.edges[i].key) == Some(Merged(schema.edges[i], edgesCard))
  {
    var edges :- MergeEdges(schema.edges, |schema.edges|, edgesCard);
    assert schema.edges[..|schema.edges|] == schema.edges;
    Ok(Schema(Update(schema.nodes, nodesNoProp), edges))
  }

  /** The loop over the first `n` schema edges, updating `edgesCard` entries in place. */
  function MergeEdges(se: seq<Field>, n: nat, card: seq<Field>): (r: Result<seq<Field>>)
    requires n <= |se| && NoDup(Keys(se))
    ensures r.Ok? <==> Mergeable(se[..n], card)
    ensures r.Ok? ==> Keys(r.value) == Keys(card)
    ensures r.Ok? ==> forall k :: k !in Keys(se[..n]) ==> Get(r.value, k) == Get(card, k)
    ensures r.Ok? ==> forall i :: 0 <= i < n ==>
              MergeableEdge(se[i], card) && Get(r.value, se[i].key) == Some(Merged(se[i], card))
  {
    if n == 0 then Ok(card)
    else
      var e := se[n - 1];
      MergeableSnoc(se, n, card);
      var prev :- MergeEdges(se, n - 1, card);
      MergeEdgesLookup(se, n, card, prev);
      if !e.val.JObj? || Get(prev, e.key).None? || !Get(prev, e.key).value.JObj? then
        Err("KeyError or AttributeError on edgesCard[key].update")
      else
        var merged := JObj(Update(Get(prev, e.key).value.fields, e.val.fields));
        MergeEdgesStep(se, n, card, prev);
        Ok(Set(prev, e.key, merged))
  }

  lemma MergeableSnoc(se: seq<Field>, n: nat, card: seq<Field>)
    requires 0 < n <= |se|
    ensures Mergeable(se[..n], card) <==> Mergeable(se[..n - 1], card) && MergeableEdge(se[n - 1], card)
  {
    assert forall i :: 0 <= i < n - 1 ==> se[..n][i] == se[..n - 1][i];
  }

  /** The last schema edge's key was not touched by the earlier ones. */
  lemma MergeEdgesLookup(se: seq<Field>, n: nat, card: seq<Field>, prev: seq<Field>)
    requires 0 < n <= |se| && NoDup(Keys(se))
    requires forall k :: k !in Keys(se[..n - 1]) ==> Get(prev, k) == Get(card, k)
    ensures Get(prev, se[n - 1].key) == Get(card, se[n - 1].key)
    ensures Keys(se[..n]) == Keys(se[..n - 1]) + [se[n - 1].key]
  {
    assert Keys(se)[n - 1] == se[n - 1].key;
    forall i | 0 <= i < n - 1
      ensures se[i].key != se[n - 1].key
    {
      assert Keys(se)[i] == se[i].key;
    }
    assert forall i :: 0 <= i < n - 1 ==> Keys(se[..n - 1])[i] == se[i].key;
  }

  lemma MergeEdgesStep(se: seq<Field>, n: nat, card: seq<Field>, prev: seq<Field>)
    requires 0 < n <= |se| && NoDup(Keys(se))
    requires MergeableEdge(se[n - 1], card)
    requires Keys(prev) == Keys(card)
    requires Keys(se[..n]) == Keys(se[..n - 1]) + [se[n - 1].key]
    requires Get(prev, se[n - 1].key) == Get(card, se[n - 1].key)
    requires forall k :: k !in Keys(se[..n - 1]) ==> Get(prev, k) == Get(card, k)
    requires forall i :: 0 <= i < n - 1 ==>
               MergeableEdge(se[i], card) && Get(prev, se[i].key) == Some(Merged(se[i], card))
    ensures var r := Set(prev, se[n - 1].key, Merged(se[n - 1], card));
      && Keys(r) == Keys(card)
      && (forall k :: k !in Keys(se[..n]) ==> Get(r, k) == Get(card, k))
      && (forall i :: 0 <= i < n ==> MergeableEdge(se[i], card) && Get(r, se[i].key) == Some(Merged(se[i], card)))
  {
    var r := Set(prev, se[n - 1].key, Merged(se[n - 1], card));
    forall i | 0 <= i < n - 1
      ensures Get(r, se[i].key) == Some(Merged(se[i], card))
    {
      assert Keys(se)[i] != Keys(se)[n - 1];
    }
  }

  // ---------------------------------------------------------------------------
  // merge_unlabeled_nodes

  /** A labelled node type's dict with each of its labels (`key.split(":")`) set to `"Void"`. */
  function AddVoidLabels(fs: seq<Field>, labels: seq<string>): (r: seq<Field>)
    ensures forall k :: k in labels ==> Get(r, k) == Some(JStr("Void"))
    ensures forall k :: k !in labels ==> Get(r, k) == Get(fs, k)
    decreases |labels|
  {
    if |labels| == 0 then fs
    else
      var fs1 := Set(fs, labels[0], JStr("Void"));
      var r := AddVoidLabels(fs1, labels[1..]);
      VoidStep(fs, labels, fs1, r);
      r
  }

  lemma VoidStep(fs: seq<Field>, labels: seq<string>, fs1: seq<Field>, r: seq<Field>)
    requires |labels| > 0 && fs1 == Set(fs, labels[0], JStr("Void"))
    requires forall k :: k in labels[1..] ==> Get(r, k) == Some(JStr("Void"))
    requires forall k :: k !in labels[1..] ==> Get(r, k) == Get(fs1, k)
    ensures forall k :: k in labels ==> Get(r, k) == Some(JStr("Void"))
    ensures forall k :: k !in labels ==> Get(r, k) == Get(fs, k)
  {
    assert forall j :: 0 <= j < |labels| - 1 ==> labels[1..][j] == labels[j + 1];
  }

  /** A labelled node type after the merge: its number, its labels as `"Void"`, its other entries kept. */
  ghost predicate VoidLabelled(node: Field, out: Json, i: int)
  {
    && node.val.JObj? && out.JObj?
    && Get(out.fields, "meta_id") == Some(JInt(i))
    && (forall l :: l in Split(node.key, ':') && l != "meta_id" ==> Get(out.fields, l) == Some(JStr("Void")))
    && (forall k :: k !in Split(node.key, ':') && k != "meta_id" ==> Get(out.fields, k) == Get(node.val.fields, k))
  }

  /** An unlabelled node type after the merge: its number, its other entries kept. */
  ghost predicate Carried(node: Json, out: Json, i: int)
  {
    && node.JObj? && out.JObj?
    && Get(out.fields, "meta_id") == Some(JInt(i))
    && (forall k :: k != "meta_id" ==> Get(out.fields, k) == Get(node.fields, k))
  }

  function LabelNode(node: Field, i: int): (out: Json)
    requires node.val.JObj?
    ensures VoidLabelled(node, out, i)
  {
    JObj(Set(AddVoidLabels(node.val.fields, Split(node.key, ':')), "meta_id", JInt(i)))
  }

  function NumberNode(node: Json, i: int): (out: Json)
    requires node.JObj?
    ensures Carried(node, out, i)
  {
    JObj(Set(node.fields, "meta_id", JInt(i)))
  }

  /** Every node type, labelled or not, is a dict. */
  predicate AllDicts(nodes: seq<Field>, unlab: seq<Json>)
  {
    (forall i :: 0 <= i < |nodes| ==> nodes[i].val.JObj?) && (forall j :: 0 <= j < |unlab| ==> unlab[j].JObj?)
  }

  /**
    `merge_unlabeled_nodes`: the labelled node types first, each with its
    labels as `"Void"` properties, then the unlabelled ones; every entry gets
    `meta_id` equal to its position.
   */
  function MergeUnlabeledNodes(nodes: seq<Field>, unlab: seq<Json>): (r: Result<seq<Json>>)
    ensures r.Ok? <==> AllDicts(nodes, unlab)
    ensures r.Ok? ==> |r.value| == |nodes| + |unlab|
    ensures r.Ok? ==> forall i :: 0 <= i < |nodes| ==> VoidLabelled(nodes[i], r.value[i], i)
    ensures r.Ok? ==> forall j :: 0 <= j < |unlab| ==> Carried(unlab[j], r.value[|nodes| + j], |nodes| + j)
  {
    if AllDicts(nodes, unlab) then
      var a, b := Labelled(nodes), Unlabelled(unlab, |nodes|);
      MergedParts(nodes, unlab, a, b);
      Ok(a + b)
    else Err("TypeError: node type is not a dict")
  }

  function Labelled(nodes: seq<Field>): (r: seq<Json>)
    requires forall i :: 0 <= i < |nodes| ==> nodes[i].val.JObj?
    ensures |r| == |nodes|
    ensures forall i :: 0 <= i < |nodes| ==> VoidLabelled(nodes[i], r[i], i)
  {
    seq(|nodes|, i requires 0 <= i < |nodes| => LabelNode(nodes[i], i))
  }

  function Unlabelled(unlab: seq<Json>, offset: nat): (r: seq<Json>)
    requires forall j :: 0 <= j < |unlab| ==> unlab[j].JObj?
    ensures |r| == |unlab|
    ensures forall j :: 0 <= j < |unlab| ==> Carried(unlab[j], r[j], offset + j)
  {
    seq(|unlab|, j requires 0 <= j < |unlab| => NumberNode(unlab[j], offset + j))
  }

  lemma MergedParts(nodes: seq<Field>, unlab: seq<Json>, a: seq<Json>, b: seq<Json>)
    requires |a| == |nodes| && |b| == |unlab|
    requires forall i :: 0 <= i < |nodes| ==> VoidLabelled(nodes[i], a[i], i)
    requires forall j :: 0 <= j < |unlab| ==> Carried(unlab[j], b[j], |nodes| + j)
    ensures forall i :: 0 <= i < |nodes| ==> VoidLabelled(nodes[i], (a + b)[i], i)
    ensures forall j :: 0 <= j < |unlab| ==> Carried(unlab[j], (a + b)[|nodes| + j], |nodes| + j)
  {
    assert forall i :: 0 <= i < |a| ==> (a + b)[i] == a[i];
    assert forall j :: 0 <= j < |b| ==> (a + b)[|a| + j] == b[j];
  }

  /** Every entry of the merged list carries its own position as `meta_id`. */
  lemma MetaIdIsPosition(nodes: seq<Field>, unlab: seq<Json>)
    requires MergeUnlabeledNodes(nodes, unlab).Ok?
    ensures var r := MergeUnlabeledNodes(nodes, unlab).value;
      forall i :: 0 <= i < |r| ==> r[i].JObj? && Get(r[i].fields, "meta_id") == Some(JInt(i))
  {
    var r := MergeUnlabeledNodes(nodes, unlab).value;
    forall i | 0 <= i < |r|
      ensures r[i].JObj? && Get(r[i].fields, "meta_id") == Some(JInt(i))
    {
      if i >= |nodes| {
        assert Carried(unlab[i - |nodes|], r[i], i);
      } else {
        assert VoidLabelled(nodes[i], r[i], i);
      }
    }
  }
}
