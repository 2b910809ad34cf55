/** mergeSchemas: the naive merge of two resolved schemas, and the algebra it obeys. */
module Merging {
  import opened Common
  import opened Schemas

  /** Append to `into` the types of `more` it lacks, one by one. */
  function AddTypes(into: seq<string>, more: seq<string>): (r: seq<string>)
    ensures into <= r
    ensures forall t :: t in r <==> t in into || t in more
    decreases more
  {
    if more == [] then into
    else AddTypes(if more[0] in into then into else into + [more[0]], more[1..])
  }

  function MergeTypes(into: Option<seq<string>>, more: Option<seq<string>>): Option<seq<string>> {
    match (into, more)
    case (None, _) => more
    case (Some(ts), None) => into
    case (Some(ts), Some(us)) => Some(AddTypes(ts, us))
  }

  /** `additionalProperties: true` wins over `false`, and either over silence. */
  function MergeHas(into: Option<bool>, more: Option<bool>): Option<bool> {
    if into.None? then more else if more.Some? && !into.value && more.value then more else into
  }

  /** Two shared properties may be merged only when their type lists are equal; a missing list is a nil dereference. */
  predicate SameTypes(x: Schema, y: Schema) {
    x.Inline? && y.Inline? && x.types.Some? && y.types.Some? && x.types == y.types
  }

  predicate ExtensionsAgree(a: map<string, Extension>, b: map<string, Extension>) {
    forall k :: k in a && k in b ==> a[k] == b[k]
  }

  /** The merge, or None where the source returns an error or dereferences nil. */
  function Merge(a: Schema, b: Schema): (r: Option<Schema>)
    ensures r.Some? ==> r.value.Inline?
    decreases a
  {
    if a.Ref? || b.Ref? || !ExtensionsAgree(a.ext, b.ext) then None
    else if exists k :: k in a.props && k in b.props &&
                        !(SameTypes(a.props[k], b.props[k]) && Merge(a.props[k], b.props[k]).Some?) then None
    else
      var additional := MergeSlot(a.additional, b.additional);
      var items := MergeSlot(a.items, b.items);
      if additional.None? || items.None? then None
      else
        Some(a.(types := MergeTypes(a.types, b.types),
                ext := a.ext + b.ext,
                additional := additional.value,
                has := MergeHas(a.has, b.has),
                props := map k | k in a.props.Keys + b.props.Keys ::
                  if k !in b.props then a.props[k]
                  else if k !in a.props then b.props[k]
                  else Merge(a.props[k], b.props[k]).value,
                items := items.value))
  }

  /** An optional sub-schema (items, additionalProperties) merged with its counterpart. */
  function MergeSlot(x: Option<Schema>, y: Option<Schema>): Option<Option<Schema>>
    decreases x
  {
    match (x, y)
    case (None, _) => Some(y)
    case (Some(_), None) => Some(x)
    case (Some(s), Some(t)) => match Merge(s, t) { case None => None case Some(m) => Some(Some(m)) }
  }

  /** What the fields of a successful merge are, one level deep. */
  ghost predicate MergedFields(a: Schema, b: Schema, m: Schema) {
    MergedShape(a, b, m) && MergedProps(a, b, m)
  }

  ghost predicate MergedShape(a: Schema, b: Schema, m: Schema) {
    && a.Inline? && b.Inline? && m.Inline?
    && m == a.(types := MergeTypes(a.types, b.types), ext := a.ext + b.ext, additional := m.additional,
               has := MergeHas(a.has, b.has), props := m.props, items := m.items)
    && Some(m.additional) == MergeSlot(a.additional, b.additional)
    && Some(m.items) == MergeSlot(a.items, b.items)
  }

  ghost predicate MergedProps(a: Schema, b: Schema, m: Schema) {
    && a.Inline? && b.Inline? && m.Inline?
    && m.props.Keys == a.props.Keys + b.props.Keys
    && (forall k :: k in m.props ==>
          Some(m.props[k]) == if k !in b.props then Some(a.props[k]) else if k !in a.props then Some(b.props[k])
                              else Merge(a.props[k], b.props[k]))
  }

  lemma FieldsOfMerge(a: Schema, b: Schema)
    requires Merge(a, b).Some?
    ensures MergedFields(a, b, Merge(a, b).value)
  {
  }

  // ---- merging keeps meaning ----

  lemma {:induction false} MergeNoRefs(a: Schema, b: Schema)
    requires NoRefs(a) && NoRefs(b) && Merge(a, b).Some?
    ensures NoRefs(Merge(a, b).value)
    decreases a
  {
    forall k | k in a.props && k in b.props ensures NoRefs(Merge(a.props[k], b.props[k]).value) {
      MergeNoRefs(a.props[k], b.props[k]);
    }
    if a.items.Some? && b.items.Some? {
      MergeNoRefs(a.items.value, b.items.value);
    }
    if a.additional.Some? && b.additional.Some? {
      MergeNoRefs(a.additional.value, b.additional.value);
    }
  }

  /**
    Key lemma: a value that satisfies both schemas satisfies their merge, as far as
    nulls get past its types: a merge takes over types but never `nullable`.
   */
  lemma {:induction false} MergeSound(e: Env, a: Schema, b: Schema, v: Value)
    requires Merge(a, b).Some? && Sat(e, a, v) && Sat(e, b, v)
    requires e.lenient || NullsFit(Merge(a, b).value, v)
    ensures Sat(e, Merge(a, b).value, v)
    decreases a, 1
  {
    FieldsOfMerge(a, b);
    var m := Merge(a, b).value;
    if v.Obj? {
      MergedFieldsFit(e, a, b, m, v.fields);
    }
    if v.Arr? {
      MergedElementsFit(e, a, b, m, v.elems);
    }
    CombinatorsCopied(e, a, m, v, 0);
  }

  lemma {:induction false} MergedElementsFit(e: Env, a: Schema, b: Schema, m: Schema, elems: seq<Value>)
    requires MergedShape(a, b, m) && ElementsFit(e, a, elems, 0) && ElementsFit(e, b, elems, 0)
    requires e.lenient || NullsFit(m, Arr(elems))
    ensures ElementsFit(e, m, elems, 0)
    decreases a, 0
  {
    if a.items.Some? && b.items.Some? {
      forall i | 0 <= i < |elems| ensures Sat(e, m.items.value, elems[i]) {
        MergeSound(e, a.items.value, b.items.value, elems[i]);
      }
    }
  }

  lemma {:induction false} MergedFieldsFit(e: Env, a: Schema, b: Schema, m: Schema, fields: map<string, Value>)
    requires MergedFields(a, b, m) && FieldsFit(e, a, fields, 0) && FieldsFit(e, b, fields, 0)
    requires e.lenient || NullsFit(m, Obj(fields))
    ensures FieldsFit(e, m, fields, 0)
    decreases a, 0
  {
    forall k | k in fields && k in m.props ensures Sat(e, m.props[k], fields[k]) {
      if k in a.props && k in b.props {
        MergeSound(e, a.props[k], b.props[k], fields[k]);
      }
    }
    forall k | k in fields && k !in m.props
      ensures m.has != Some(false) && (m.additional.Some? ==> Sat(e, m.additional.value, fields[k]))
    {
      assert k !in a.props && k !in b.props;
      if a.additional.Some? && b.additional.Some? {
        MergeSound(e, a.additional.value, b.additional.value, fields[k]);
      }
    }
  }

  /** What is accepted strictly has its nulls in order. */
  lemma {:induction false} SatFitsNulls(e: Env, s: Schema, v: Value)
    requires !e.lenient && s.Inline? && Sat(e, s, v)
    ensures NullsFit(s, v)
    decreases v
  {
    match v
    case Null =>
    case Scalar(_, _) =>
    case Arr(elems) =>
      assert ElementsFit(e, s, elems, 0);
      if s.items.Some? && s.items.value.Inline? {
        forall i | 0 <= i < |elems| ensures NullsFit(s.items.value, elems[i]) {
          SatFitsNulls(e, s.items.value, elems[i]);
        }
      }
    case Obj(fields) =>
      assert FieldsFit(e, s, fields, 0);
      forall k | k in fields
        ensures k in s.props ==> NullsFit(s.props[k], fields[k])
        ensures k !in s.props && s.additional.Some? ==> NullsFit(s.additional.value, fields[k])
      {
        if k in s.props && s.props[k].Inline? {
          SatFitsNulls(e, s.props[k], fields[k]);
        } else if k !in s.props && s.additional.Some? && s.additional.value.Inline? {
          SatFitsNulls(e, s.additional.value, fields[k]);
        }
      }
  }

  /** Judged strictly, exactly the misplaced nulls are lost. */
  lemma {:induction false} MergeKeepsIff(e: Env, a: Schema, b: Schema, v: Value)
    requires !e.lenient && Merge(a, b).Some? && Sat(e, a, v) && Sat(e, b, v)
    ensures Sat(e, Merge(a, b).value, v) <==> NullsFit(Merge(a, b).value, v)
  {
    if NullsFit(Merge(a, b).value, v) {
      MergeSound(e, a, b, v);
    }
    if Sat(e, Merge(a, b).value, v) {
      SatFitsNulls(e, Merge(a, b).value, v);
    }
  }

  /**
    `v` has a null that both schemas may take and their merge does not: at a place they share
    the receiver has no types and is not nullable, and takes over types without null.
   */
  predicate LosesNull(a: Schema, b: Schema, v: Value)
    decreases v
  {
    a.Inline? && b.Inline? &&
    match v
    case Null => a.types.None? && !a.nullable && b.types.Some? && "null" !in b.types.value
    case Scalar(_, _) => false
    case Arr(elems) =>
      a.items.Some? && b.items.Some? && exists i :: 0 <= i < |elems| && LosesNull(a.items.value, b.items.value, elems[i])
    case Obj(fields) =>
      exists k :: k in fields &&
        if k in a.props && k in b.props then LosesNull(a.props[k], b.props[k], fields[k])
        else k !in a.props && k !in b.props && a.additional.Some? && b.additional.Some? &&
             LosesNull(a.additional.value, b.additional.value, fields[k])
  }

  /** Main theorem, exact: of the values both schemas accept the merge loses those with such a null, and no other. */
  lemma {:induction false} MergeLosesIff(e: Env, a: Schema, b: Schema, v: Value)
    requires !e.lenient && Merge(a, b).Some? && Sat(e, a, v) && Sat(e, b, v)
    ensures !Sat(e, Merge(a, b).value, v) <==> LosesNull(a, b, v)
  {
    MergeKeepsIff(e, a, b, v);
    MergedNullsIff(e, a, b, v);
  }

  lemma {:induction false} MergedNullsIff(e: Env, a: Schema, b: Schema, v: Value)
    requires !e.lenient && Merge(a, b).Some? && Sat(e, a, v) && Sat(e, b, v)
    ensures NullsFit(Merge(a, b).value, v) <==> !LosesNull(a, b, v)
    decreases a, 1
  {
    FieldsOfMerge(a, b);
    var m := Merge(a, b).value;
    SatFitsNulls(e, a, v);
    SatFitsNulls(e, b, v);
    match v
    case Null =>
      assert a.types.Some? && "null" in a.types.value ==> "null" in m.types.value;
    case Scalar(_, _) =>
    case Arr(elems) =>
      assert ElementsFit(e, a, elems, 0) && ElementsFit(e, b, elems, 0);
      MergedElementNulls(e, a, b, m, elems);
    case Obj(fields) =>
      assert FieldsFit(e, a, fields, 0) && FieldsFit(e, b, fields, 0);
      MergedFieldNulls(e, a, b, m, fields);
  }

  lemma {:induction false} MergedElementNulls(e: Env, a: Schema, b: Schema, m: Schema, elems: seq<Value>)
    requires !e.lenient && MergedShape(a, b, m) && ElementsFit(e, a, elems, 0) && ElementsFit(e, b, elems, 0)
    requires NullsFit(a, Arr(elems)) && NullsFit(b, Arr(elems))
    ensures NullsFit(m, Arr(elems)) <==> !LosesNull(a, b, Arr(elems))
    decreases a, 0
  {
    if a.items.Some? && b.items.Some? {
      forall i | 0 <= i < |elems|
        ensures NullsFit(m.items.value, elems[i]) <==> !LosesNull(a.items.value, b.items.value, elems[i])
      {
        MergedNullsIff(e, a.items.value, b.items.value, elems[i]);
      }
    }
  }

  lemma {:induction false} MergedFieldNulls(e: Env, a: Schema, b: Schema, m: Schema, fields: map<string, Value>)
    requires !e.lenient && MergedFields(a, b, m) && FieldsFit(e, a, fields, 0) && FieldsFit(e, b, fields, 0)
    requires NullsFit(a, Obj(fields)) && NullsFit(b, Obj(fields))
    ensures NullsFit(m, Obj(fields)) <==> !LosesNull(a, b, Obj(fields))
    decreases a, 0
  {
    forall k | k in fields
      ensures k in a.props && k in b.props ==> (NullsFit(m.props[k], fields[k]) <==> !LosesNull(a.props[k], b.props[k], fields[k]))
      ensures k !in a.props && k !in b.props && a.additional.Some? && b.additional.Some? ==>
        (NullsFit(m.additional.value, fields[k]) <==> !LosesNull(a.additional.value, b.additional.value, fields[k]))
    {
      if k in a.props && k in b.props {
        MergedNullsIff(e, a.props[k], b.props[k], fields[k]);
      } else if k !in m.props && a.additional.Some? && b.additional.Some? {
        MergedNullsIff(e, a.additional.value, b.additional.value, fields[k]);
      }
    }
  }

  /** No `nullable` at any depth of a schema without references. */
  predicate NeverNullable(s: Schema) {
    s.Inline? ==>
      && !s.nullable
      && (forall k :: k in s.props ==> NeverNullable(s.props[k]))
      && (s.items.Some? ==> NeverNullable(s.items.value))
      && (s.additional.Some? ==> NeverNullable(s.additional.value))
  }

  /** A schema that is nowhere nullable, and lets the nulls of `v` past its types, makes a merge lose none of them. */
  lemma {:induction false} LosesNoNull(a: Schema, b: Schema, v: Value)
    requires NullsFit(b, v) && NeverNullable(b)
    ensures !LosesNull(a, b, v)
    decreases v
  {
    if a.Inline? && b.Inline? {
      match v
      case Null =>
      case Scalar(_, _) =>
      case Arr(elems) =>
        if a.items.Some? && b.items.Some? {
          forall i | 0 <= i < |elems| ensures !LosesNull(a.items.value, b.items.value, elems[i]) {
            LosesNoNull(a.items.value, b.items.value, elems[i]);
          }
        }
      case Obj(fields) =>
        forall k | k in fields
          ensures k in a.props && k in b.props ==> !LosesNull(a.props[k], b.props[k], fields[k])
          ensures k !in b.props && a.additional.Some? && b.additional.Some? ==>
            !LosesNull(a.additional.value, b.additional.value, fields[k])
        {
          if k in a.props && k in b.props {
            LosesNoNull(a.props[k], b.props[k], fields[k]);
          } else if k !in b.props && a.additional.Some? && b.additional.Some? {
            LosesNoNull(a.additional.value, b.additional.value, fields[k]);
          }
        }
    }
  }

  /** Merging in a schema that is nowhere nullable loses no null. */
  lemma {:induction false} MergedNullsFit(e: Env, a: Schema, b: Schema, v: Value)
    requires !e.lenient && Merge(a, b).Some? && Sat(e, a, v) && Sat(e, b, v) && NeverNullable(b)
    ensures NullsFit(Merge(a, b).value, v)
  {
    SatFitsNulls(e, b, v);
    LosesNoNull(a, b, v);
    MergedNullsIff(e, a, b, v);
  }

  /** A null let in by a member's `nullable` is refused by the merge. */
  lemma NullableLost(e: Env)
    requires !e.lenient && e.meets(NO_KEYWORDS, Null)
    ensures var member := BLANK.(types := Some(["string"]), nullable := true);
      Sat(e, BLANK, Null) && Sat(e, member, Null) && Merge(BLANK, member).Some? && !Sat(e, Merge(BLANK, member).value, Null)
  {
    var member := BLANK.(types := Some(["string"]), nullable := true);
    assert Merge(BLANK, member).value.types == Some(["string"]);
    assert "null" !in ["string"];
  }

  // ---- when a merge succeeds ----

  /** A shared property with another type list, or with none, and a shared extension with another value are refused. */
  lemma MergeRefuses(a: Schema, b: Schema, k: string)
    requires a.Inline? && b.Inline?
    ensures k in a.ext && k in b.ext && a.ext[k] != b.ext[k] ==> Merge(a, b).None?
    ensures k in a.props && k in b.props && a.props[k].Inline? && b.props[k].Inline? ==>
      a.props[k].types.None? || a.props[k].types != b.props[k].types ==> Merge(a, b).None?
  {
  }

  /** Of the types taken over none is added that is there already. */
  lemma {:induction false} AddTypesOnce(into: seq<string>, more: seq<string>, i: nat)
    requires |into| <= i < |AddTypes(into, more)|
    ensures AddTypes(into, more)[i] !in AddTypes(into, more)[..i]
    decreases more
  {
    if more != [] {
      var next := if more[0] in into then into else into + [more[0]];
      assert next <= AddTypes(next, more[1..]);
      if i < |next| {
        assert AddTypes(into, more)[..i] == into;
      } else {
        AddTypesOnce(next, more[1..], i);
      }
    }
  }

  /** Pairwise agreement: equal shared extensions, equal type lists on shared properties, all the way down. */
  predicate Compatible(a: Schema, b: Schema)
    decreases a, 1
  {
    && a.Inline? && b.Inline?
    && ExtensionsAgree(a.ext, b.ext)
    && PropsCompatible(a, b)
    && (a.items.Some? && b.items.Some? ==> Compatible(a.items.value, b.items.value))
    && (a.additional.Some? && b.additional.Some? ==> Compatible(a.additional.value, b.additional.value))
  }

  predicate PropsCompatible(a: Schema, b: Schema)
    requires a.Inline? && b.Inline?
    decreases a, 0
  {
    forall k :: k in a.props && k in b.props ==>
      SameTypes(a.props[k], b.props[k]) && Compatible(a.props[k], b.props[k])
  }

  lemma {:induction false} MergeSucceedsIff(a: Schema, b: Schema)
    ensures Merge(a, b).Some? <==> Compatible(a, b)
    decreases a
  {
    if a.Inline? && b.Inline? {
      forall k | k in a.props && k in b.props
        ensures Merge(a.props[k], b.props[k]).Some? <==> Compatible(a.props[k], b.props[k])
      {
        MergeSucceedsIff(a.props[k], b.props[k]);
      }
      if a.items.Some? && b.items.Some? {
        MergeSucceedsIff(a.items.value, b.items.value);
      }
      if a.additional.Some? && b.additional.Some? {
        MergeSucceedsIff(a.additional.value, b.additional.value);
      }
    }
  }

  lemma {:induction false} CompatibleSymmetric(a: Schema, b: Schema)
    requires Compatible(a, b)
    ensures Compatible(b, a)
    decreases a
  {
    forall k | k in a.props && k in b.props ensures Compatible(b.props[k], a.props[k]) {
      CompatibleSymmetric(a.props[k], b.props[k]);
    }
    if a.items.Some? && b.items.Some? {
      CompatibleSymmetric(a.items.value, b.items.value);
    }
    if a.additional.Some? && b.additional.Some? {
      CompatibleSymmetric(a.additional.value, b.additional.value);
    }
  }

  lemma {:induction false} AddTypesNothingNew(into: seq<string>, more: seq<string>)
    requires forall t :: t in more ==> t in into
    ensures AddTypes(into, more) == into
    decreases more
  {
    if more != [] {
      AddTypesNothingNew(into, more[1..]);
    }
  }

  /** The compatibility of a merge is the compatibility of its parts: only pairs matter. */
  lemma {:induction false} MergedCompatibleIff(a: Schema, b: Schema, c: Schema)
    requires Merge(a, b).Some?
    ensures Compatible(Merge(a, b).value, c) <==> Compatible(a, c) && Compatible(b, c)
    decreases a
  {
    if c.Inline? {
      var m := Merge(a, b).value;
      assert ExtensionsAgree(m.ext, c.ext) <==> ExtensionsAgree(a.ext, c.ext) && ExtensionsAgree(b.ext, c.ext);
      forall k | k in c.props
        ensures k in m.props ==>
          ((SameTypes(m.props[k], c.props[k]) && Compatible(m.props[k], c.props[k])) <==>
           (k in a.props ==> SameTypes(a.props[k], c.props[k]) && Compatible(a.props[k], c.props[k])) &&
           (k in b.props ==> SameTypes(b.props[k], c.props[k]) && Compatible(b.props[k], c.props[k])))
      {
        if k in a.props && k in b.props {
          MergedCompatibleIff(a.props[k], b.props[k], c.props[k]);
          AddTypesNothingNew(a.props[k].types.value, b.props[k].types.value);
        }
      }
      if a.items.Some? && b.items.Some? && c.items.Some? {
        MergedCompatibleIff(a.items.value, b.items.value, c.items.value);
      }
      if a.additional.Some? && b.additional.Some? && c.additional.Some? {
        MergedCompatibleIff(a.additional.value, b.additional.value, c.additional.value);
      }
      MergedPropsCompatible(a, b, c, m);
    }
  }

  /** The property part of the previous lemma, key by key. */
  lemma MergedPropsCompatible(a: Schema, b: Schema, c: Schema, m: Schema)
    requires a.Inline? && b.Inline? && c.Inline? && m.Inline? && m.props.Keys == a.props.Keys + b.props.Keys
    requires forall k :: k in c.props && k in m.props ==>
      ((SameTypes(m.props[k], c.props[k]) && Compatible(m.props[k], c.props[k])) <==>
       (k in a.props ==> SameTypes(a.props[k], c.props[k]) && Compatible(a.props[k], c.props[k])) &&
       (k in b.props ==> SameTypes(b.props[k], c.props[k]) && Compatible(b.props[k], c.props[k])))
    ensures PropsCompatible(m, c) <==> PropsCompatible(a, c) && PropsCompatible(b, c)
  {
  }

  // ---- associativity, exactly ----

  lemma {:induction false} AddTypesAssociative(a: seq<string>, b: seq<string>, c: seq<string>)
    ensures AddTypes(AddTypes(a, b), c) == AddTypes(a, AddTypes(b, c))
    decreases c
  {
    if c != [] {
      var t := c[0];
      if t in b {
        AddTypesAssociative(a, b, c[1..]);
      } else {
        AddTypesAssociative(a, b + [t], c[1..]);
        AddTypesSnoc(a, b, t);
      }
    }
  }

  lemma {:induction false} AddTypesSnoc(a: seq<string>, b: seq<string>, t: string)
    ensures AddTypes(a, b + [t]) == (if t in a || t in b then AddTypes(a, b) else AddTypes(a, b) + [t])
    decreases b
  {
    if b == [] {
      assert (b + [t])[1..] == [];
    } else {
      assert (b + [t])[1..] == b[1..] + [t];
      AddTypesSnoc(if b[0] in a then a else a + [b[0]], b[1..], t);
    }
  }

  /** Merging with what may have failed already. */
  function Then(x: Option<Schema>, y: Option<Schema>): Option<Schema> {
    if x.Some? && y.Some? then Merge(x.value, y.value) else None
  }

  /** The whole law: both groupings succeed exactly when all three pairs are compatible, and always agree. */
  lemma {:induction false} MergeAssociative(a: Schema, b: Schema, c: Schema)
    ensures Then(Merge(a, b), Some(c)) == Then(Some(a), Merge(b, c))
    ensures Then(Merge(a, b), Some(c)).Some? <==> Compatible(a, b) && Compatible(b, c) && Compatible(a, c)
  {
    MergeSucceedsIff(a, b);
    MergeSucceedsIff(b, c);
    if Merge(a, b).Some? {
      MergedCompatibleIff(a, b, c);
      MergeSucceedsIff(Merge(a, b).value, c);
    }
    if Merge(b, c).Some? {
      RightGroupingIff(a, b, c);
    }
    if Compatible(a, b) && Compatible(b, c) && Compatible(a, c) {
      CompatibleAssociative(a, b, c);
    }
  }

  lemma {:induction false} RightGroupingIff(a: Schema, b: Schema, c: Schema)
    requires Merge(b, c).Some?
    ensures Merge(a, Merge(b, c).value).Some? <==> Compatible(a, b) && Compatible(a, c)
  {
    var bc := Merge(b, c).value;
    MergeSucceedsIff(a, bc);
    CompatibleBothWays(a, bc);
    MergedCompatibleIff(b, c, a);
    CompatibleBothWays(a, b);
    CompatibleBothWays(a, c);
  }

  lemma CompatibleBothWays(a: Schema, b: Schema)
    ensures Compatible(a, b) <==> Compatible(b, a)
  {
    if Compatible(a, b) {
      CompatibleSymmetric(a, b);
    }
    if Compatible(b, a) {
      CompatibleSymmetric(b, a);
    }
  }

  /** Pairwise compatible schemas merge in either grouping, to the very same schema. */
  lemma {:induction false} CompatibleAssociative(a: Schema, b: Schema, c: Schema)
    requires Compatible(a, b) && Compatible(b, c) && Compatible(a, c)
    ensures Merge(a, b).Some? && Merge(b, c).Some?
    ensures Merge(Merge(a, b).value, c).Some?
    ensures Merge(Merge(a, b).value, c) == Merge(a, Merge(b, c).value)
    decreases a, 1
  {
    MergeSucceedsIff(a, b);
    MergeSucceedsIff(b, c);
    MergedCompatibleIff(a, b, c);
    MergeSucceedsIff(Merge(a, b).value, c);
    RightGroupingIff(a, b, c);
    var ab, bc := Merge(a, b).value, Merge(b, c).value;
    FieldsOfMerge(a, b);
    FieldsOfMerge(b, c);
    FieldsOfMerge(ab, c);
    FieldsOfMerge(a, bc);
    PropsAssociative(a, b, c, ab, bc, Merge(ab, c).value, Merge(a, bc).value);
    GroupingsEqual(a, b, c, ab, bc, Merge(ab, c).value, Merge(a, bc).value);
  }

  predicate SlotsCompatible(x: Option<Schema>, y: Option<Schema>) {
    x.Some? && y.Some? ==> Compatible(x.value, y.value)
  }

  lemma {:induction false} GroupingsEqual(a: Schema, b: Schema, c: Schema, ab: Schema, bc: Schema, l: Schema, r: Schema)
    requires MergedShape(a, b, ab) && MergedShape(b, c, bc) && MergedShape(ab, c, l) && MergedShape(a, bc, r)
    requires SlotsCompatible(a.items, b.items) && SlotsCompatible(b.items, c.items) && SlotsCompatible(a.items, c.items)
    requires && SlotsCompatible(a.additional, b.additional) && SlotsCompatible(b.additional, c.additional)
             && SlotsCompatible(a.additional, c.additional)
    requires l.props == r.props
    ensures l == r
    decreases a, 0
  {
    TypesAssociative(a.types, b.types, c.types);
    assert l.ext == r.ext;
    SlotsAssociative(a.items, b.items, c.items, ab.items, bc.items);
    SlotsAssociative(a.additional, b.additional, c.additional, ab.additional, bc.additional);
  }

  lemma {:induction false} PropsAssociative(a: Schema, b: Schema, c: Schema, ab: Schema, bc: Schema, l: Schema, r: Schema)
    requires a.Inline? && b.Inline? && c.Inline?
    requires PropsCompatible(a, b) && PropsCompatible(b, c) && PropsCompatible(a, c)
    requires MergedProps(a, b, ab) && MergedProps(b, c, bc) && MergedProps(ab, c, l) && MergedProps(a, bc, r)
    ensures l.props == r.props
    decreases a, 0
  {
    forall k | k in l.props ensures l.props[k] == r.props[k] {
      if k in a.props && k in b.props && k in c.props {
        CompatibleAssociative(a.props[k], b.props[k], c.props[k]);
      }
    }
  }

  lemma {:induction false} SlotsAssociative(x: Option<Schema>, y: Option<Schema>, z: Option<Schema>,
                                            xy: Option<Schema>, yz: Option<Schema>)
    requires SlotsCompatible(x, y) && SlotsCompatible(y, z) && SlotsCompatible(x, z)
    requires MergeSlot(x, y) == Some(xy) && MergeSlot(y, z) == Some(yz)
    ensures MergeSlot(xy, z) == MergeSlot(x, yz)
    decreases x
  {
    if x.Some? && y.Some? && z.Some? {
      CompatibleAssociative(x.value, y.value, z.value);
    }
  }

  lemma TypesAssociative(a: Option<seq<string>>, b: Option<seq<string>>, c: Option<seq<string>>)
    ensures MergeTypes(MergeTypes(a, b), c) == MergeTypes(a, MergeTypes(b, c))
  {
    if a.Some? && b.Some? && c.Some? {
      AddTypesAssociative(a.value, b.value, c.value);
    }
  }

  // ---- commutativity, up to the order of types and what only the receiver keeps ----

  /** Equal type lists up to order and repetition. */
  ghost predicate SameNames(a: Option<seq<string>>, b: Option<seq<string>>) {
    && a.Some? == b.Some?
    && (a.Some? ==> forall t :: t in a.value <==> t in b.value)
  }

  /** Equal in everything a merge combines: types as sets, properties, extensions, items and additionalProperties. */
  ghost predicate Same(a: Schema, b: Schema) {
    a == b ||
    (a.Inline? && b.Inline?
    && SameNames(a.types, b.types)
    && a.ext == b.ext && a.has == b.has
    && a.props.Keys == b.props.Keys
    && (forall k :: k in a.props && k in b.props ==> Same(a.props[k], b.props[k]))
    && a.items.Some? == b.items.Some?
    && (a.items.Some? && b.items.Some? ==> Same(a.items.value, b.items.value))
    && a.additional.Some? == b.additional.Some?
    && (a.additional.Some? && b.additional.Some? ==> Same(a.additional.value, b.additional.value)))
  }

  /** Both orders of merging succeed together and combine to the same thing. */
  lemma {:induction false} MergeCommutes(a: Schema, b: Schema)
    ensures Merge(a, b).Some? <==> Merge(b, a).Some?
    ensures Merge(a, b).Some? ==> Same(Merge(a, b).value, Merge(b, a).value)
    decreases a, 2
  {
    MergeSucceedsIff(a, b);
    MergeSucceedsIff(b, a);
    if Compatible(a, b) {
      CompatibleSymmetric(a, b);
    } else if Compatible(b, a) {
      CompatibleSymmetric(b, a);
    }
    if Merge(a, b).Some? {
      FieldsOfMerge(a, b);
      FieldsOfMerge(b, a);
      OrdersSame(a, b, Merge(a, b).value, Merge(b, a).value);
    }
  }

  lemma {:induction false} OrdersSame(a: Schema, b: Schema, m: Schema, n: Schema)
    requires MergedFields(a, b, m) && MergedFields(b, a, n) && ExtensionsAgree(a.ext, b.ext)
    ensures Same(m, n)
    decreases a, 1
  {
    assert m.ext == n.ext;
    PropsCommute(a, b, m, n);
    SlotsCommute(a.items, b.items);
    SlotsCommute(a.additional, b.additional);
  }

  lemma {:induction false} PropsCommute(a: Schema, b: Schema, m: Schema, n: Schema)
    requires MergedProps(a, b, m) && MergedProps(b, a, n)
    ensures forall k :: k in m.props ==> k in n.props && Same(m.props[k], n.props[k])
    decreases a, 0
  {
    forall k | k in m.props ensures Same(m.props[k], n.props[k]) {
      if k in a.props && k in b.props {
        MergeCommutes(a.props[k], b.props[k]);
      }
    }
  }

  lemma SlotsCommute(x: Option<Schema>, y: Option<Schema>)
    requires MergeSlot(x, y).Some? && MergeSlot(y, x).Some?
    ensures var m, n := MergeSlot(x, y).value, MergeSlot(y, x).value;
      m.Some? == n.Some? && (m.Some? ==> Same(m.value, n.value))
    decreases x
  {
    if x.Some? && y.Some? {
      MergeCommutes(x.value, y.value);
    }
  }
}
