/** mergeSchemas as the source runs it: loops that update the receiving schema in place. */
module MergingInPlace {
  import opened Common
  import opened Schemas
  import opened Merging

  /** Every shared property can be merged. */
  predicate PropsMergeable(a: map<string, Schema>, b: map<string, Schema>) {
    forall k :: k in a && k in b ==> SameTypes(a[k], b[k]) && Merge(a[k], b[k]).Some?
  }

  /** `now` is `a` with the properties of `b` outside `todo` merged in. */
  predicate PropsMerged(a: map<string, Schema>, b: map<string, Schema>, todo: set<string>, now: map<string, Schema>) {
    && now.Keys == a.Keys + (b.Keys - todo)
    && forall k :: k in now ==>
         Some(now[k]) == if k !in b || k in todo then (if k in a then Some(a[k]) else None)
                         else if k !in a then Some(b[k]) else Merge(a[k], b[k])
  }

  /** A schema being updated; its sub-schemas are read and replaced as values. */
  class Node {
    var types: Option<seq<string>>
    var props: map<string, Schema>
    var items: Option<Schema>
    var has: Option<bool>
    var additional: Option<Schema>
    var ext: map<string, Extension>
    const kept: Schema

    constructor (s: Schema)
      requires s.Inline?
      ensures Value() == s
    {
      types, props, items, has, additional, ext := s.types, s.props, s.items, s.has, s.additional, s.ext;
      kept := s;
    }

    /** The schema as it stands; what no merge touches is `kept`. */
    function Value(): Schema
      reads this
    {
      if kept.Ref? then kept
      else kept.(types := types, props := props, items := items, has := has, additional := additional, ext := ext)
    }

    /** The types the receiver lacks are appended one by one. */
    method MergeTypesInto(more: Option<seq<string>>)
      modifies this`types
      ensures types == MergeTypes(old(types), more)
    {
      if types.None? {
        types := more;
      } else if more.Some? {
        ghost var start := types.value;
        for i := 0 to |more.value|
          invariant types == Some(AddTypes(start, more.value[..i]))
        {
          assert more.value[..i + 1] == more.value[..i] + [more.value[i]];
          AddTypesSnoc(start, more.value[..i], more.value[i]);
          if more.value[i] !in types.value {
            types := Some(types.value + [more.value[i]]);
          }
        }
        assert more.value[..|more.value|] == more.value;
      }
    }

    /** Extensions are copied in whatever order the map yields them; a differing one is an error. */
    method MergeExtensionsInto(more: map<string, Extension>) returns (err: bool)
      modifies this`ext
      ensures err <==> !ExtensionsAgree(old(ext), more)
      ensures !err ==> ext == old(ext) + more
    {
      ghost var start := ext;
      var todo := more.Keys;
      while todo != {}
        invariant todo <= more.Keys && ext.Keys == start.Keys + (more.Keys - todo)
        invariant forall k :: k in ext ==> ext[k] == if k in more && k !in todo then more[k] else start[k]
        invariant forall k :: k in more && k !in todo && k in start ==> start[k] == more[k]
      {
        var key :| key in todo;
        if key in ext && ext[key] != more[key] {
          return true;
        }
        ext := ext[key := more[key]];
        todo := todo - {key};
      }
      return false;
    }

    /** A shared property must have an equal type list, and is then merged; the others are taken over. */
    method MergePropertiesInto(toMerge: Schema) returns (err: bool)
      requires toMerge.Inline?
      modifies this`props
      ensures !err <==> PropsMergeable(old(props), toMerge.props)
      ensures !err ==> PropsMerged(old(props), toMerge.props, {}, props)
      decreases toMerge, 0
    {
      ghost var start := props;
      var todo := toMerge.props.Keys;
      while todo != {}
        invariant todo <= toMerge.props.Keys
        invariant PropsMerged(start, toMerge.props, todo, props)
        invariant PropsMergeable(start, toMerge.props - todo)
      {
        var key :| key in todo;
        if key !in props {
          props := props[key := toMerge.props[key]];
        } else {
          if !SameTypes(props[key], toMerge.props[key]) {
            return true;
          }
          var merged := MergeSchema(props[key], toMerge.props[key]);
          if merged.None? {
            return true;
          }
          props := props[key := merged.value];
        }
        todo := todo - {key};
      }
      assert toMerge.props - {} == toMerge.props;
      return false;
    }

    /** additionalProperties: schemas are merged, and `true` wins over `false`. */
    method MergeAdditionalInto(toMerge: Schema) returns (err: bool)
      requires toMerge.Inline?
      modifies this`additional, this`has
      ensures err <==> MergeSlot(old(additional), toMerge.additional).None?
      ensures !err ==> Some(additional) == MergeSlot(old(additional), toMerge.additional) && has == MergeHas(old(has), toMerge.has)
      decreases toMerge, 0
    {
      if toMerge.has.Some? || toMerge.additional.Some? {
        additional, err := MergeOptional(additional, toMerge.additional);
        if err {
          return;
        }
        if has.None? {
          has := toMerge.has;
        } else if toMerge.has.Some? {
          if !has.value && toMerge.has.value {
            has := toMerge.has;
          }
        }
      }
      return false;
    }

    method MergeSchemas(toMerge: Schema) returns (err: bool)
      requires kept.Inline? && toMerge.Inline?
      modifies this
      ensures !err <==> Merge(old(Value()), toMerge).Some?
      ensures !err ==> Value() == Merge(old(Value()), toMerge).value
      decreases toMerge, 1
    {
      ghost var before := Value();
      MergeTypesInto(toMerge.types);
      err := MergeExtensionsInto(toMerge.ext);
      if err {
        return;
      }
      err := MergeAdditionalInto(toMerge);
      if err {
        return;
      }
      err := MergePropertiesInto(toMerge);
      if err {
        return;
      }
      items, err := MergeOptional(items, toMerge.items);
      if err {
        return;
      }
      Assembled(before, toMerge, types, ext, additional, has, props, items);
    }
  }

  /** The pieces the loops leave behind are the merge. */
  lemma {:induction false} Assembled(a: Schema, b: Schema, types: Option<seq<string>>, ext: map<string, Extension>, additional: Option<Schema>,
                  has: Option<bool>, props: map<string, Schema>, items: Option<Schema>)
    requires a.Inline? && b.Inline? && types == MergeTypes(a.types, b.types)
    requires ExtensionsAgree(a.ext, b.ext) && ext == a.ext + b.ext
    requires MergeSlot(a.additional, b.additional) == Some(additional) && has == MergeHas(a.has, b.has)
    requires PropsMergeable(a.props, b.props) && PropsMerged(a.props, b.props, {}, props)
    requires MergeSlot(a.items, b.items) == Some(items)
    ensures Merge(a, b) ==
      Some(a.(types := types, ext := ext, additional := additional, has := has, props := props, items := items))
  {
    var m := Merge(a, b).value;
    FieldsOfMerge(a, b);
    assert m == a.(types := types, ext := ext, additional := additional, has := has, props := props, items := items);
  }

  /** An optional sub-schema merged with its counterpart; a missing one is taken over. */
  method MergeOptional(into: Option<Schema>, toMerge: Option<Schema>) returns (merged: Option<Schema>, err: bool)
    ensures MergeSlot(into, toMerge) == if err then None else Some(merged)
    decreases toMerge, 3
  {
    if toMerge.None? {
      return into, false;
    }
    if into.None? {
      return toMerge, false;
    }
    merged := MergeSchema(into.value, toMerge.value);
    err := merged.None?;
  }

  /** The recursive call on a sub-schema, taken out and put back. */
  method MergeSchema(into: Schema, toMerge: Schema) returns (merged: Option<Schema>)
    ensures merged == Merge(into, toMerge)
    decreases toMerge, 2
  {
    if into.Ref? || toMerge.Ref? {
      return None;
    }
    var node := new Node(into);
    var err := node.MergeSchemas(toMerge);
    return if err then None else Some(node.Value());
  }
}
