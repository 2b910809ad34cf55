/** Resolved schemas are structural: all fields at the root, combinators only over required names. */
module StructuralSchemas {
  import opened Common
  import opened Schemas
  import opened Merging
  import opened Resolving

  /** A combinator entry that says nothing but which names are required. */
  predicate OnlyRequires(s: Schema) {
    s.Inline? && s == BLANK.(required := s.required)
  }

  /** An entry may also rule out, under `not` and `anyOf`, the names that discriminate its siblings. */
  predicate Discriminates(s: Schema) {
    s.Inline? &&
    (OnlyRequires(s) || (s.negated.Some? && s == BLANK.(required := s.required, negated := s.negated) && RulesOut(s.negated.value)))
  }

  predicate RulesOut(n: Schema) {
    && n.Inline? && n == BLANK.(anyOf := n.anyOf)
    && (forall i :: 0 <= i < |n.anyOf| ==> OnlyRequires(n.anyOf[i]))
  }

  /**
    A structural schema: types, properties, items and additionalProperties stand at the
    root only, combinators hold discriminators, and additionalProperties is not a bare boolean.
   */
  predicate Structural(s: Schema) {
    && s.Inline? && s.negated.None? && (s.has.Some? ==> s.additional.Some?)
    && EntriesDiscriminate(s)
    && (forall k :: k in s.props ==> Structural(s.props[k]))
    && (s.items.Some? ==> Structural(s.items.value))
    && (s.additional.Some? ==> Structural(s.additional.value))
  }

  predicate EntriesDiscriminate(s: Schema)
    requires s.Inline?
  {
    && (forall i :: 0 <= i < |s.allOf| ==> OnlyRequires(s.allOf[i]))
    && (forall i :: 0 <= i < |s.oneOf| ==> Discriminates(s.oneOf[i]))
    && (forall i :: 0 <= i < |s.anyOf| ==> OnlyRequires(s.anyOf[i]))
  }

  lemma {:induction false} MergeStructural(a: Schema, b: Schema)
    requires Structural(a) && Structural(b) && Merge(a, b).Some?
    ensures Structural(Merge(a, b).value)
    decreases a
  {
    FieldsOfMerge(a, b);
    var m := Merge(a, b).value;
    forall k | k in m.props ensures Structural(m.props[k]) {
      if k in a.props && k in b.props {
        MergeStructural(a.props[k], b.props[k]);
      }
    }
    if a.items.Some? && b.items.Some? {
      MergeStructural(a.items.value, b.items.value);
    }
    if a.additional.Some? && b.additional.Some? {
      MergeStructural(a.additional.value, b.additional.value);
    }
  }

  lemma {:induction false} NotRequiredOnlyRequires(all: seq<string>, props: map<string, Schema>)
    ensures forall i :: 0 <= i < |NotRequired(all, props)| ==> OnlyRequires(NotRequired(all, props)[i])
  {
    if all != [] {
      NotRequiredOnlyRequires(all[1..], props);
    }
  }

  lemma DiscriminatorFits(kind: Combinator, member: Schema, all: seq<string>)
    requires member.Inline?
    ensures Discriminates(Discriminator(kind, member, all))
    ensures kind != OneOf ==> OnlyRequires(Discriminator(kind, member, all))
  {
    NotRequiredOnlyRequires(all, member.props);
  }

  lemma {:induction false} AbsorbStructural(acc: Schema, kind: Combinator, member: Schema, all: seq<string>)
    requires Structural(acc) && Structural(member) && Absorb(acc, kind, member, all).Some?
    ensures Structural(Absorb(acc, kind, member, all).value)
  {
    DiscriminatorFits(kind, member, all);
    var entry := Discriminator(kind, member, all);
    assert Structural(Record(acc, kind, entry));
    assert Structural(member.(required := []));
    MergeStructural(Record(acc, kind, entry), member.(required := []));
  }

  lemma {:induction false} AbsorbAllStructural(acc: Schema, kind: Combinator, members: seq<Schema>, all: seq<string>)
    requires Structural(acc) && AllInline(members) && AbsorbAll(acc, kind, members, all).Some?
    requires forall i :: 0 <= i < |members| ==> Structural(members[i])
    ensures Structural(AbsorbAll(acc, kind, members, all).value)
    decreases members
  {
    if members != [] {
      AbsorbStructural(acc, kind, members[0], all);
      AbsorbAllStructural(Absorb(acc, kind, members[0], all).value, kind, members[1..], all);
    }
  }

  /**
    Main theorem. Whatever the source schema nests, what resolves is structural: no
    type, property, item or value constraint is left inside a combinator at any depth.
   */
  lemma {:induction false} ResolveStructural(c: Components, s: Schema, visited: set<string>)
    requires Resolve(c, s, visited).Some?
    ensures Structural(Resolve(c, s, visited).value)
    decreases c.Keys - visited, s, 4, 0
  {
    match s
    case Ref(ref, _) =>
      if RefName(ref) !in visited {
        ResolveStructural(c, c[RefName(ref)], visited + {RefName(ref)});
      }
    case Inline(_, _, _, _, _, _, _, _, _, _, _, _, _) =>
      OwnStructural(c, s, visited);
      FlattenStructural(c, s, visited, ResolveOwn(c, s, visited).value);
  }

  lemma {:induction false} OwnStructural(c: Components, s: Schema, visited: set<string>)
    requires s.Inline? && ResolveOwn(c, s, visited).Some?
    ensures Structural(ResolveOwn(c, s, visited).value)
    decreases c.Keys - visited, s, 1, 0
  {
    if s.additional.Some? {
      ResolveStructural(c, s.additional.value, visited);
    }
    if s.items.Some? {
      ResolveStructural(c, s.items.value, visited);
    }
    var own := ResolveOwn(c, s, visited).value;
    forall k | k in s.props ensures Structural(own.props[k]) {
      ResolveStructural(c, s.props[k], visited);
    }
  }

  lemma {:induction false} FlattenStructural(c: Components, s: Schema, visited: set<string>, own: Schema)
    requires s.Inline? && Structural(own) && Flatten(c, s, visited, own).Some?
    ensures Structural(Flatten(c, s, visited, own).value)
    decreases c.Keys - visited, s, 3, 0
  {
    LoopStructural(c, s, AllOf, [], visited, own);
    var acc := Loop(c, s, AllOf, [], visited, own).value;
    if s.oneOf == [] {
      LoopStructural(c, s, AnyOf, [], visited, acc);
    } else if AllRequired(s.oneOf).value != [] {
      var names := AllRequired(s.oneOf).value;
      LoopStructural(c, s, OneOf, names, visited, acc);
      LoopStructural(c, s, AnyOf, [], visited, Loop(c, s, OneOf, names, visited, acc).value);
    }
  }

  lemma {:induction false} LoopStructural(c: Components, s: Schema, kind: Combinator, all: seq<string>, visited: set<string>, acc: Schema)
    requires s.Inline? && Structural(acc) && Loop(c, s, kind, all, visited, acc).Some?
    ensures Structural(Loop(c, s, kind, all, visited, acc).value)
    decreases c.Keys - visited, s, 2, 0
  {
    MembersStructural(c, s, kind, 0, visited);
    AbsorbAllStructural(acc, kind, ResolveAll(c, s, kind, 0, visited).value, all);
  }

  lemma {:induction false} MembersStructural(c: Components, s: Schema, kind: Combinator, i: nat, visited: set<string>)
    requires s.Inline? && i <= |Members(s, kind)| && ResolveAll(c, s, kind, i, visited).Some?
    ensures forall j :: 0 <= j < |Members(s, kind)| - i ==> Structural(ResolveAll(c, s, kind, i, visited).value[j])
    decreases c.Keys - visited, s, 1, |Members(s, kind)| - i
  {
    if i < |Members(s, kind)| {
      ResolveStructural(c, Members(s, kind)[i], visited);
      MembersStructural(c, s, kind, i + 1, visited);
    }
  }

  // ---- no references ----

  lemma {:induction false} StructuralHasNoRefs(s: Schema)
    requires Structural(s)
    ensures NoRefs(s)
  {
    forall k | k in s.props ensures NoRefs(s.props[k]) {
      StructuralHasNoRefs(s.props[k]);
    }
    if s.items.Some? {
      StructuralHasNoRefs(s.items.value);
    }
    if s.additional.Some? {
      StructuralHasNoRefs(s.additional.value);
    }
    forall i | 0 <= i < |s.oneOf| ensures NoRefs(s.oneOf[i]) {
    }
  }

  /** Main theorem: whatever resolves, cycles included, has no `$ref` at any depth. */
  lemma ResolveNoRefs(c: Components, s: Schema, visited: set<string>)
    requires Resolve(c, s, visited).Some?
    ensures NoRefs(Resolve(c, s, visited).value)
  {
    ResolveStructural(c, s, visited);
    StructuralHasNoRefs(Resolve(c, s, visited).value);
  }

  /** Stripping in place is harmless to later calls for the same name, and the outcome never contains a reference. */
  lemma CRDSchemaRepeatable(c: Components, name: string)
    ensures Stripped(Stripped(c, name), name) == Stripped(c, name)
    ensures CRDSchema(Stripped(c, name), name) == CRDSchema(c, name)
    ensures CRDSchema(c, name).Some? ==> NoRefs(CRDSchema(c, name).value)
  {
    var at := Carrier(c, name, {});
    if at.Some? {
      var s := Strip(c[at.value]);
      CarrierKept(c, name, {}, at.value, s);
      assert s.props - {"metadata", "kind", "apiVersion"} == s.props;
      assert Strip(s) == s;
      assert Stripped(c, name)[at.value := s] == Stripped(c, name);
    }
    if CRDSchema(c, name).Some? {
      ResolveNoRefs(Stripped(c, name), Stripped(c, name)[name], {});
    }
  }
}
