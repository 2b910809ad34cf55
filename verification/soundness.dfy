/** What resolving keeps: acceptance on acyclic components without oneOf/anyOf, and independence of what else was visited. */
module Soundness {
  import opened Common
  import opened Schemas
  import opened Merging
  import opened Resolving
  import opened StructuralSchemas
  import opened Parts

  /** No oneOf or anyOf anywhere the resolver looks. */
  predicate NoUnions(s: Schema) {
    s.Inline? ==>
      && s.oneOf == [] && s.anyOf == []
      && (forall k :: k in s.props ==> NoUnions(s.props[k]))
      && (s.items.Some? ==> NoUnions(s.items.value))
      && (s.additional.Some? ==> NoUnions(s.additional.value))
      && (forall i :: 0 <= i < |s.allOf| ==> NoUnions(s.allOf[i]))
  }

  ghost predicate AllUnionFree(e: Env) {
    forall n :: n in e.comps ==> NoUnions(e.comps[n])
  }

  /** Nothing visited on the way down can be referenced from below `bound`. */
  ghost predicate Above(e: Env, visited: set<string>, bound: nat) {
    forall n :: n in visited && n in e.rank ==> e.rank[n] >= bound
  }

  /** Nowhere nullable, references followed. */
  ghost predicate Plain(e: Env, s: Schema, bound: nat)
    decreases bound, s
  {
    match s
    case Ref(ref, _) =>
      var name := RefName(ref);
      name in e.comps && name in e.rank && e.rank[name] < bound ==> Plain(e, e.comps[name], e.rank[name])
    case Inline(_, props, _, nullable, items, _, additional, _, allOf, _, _, _, _) =>
      && !nullable
      && (forall k :: k in props ==> Plain(e, props[k], bound))
      && (items.Some? ==> Plain(e, items.value, bound))
      && (additional.Some? ==> Plain(e, additional.value, bound))
      && (forall i :: 0 <= i < |allOf| ==> Plain(e, allOf[i], bound))
  }

  /** No member of an allOf is nullable anywhere. */
  ghost predicate PlainMembers(e: Env, s: Schema, bound: nat) {
    s.Inline? ==>
      && (forall k :: k in s.props ==> PlainMembers(e, s.props[k], bound))
      && (s.items.Some? ==> PlainMembers(e, s.items.value, bound))
      && (s.additional.Some? ==> PlainMembers(e, s.additional.value, bound))
      && (forall i :: 0 <= i < |s.allOf| ==> Plain(e, s.allOf[i], bound))
  }

  lemma {:induction false} PlainHasPlainMembers(e: Env, s: Schema, bound: nat)
    requires Plain(e, s, bound)
    ensures PlainMembers(e, s, bound)
  {
    if s.Inline? {
      forall k | k in s.props ensures PlainMembers(e, s.props[k], bound) {
        PlainHasPlainMembers(e, s.props[k], bound);
      }
      if s.items.Some? {
        PlainHasPlainMembers(e, s.items.value, bound);
      }
      if s.additional.Some? {
        PlainHasPlainMembers(e, s.additional.value, bound);
      }
    }
  }

  /** Either nulls are waved through, or no allOf member lets one in by being nullable. */
  ghost predicate Careful(e: Env, s: Schema, bound: nat) {
    e.lenient || PlainMembers(e, s, bound)
  }

  ghost predicate AllCareful(e: Env) {
    forall n :: n in e.comps && n in e.rank ==> Careful(e, e.comps[n], e.rank[n])
  }

  /** What all of this is about: acyclic components without oneOf and anyOf, careful with nulls. */
  ghost predicate Fit(e: Env, s: Schema, visited: set<string>, bound: nat) {
    && Acyclic(e) && AllUnionFree(e) && AllCareful(e)
    && Below(e.rank, s, bound) && NoUnions(s) && Careful(e, s, bound) && Above(e, visited, bound)
  }

  // ---- meaning is kept ----

  /**
    Main theorem. On acyclic components without oneOf and anyOf, where no allOf member is
    nullable, every value the source schema accepts is accepted by the resolved schema.
    With nulls waved through it holds whatever is nullable.
   */
  lemma {:induction false} ResolveSound(e: Env, s: Schema, visited: set<string>, v: Value, bound: nat, r: Schema)
    requires Fit(e, s, visited, bound)
    requires Resolve(e.comps, s, visited) == Some(r) && Accepts(e, s, v, bound)
    ensures Sat(e, r, v)
    decreases bound, s, 4, 0
  {
    if s.Inline? {
      InlineSound(e, s, visited, v, bound, r);
    } else {
      RefSound(e, s, visited, v, bound, r);
    }
  }

  lemma {:induction false} RefSound(e: Env, s: Schema, visited: set<string>, v: Value, bound: nat, r: Schema)
    requires Fit(e, s, visited, bound)
    requires s.Ref? && Resolve(e.comps, s, visited) == Some(r) && Accepts(e, s, v, bound)
    ensures Sat(e, r, v)
    decreases bound, s, 3, 0
  {
    var name := RefName(s.ref);
    var target := e.comps[name];
    ResolveSound(e, target, visited + {name}, v, e.rank[name], r);
  }

  lemma {:induction false} InlineSound(e: Env, s: Schema, visited: set<string>, v: Value, bound: nat, r: Schema)
    requires Fit(e, s, visited, bound)
    requires s.Inline? && Resolve(e.comps, s, visited) == Some(r) && Accepts(e, s, v, bound)
    ensures Sat(e, r, v)
    decreases bound, s, 3, 0
  {
    var members := AllOfMembers(e.comps, s, visited);
    var own := ResolveOwn(e.comps, s, visited).value;
    OwnSound(e, s, visited, v, bound);
    MembersSound(e, s, 0, visited, v, bound);
    if !e.lenient {
      MembersNeverNullable(e, s, 0, visited, bound);
    }
    AbsorbAllSound(e, own, members, v);
  }

  lemma {:induction false} OwnSound(e: Env, s: Schema, visited: set<string>, v: Value, bound: nat)
    requires Fit(e, s, visited, bound)
    requires s.Inline? && ResolveOwn(e.comps, s, visited).Some? && Accepts(e, s, v, bound)
    ensures Sat(e, ResolveOwn(e.comps, s, visited).value, v)
    decreases bound, s, 2, 0
  {
    if v.Obj? {
      OwnFieldsFit(e, s, visited, v.fields, bound);
    }
    if v.Arr? {
      OwnElementsFit(e, s, visited, v.elems, bound);
    }
  }

  lemma {:induction false} OwnElementsFit(e: Env, s: Schema, visited: set<string>, elems: seq<Value>, bound: nat)
    requires Fit(e, s, visited, bound)
    requires s.Inline? && ResolveOwn(e.comps, s, visited).Some? && ElementsFit(e, s, elems, bound)
    ensures ElementsFit(e, ResolveOwn(e.comps, s, visited).value, elems, 0)
    decreases bound, s, 1, 0
  {
    if s.items.Some? {
      var item := s.items.value;
      forall i | 0 <= i < |elems| ensures Sat(e, Resolve(e.comps, item, visited).value, elems[i]) {
        ResolveSound(e, item, visited, elems[i], bound, Resolve(e.comps, item, visited).value);
      }
    }
  }

  lemma {:induction false} OwnFieldsFit(e: Env, s: Schema, visited: set<string>, fields: map<string, Value>, bound: nat)
    requires Fit(e, s, visited, bound)
    requires s.Inline? && ResolveOwn(e.comps, s, visited).Some? && FieldsFit(e, s, fields, bound)
    ensures FieldsFit(e, ResolveOwn(e.comps, s, visited).value, fields, 0)
    decreases bound, s, 1, 0
  {
    var own := ResolveOwn(e.comps, s, visited).value;
    forall k | k in fields && k in own.props ensures Sat(e, own.props[k], fields[k]) {
      ResolveSound(e, s.props[k], visited, fields[k], bound, own.props[k]);
    }
    forall k | k in fields && k !in own.props
      ensures own.has != Some(false) && (own.additional.Some? ==> Sat(e, own.additional.value, fields[k]))
    {
      if own.additional.Some? {
        ResolveSound(e, s.additional.value, visited, fields[k], bound, own.additional.value);
      }
    }
  }

  /** Without oneOf and anyOf only the allOf loop runs. */
  lemma AllOfMembers(c: Components, s: Schema, visited: set<string>) returns (members: seq<Schema>)
    requires s.Inline? && s.oneOf == [] && s.anyOf == [] && Resolve(c, s, visited).Some?
    ensures ResolveOwn(c, s, visited).Some? && ResolveAll(c, s, AllOf, 0, visited) == Some(members) && AllInline(members)
    ensures Resolve(c, s, visited) == AbsorbAll(ResolveOwn(c, s, visited).value, AllOf, members, [])
  {
    var own := ResolveOwn(c, s, visited).value;
    assert Resolve(c, s, visited) == Flatten(c, s, visited, own);
    var loop := Loop(c, s, AllOf, [], visited, own);
    assert ResolveAll(c, s, AllOf, 0, visited).Some?;
    members := ResolveAll(c, s, AllOf, 0, visited).value;
    assert loop.Some? && loop == AbsorbAll(own, AllOf, members, []);
    assert ResolveAll(c, s, AnyOf, 0, visited) == Some([]);
    assert Loop(c, s, AnyOf, [], visited, loop.value) == AbsorbAll(loop.value, AnyOf, [], []) == loop;
  }

  lemma {:induction false} MembersSound(e: Env, s: Schema, i: nat, visited: set<string>, v: Value, bound: nat)
    requires Fit(e, s, visited, bound)
    requires s.Inline? && i <= |s.allOf| && CombinatorsHold(e, s, v, bound)
    requires ResolveAll(e.comps, s, AllOf, i, visited).Some?
    ensures forall j :: 0 <= j < |s.allOf| - i ==> Sat(e, ResolveAll(e.comps, s, AllOf, i, visited).value[j], v)
    decreases bound, s, 2, |s.allOf| - i
  {
    if i < |s.allOf| {
      MemberFit(e, s, i, visited, bound);
      ResolveSound(e, s.allOf[i], visited, v, bound, Resolve(e.comps, s.allOf[i], visited).value);
      MembersSound(e, s, i + 1, visited, v, bound);
    }
  }

  /** The allOf loop keeps a value that satisfies the accumulator and every member. */
  lemma {:induction false} AbsorbAllSound(e: Env, acc: Schema, members: seq<Schema>, v: Value)
    requires Acyclic(e) && acc.Inline? && AllInline(members) && AbsorbAll(acc, AllOf, members, []).Some?
    requires Sat(e, acc, v) && forall i :: 0 <= i < |members| ==> Sat(e, members[i], v) && (e.lenient || NeverNullable(members[i]))
    ensures Sat(e, AbsorbAll(acc, AllOf, members, []).value, v)
    decreases members
  {
    if members != [] {
      AbsorbSound(e, acc, members[0], v);
      AbsorbAllSound(e, Absorb(acc, AllOf, members[0], []).value, members[1..], v);
    }
  }

  lemma {:induction false} AbsorbSound(e: Env, acc: Schema, member: Schema, v: Value)
    requires Acyclic(e) && acc.Inline? && member.Inline? && Sat(e, acc, v) && Sat(e, member, v)
    requires Absorb(acc, AllOf, member, []).Some? && (e.lenient || NeverNullable(member))
    ensures Sat(e, Absorb(acc, AllOf, member, []).value, v)
  {
    RecordSound(e, acc, member, v);
    var into, bare := Record(acc, AllOf, Discriminator(AllOf, member, [])), member.(required := []);
    if !e.lenient {
      MergedNullsFit(e, into, bare, v);
    }
    MergeSound(e, into, bare, v);
  }

  /** Recording a member's required names in allOf, and dropping them from the member, costs no accepted value. */
  lemma RecordSound(e: Env, acc: Schema, member: Schema, v: Value)
    requires Acyclic(e) && acc.Inline? && member.Inline? && Sat(e, acc, v) && Sat(e, member, v)
    ensures Sat(e, Record(acc, AllOf, Discriminator(AllOf, member, [])), v)
    ensures Sat(e, member.(required := []), v)
  {
    RequiredDropped(e, member, v);
    RequiredAlone(e, member, v);
    EntryAdded(e, acc, BLANK.(required := member.required), v);
  }

  lemma RequiredDropped(e: Env, member: Schema, v: Value)
    requires member.Inline? && Sat(e, member, v)
    ensures Sat(e, member.(required := []), v)
  {
    var t := member.(required := []);
    CombinatorsCopied(e, member, t, v, 0);
    if v.Obj? {
      assert FieldsFit(e, member, v.fields, 0);
      assert FieldsFit(e, t, v.fields, 0);
    }
    if v.Arr? {
      assert ElementsFit(e, member, v.elems, 0);
      assert ElementsFit(e, t, v.elems, 0);
    }
  }

  lemma RequiredAlone(e: Env, member: Schema, v: Value)
    requires Acyclic(e) && member.Inline? && Sat(e, member, v)
    ensures Sat(e, BLANK.(required := member.required), v)
  {
    var t := BLANK.(required := member.required);
    if v.Obj? {
      assert FieldsFit(e, member, v.fields, 0);
      assert FieldsFit(e, t, v.fields, 0);
    }
    assert CombinatorsHold(e, t, v, 0);
  }

  lemma EntryAdded(e: Env, acc: Schema, entry: Schema, v: Value)
    requires acc.Inline? && Sat(e, acc, v) && Sat(e, entry, v)
    ensures Sat(e, acc.(allOf := acc.allOf + [entry]), v)
  {
    var t := acc.(allOf := acc.allOf + [entry]);
    assert CombinatorsHold(e, acc, v, 0);
    assert CombinatorsHold(e, t, v, 0);
    if v.Obj? {
      assert FieldsFit(e, acc, v.fields, 0);
    }
    if v.Arr? {
      assert ElementsFit(e, acc, v.elems, 0);
    }
  }

  lemma MemberFit(e: Env, s: Schema, i: nat, visited: set<string>, bound: nat)
    requires Fit(e, s, visited, bound) && s.Inline? && i < |s.allOf|
    ensures Fit(e, s.allOf[i], visited, bound)
  {
    if !e.lenient {
      PlainHasPlainMembers(e, s.allOf[i], bound);
    }
  }

  // ---- members that are nowhere nullable stay so ----

  lemma {:induction false} MergeNeverNullable(a: Schema, b: Schema)
    requires NeverNullable(a) && NeverNullable(b) && Merge(a, b).Some?
    ensures NeverNullable(Merge(a, b).value)
    decreases a
  {
    FieldsOfMerge(a, b);
    var m := Merge(a, b).value;
    forall k | k in m.props ensures NeverNullable(m.props[k]) {
      if k in a.props && k in b.props {
        MergeNeverNullable(a.props[k], b.props[k]);
      }
    }
    if a.items.Some? && b.items.Some? {
      MergeNeverNullable(a.items.value, b.items.value);
    }
    if a.additional.Some? && b.additional.Some? {
      MergeNeverNullable(a.additional.value, b.additional.value);
    }
  }

  lemma {:induction false} AbsorbAllNeverNullable(acc: Schema, members: seq<Schema>)
    requires acc.Inline? && NeverNullable(acc) && AllInline(members) && AbsorbAll(acc, AllOf, members, []).Some?
    requires forall i :: 0 <= i < |members| ==> NeverNullable(members[i])
    ensures NeverNullable(AbsorbAll(acc, AllOf, members, []).value)
    decreases members
  {
    if members != [] {
      var into, bare := Record(acc, AllOf, Discriminator(AllOf, members[0], [])), members[0].(required := []);
      MergeNeverNullable(into, bare);
      AbsorbAllNeverNullable(Absorb(acc, AllOf, members[0], []).value, members[1..]);
    }
  }

  lemma {:induction false} ResolveNeverNullable(e: Env, s: Schema, visited: set<string>, bound: nat)
    requires Fit(e, s, visited, bound) && Plain(e, s, bound) && Resolve(e.comps, s, visited).Some?
    ensures NeverNullable(Resolve(e.comps, s, visited).value)
    decreases bound, s, 2, 0
  {
    match s
    case Ref(ref, _) =>
      var name := RefName(ref);
      ResolveNeverNullable(e, e.comps[name], visited + {name}, e.rank[name]);
    case Inline(_, _, _, _, _, _, _, _, _, _, _, _, _) =>
      var members := AllOfMembers(e.comps, s, visited);
      OwnNeverNullable(e, s, visited, bound);
      PlainMembersNeverNullable(e, s, 0, visited, bound);
      AbsorbAllNeverNullable(ResolveOwn(e.comps, s, visited).value, members);
  }

  lemma {:induction false} OwnNeverNullable(e: Env, s: Schema, visited: set<string>, bound: nat)
    requires Fit(e, s, visited, bound) && Plain(e, s, bound) && s.Inline? && ResolveOwn(e.comps, s, visited).Some?
    ensures NeverNullable(ResolveOwn(e.comps, s, visited).value)
    decreases bound, s, 1, 0
  {
    var own := ResolveOwn(e.comps, s, visited).value;
    forall k | k in own.props ensures NeverNullable(own.props[k]) {
      ResolveNeverNullable(e, s.props[k], visited, bound);
    }
    if s.items.Some? {
      ResolveNeverNullable(e, s.items.value, visited, bound);
    }
    if s.additional.Some? {
      ResolveNeverNullable(e, s.additional.value, visited, bound);
    }
  }

  lemma {:induction false} PlainMembersNeverNullable(e: Env, s: Schema, i: nat, visited: set<string>, bound: nat)
    requires Fit(e, s, visited, bound) && s.Inline? && i <= |s.allOf| && ResolveAll(e.comps, s, AllOf, i, visited).Some?
    requires forall j :: 0 <= j < |s.allOf| ==> Plain(e, s.allOf[j], bound)
    ensures forall j :: 0 <= j < |s.allOf| - i ==> NeverNullable(ResolveAll(e.comps, s, AllOf, i, visited).value[j])
    decreases bound, s, 1, |s.allOf| - i
  {
    if i < |s.allOf| {
      MemberFit(e, s, i, visited, bound);
      ResolveNeverNullable(e, s.allOf[i], visited, bound);
      PlainMembersNeverNullable(e, s, i + 1, visited, bound);
    }
  }

  lemma MembersNeverNullable(e: Env, s: Schema, i: nat, visited: set<string>, bound: nat)
    requires Fit(e, s, visited, bound) && !e.lenient && s.Inline? && i <= |s.allOf|
    requires ResolveAll(e.comps, s, AllOf, i, visited).Some?
    ensures forall j :: 0 <= j < |s.allOf| - i ==> NeverNullable(ResolveAll(e.comps, s, AllOf, i, visited).value[j])
  {
    PlainMembersNeverNullable(e, s, i, visited, bound);
  }

  // ---- exactly, whatever is nullable ----

  /** Waving nulls through loses no value. */
  lemma {:induction false} Loosen(e: Env, s: Schema, v: Value, bound: nat)
    requires !e.lenient && Accepts(e, s, v, bound)
    ensures Accepts(Lenient(e), s, v, bound)
    decreases bound, s, 1
  {
    if s.Ref? {
      Loosen(e, e.comps[RefName(s.ref)], v, e.rank[RefName(s.ref)]);
    } else {
      if v.Obj? {
        LoosenFields(e, s, v.fields, bound);
      }
      if v.Arr? {
        LoosenElements(e, s, v.elems, bound);
      }
      LoosenCombinators(e, s, v, bound);
    }
  }

  lemma {:induction false} LoosenFields(e: Env, s: Schema, fields: map<string, Value>, bound: nat)
    requires !e.lenient && s.Inline? && FieldsFit(e, s, fields, bound)
    ensures FieldsFit(Lenient(e), s, fields, bound)
    decreases bound, s, 0
  {
    forall k | k in fields && k in s.props ensures Accepts(Lenient(e), s.props[k], fields[k], bound) {
      Loosen(e, s.props[k], fields[k], bound);
    }
    forall k | k in fields && k !in s.props && s.additional.Some? ensures Accepts(Lenient(e), s.additional.value, fields[k], bound) {
      Loosen(e, s.additional.value, fields[k], bound);
    }
  }

  lemma {:induction false} LoosenElements(e: Env, s: Schema, elems: seq<Value>, bound: nat)
    requires !e.lenient && s.Inline? && ElementsFit(e, s, elems, bound)
    ensures ElementsFit(Lenient(e), s, elems, bound)
    decreases bound, s, 0
  {
    if s.items.Some? {
      forall i | 0 <= i < |elems| ensures Accepts(Lenient(e), s.items.value, elems[i], bound) {
        Loosen(e, s.items.value, elems[i], bound);
      }
    }
  }

  lemma {:induction false} LoosenCombinators(e: Env, s: Schema, v: Value, bound: nat)
    requires !e.lenient && s.Inline? && CombinatorsHold(e, s, v, bound)
    ensures CombinatorsHold(Lenient(e), s, v, bound)
    decreases bound, s, 0
  {
    assert Strict(Lenient(e)) == Strict(e);
    forall i | 0 <= i < |s.allOf| ensures Accepts(Lenient(e), s.allOf[i], v, bound) {
      Loosen(e, s.allOf[i], v, bound);
    }
  }

  /** A structural schema that takes a value with its nulls waved through takes it strictly if they are in order. */
  lemma {:induction false} Tighten(e: Env, r: Schema, v: Value)
    requires !e.lenient && Structural(r) && Sat(Lenient(e), r, v) && NullsFit(r, v)
    ensures Sat(e, r, v)
    decreases r, 1
  {
    if v.Obj? {
      TightenFields(e, r, v.fields);
    }
    if v.Arr? {
      TightenElements(e, r, v.elems);
    }
    TightenCombinators(e, r, v);
  }

  lemma {:induction false} TightenFields(e: Env, r: Schema, fields: map<string, Value>)
    requires !e.lenient && Structural(r) && FieldsFit(Lenient(e), r, fields, 0) && NullsFit(r, Obj(fields))
    ensures FieldsFit(e, r, fields, 0)
    decreases r, 0
  {
    forall k | k in fields && k in r.props ensures Accepts(e, r.props[k], fields[k], 0) {
      Tighten(e, r.props[k], fields[k]);
    }
    forall k | k in fields && k !in r.props && r.additional.Some? ensures Accepts(e, r.additional.value, fields[k], 0) {
      Tighten(e, r.additional.value, fields[k]);
    }
  }

  lemma {:induction false} TightenElements(e: Env, r: Schema, elems: seq<Value>)
    requires !e.lenient && Structural(r) && ElementsFit(Lenient(e), r, elems, 0) && NullsFit(r, Arr(elems))
    ensures ElementsFit(e, r, elems, 0)
    decreases r, 0
  {
    if r.items.Some? {
      forall i | 0 <= i < |elems| ensures Accepts(e, r.items.value, elems[i], 0) {
        Tighten(e, r.items.value, elems[i]);
      }
    }
  }

  lemma TightenCombinators(e: Env, r: Schema, v: Value)
    requires !e.lenient && Structural(r) && CombinatorsHold(Lenient(e), r, v, 0)
    ensures CombinatorsHold(e, r, v, 0)
  {
    assert Strict(Lenient(e)) == Strict(e);
    forall i | 0 <= i < |r.allOf| ensures Accepts(e, r.allOf[i], v, 0) {
      TightenEntry(e, r.allOf[i], v);
    }
  }

  /** An entry that only requires names has no type to be lenient about. */
  lemma TightenEntry(e: Env, s: Schema, v: Value)
    requires OnlyRequires(s) && Sat(Lenient(e), s, v)
    ensures Sat(e, s, v)
  {
    assert CombinatorsHold(e, s, v, 0);
    if v.Obj? {
      assert FieldsFit(Lenient(e), s, v.fields, 0);
      assert FieldsFit(e, s, v.fields, 0);
    }
  }

  /**
    Main theorem, exact. On acyclic components without oneOf and anyOf, a value the source
    schema accepts is accepted by the resolved schema if and only if each of its nulls passes
    the source's parts in charge of it: the first is nullable, none is typed, or one lists null.
   */
  lemma {:induction false} ResolveKeepsIff(e: Env, s: Schema, visited: set<string>, v: Value, bound: nat, r: Schema)
    requires !e.lenient && Acyclic(e) && AllUnionFree(e) && Below(e.rank, s, bound) && NoUnions(s) && Above(e, visited, bound)
    requires Resolve(e.comps, s, visited) == Some(r) && Accepts(e, s, v, bound)
    ensures Sat(e, r, v) <==> NullsPass(e.comps, PartsOf(e.comps, s, visited), v)
  {
    ResolveComposed(e.comps, s, visited);
    NullsPassIff(e.comps, r, PartsOf(e.comps, s, visited), v);
    if Sat(e, r, v) {
      SatFitsNulls(e, r, v);
    }
    if NullsFit(r, v) {
      Loosen(e, s, v, bound);
      assert Fit(Lenient(e), s, visited, bound);
      ResolveSound(Lenient(e), s, visited, v, bound, r);
      ResolveStructural(e.comps, s, visited);
      Tighten(e, r, v);
    }
  }

  /** The theorems as the compiler uses them: a named component, nothing visited yet. */
  lemma {:induction false} ComponentSound(e: Env, name: string, v: Value, r: Schema)
    requires !e.lenient && Acyclic(e) && AllUnionFree(e) && name in e.comps
    requires Resolve(e.comps, e.comps[name], {}) == Some(r) && Accepts(e, e.comps[name], v, e.rank[name])
    ensures Sat(e, r, v) <==> NullsPass(e.comps, PartsOf(e.comps, e.comps[name], {}), v)
    ensures AllCareful(e) ==> Sat(e, r, v)
  {
    ResolveKeepsIff(e, e.comps[name], {}, v, e.rank[name], r);
    if AllCareful(e) {
      ResolveSound(e, e.comps[name], {}, v, e.rank[name], r);
    }
  }

  /** A nullable allOf member: the source takes null and what is compiled does not. */
  lemma NullableMemberLost(e: Env)
    requires !e.lenient && Acyclic(e)
    ensures var member := BLANK.(types := Some(["string"]), nullable := true);
      var s := BLANK.(allOf := [member]);
      Accepts(e, s, Null, 0) && exists r :: Resolve(e.comps, s, {}) == Some(r) && !Sat(e, r, Null)
  {
    var member := BLANK.(types := Some(["string"]), nullable := true);
    var s := BLANK.(allOf := [member]);
    assert CombinatorsHold(e, member, Null, 0) && Accepts(e, member, Null, 0);
    assert CombinatorsHold(e, s, Null, 0);
    var r := OneMember(e.comps, member);
    assert r.types == Some(["string"]) && "null" !in ["string"];
  }

  lemma OneMember(c: Components, member: Schema) returns (r: Schema)
    requires member == BLANK.(types := Some(["string"]), nullable := true)
    ensures Resolve(c, BLANK.(allOf := [member]), {}) == Some(r) && r.Inline? && r.types == Some(["string"]) && !r.nullable
  {
    var s := BLANK.(allOf := [member]);
    assert ResolveProps(c, s, {}) == Some(map[]);
    BareResolves(c, member);
    OneMemberResolves(c, s, BLANK, member);
    var into, bare := Record(BLANK, AllOf, Discriminator(AllOf, member, [])), member.(required := []);
    MergeSucceedsIff(into, bare);
    FieldsOfMerge(into, bare);
    r := Merge(into, bare).value;
  }

  // ---- a shared reference is not a cycle ----

  /** On acyclic components the result does not depend on what was visited before: referencing twice is not recursing. */
  lemma {:induction false} VisitedIrrelevant(e: Env, s: Schema, v1: set<string>, v2: set<string>, bound: nat)
    requires Acyclic(e) && Below(e.rank, s, bound) && Above(e, v1, bound) && Above(e, v2, bound)
    ensures Resolve(e.comps, s, v1) == Resolve(e.comps, s, v2)
    decreases bound, s, 3, 0
  {
    match s
    case Ref(ref, _) =>
      var name := RefName(ref);
      if name in e.comps {
        VisitedIrrelevant(e, e.comps[name], v1 + {name}, v2 + {name}, e.rank[name]);
      }
    case Inline(_, _, _, _, _, _, _, _, _, _, _, _, _) =>
      OwnVisitedIrrelevant(e, s, v1, v2, bound);
      var start := ResolveOwn(e.comps, s, v1);
      if start.Some? {
        forall kind: Combinator ensures ResolveAll(e.comps, s, kind, 0, v1) == ResolveAll(e.comps, s, kind, 0, v2) {
          MembersVisitedIrrelevant(e, s, v1, v2, kind, 0, bound);
        }
        SameMembersSameResult(e.comps, s, v1, v2, start.value);
      }
  }

  lemma {:induction false} OwnVisitedIrrelevant(e: Env, s: Schema, v1: set<string>, v2: set<string>, bound: nat)
    requires Acyclic(e) && Below(e.rank, s, bound) && Above(e, v1, bound) && Above(e, v2, bound) && s.Inline?
    ensures ResolveOwn(e.comps, s, v1) == ResolveOwn(e.comps, s, v2)
    decreases bound, s, 2, 0
  {
    if s.additional.Some? {
      VisitedIrrelevant(e, s.additional.value, v1, v2, bound);
    }
    if s.items.Some? {
      VisitedIrrelevant(e, s.items.value, v1, v2, bound);
    }
    PropsVisitedIrrelevant(e, s, v1, v2, bound);
  }

  lemma {:induction false} PropsVisitedIrrelevant(e: Env, s: Schema, v1: set<string>, v2: set<string>, bound: nat)
    requires Acyclic(e) && Below(e.rank, s, bound) && Above(e, v1, bound) && Above(e, v2, bound) && s.Inline?
    ensures ResolveProps(e.comps, s, v1) == ResolveProps(e.comps, s, v2)
    decreases bound, s, 1, 0
  {
    forall k | k in s.props ensures Resolve(e.comps, s.props[k], v1) == Resolve(e.comps, s.props[k], v2) {
      VisitedIrrelevant(e, s.props[k], v1, v2, bound);
    }
    SamePropsSameMap(e.comps, s, v1, v2);
  }

  lemma SamePropsSameMap(c: Components, s: Schema, v1: set<string>, v2: set<string>)
    requires s.Inline? && forall k :: k in s.props ==> Resolve(c, s.props[k], v1) == Resolve(c, s.props[k], v2)
    ensures ResolveProps(c, s, v1) == ResolveProps(c, s, v2)
  {
    var r1, r2 := ResolveProps(c, s, v1), ResolveProps(c, s, v2);
    assert r1.Some? && r2.Some? ==> r1.value == r2.value;
  }

  lemma SameMembersSameResult(c: Components, s: Schema, v1: set<string>, v2: set<string>, own: Schema)
    requires s.Inline? && own.Inline?
    requires forall kind: Combinator :: ResolveAll(c, s, kind, 0, v1) == ResolveAll(c, s, kind, 0, v2)
    ensures Flatten(c, s, v1, own) == Flatten(c, s, v2, own)
  {
    LoopSame(c, s, AllOf, [], v1, v2, own);
    var acc := Loop(c, s, AllOf, [], v1, own);
    if acc.Some? {
      LoopSame(c, s, AnyOf, [], v1, v2, acc.value);
      var names := AllRequired(s.oneOf);
      if names.Some? {
        LoopSame(c, s, OneOf, names.value, v1, v2, acc.value);
        var next := Loop(c, s, OneOf, names.value, v1, acc.value);
        if next.Some? {
          LoopSame(c, s, AnyOf, [], v1, v2, next.value);
        }
      }
    }
  }

  lemma LoopSame(c: Components, s: Schema, kind: Combinator, all: seq<string>, v1: set<string>, v2: set<string>, acc: Schema)
    requires s.Inline? && acc.Inline? && ResolveAll(c, s, kind, 0, v1) == ResolveAll(c, s, kind, 0, v2)
    ensures Loop(c, s, kind, all, v1, acc) == Loop(c, s, kind, all, v2, acc)
  {
  }

  lemma {:induction false} MembersVisitedIrrelevant(e: Env, s: Schema, v1: set<string>, v2: set<string>,
                                                    kind: Combinator, i: nat, bound: nat)
    requires Acyclic(e) && Below(e.rank, s, bound) && Above(e, v1, bound) && Above(e, v2, bound)
    requires s.Inline? && i <= |Members(s, kind)|
    ensures ResolveAll(e.comps, s, kind, i, v1) == ResolveAll(e.comps, s, kind, i, v2)
    decreases bound, s, 1, |Members(s, kind)| - i
  {
    if i < |Members(s, kind)| {
      VisitedIrrelevant(e, Members(s, kind)[i], v1, v2, bound);
      MembersVisitedIrrelevant(e, s, v1, v2, kind, i + 1, bound);
      SameHeadSameMembers(e.comps, s, v1, v2, kind, i);
    } else {
      assert ResolveAll(e.comps, s, kind, i, v1) == Some([]) == ResolveAll(e.comps, s, kind, i, v2);
    }
  }

  lemma SameHeadSameMembers(c: Components, s: Schema, v1: set<string>, v2: set<string>, kind: Combinator, i: nat)
    requires s.Inline? && i < |Members(s, kind)|
    requires Resolve(c, Members(s, kind)[i], v1) == Resolve(c, Members(s, kind)[i], v2)
    requires ResolveAll(c, s, kind, i + 1, v1) == ResolveAll(c, s, kind, i + 1, v2)
    ensures ResolveAll(c, s, kind, i, v1) == ResolveAll(c, s, kind, i, v2)
  {
  }
}
