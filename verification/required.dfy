/** Which properties a resolved schema demands of an object: what is left of required lists and of combinators. */
module RequiredNames {
  import opened Common
  import opened Schemas
  import opened Merging
  import opened Resolving
  import opened Parts

  // ---- what a combinator entry says ----

  predicate HasAll(names: seq<string>, keys: set<string>) {
    forall n :: n in names ==> n in keys
  }

  predicate HasNone(names: seq<string>, keys: set<string>) {
    forall n :: n in names ==> n !in keys
  }

  /** An entry that only requires names. */
  lemma {:induction false} RequiresMeans(e: Env, names: seq<string>, fields: map<string, Value>)
    requires e.meets(NO_KEYWORDS, Obj(fields))
    ensures Accepts(e, BLANK.(required := names), Obj(fields), 0) <==> HasAll(names, fields.Keys)
  {
    var s := BLANK.(required := names);
    assert CombinatorsHold(e, s, Obj(fields), 0);
    assert FieldsFit(e, s, fields, 0) <==> HasAll(names, fields.Keys);
  }

  lemma {:induction false} RequireEachHas(names: seq<string>)
    ensures |RequireEach(names)| == |names|
    ensures forall i :: 0 <= i < |names| ==> RequireEach(names)[i] == BLANK.(required := [names[i]])
  {
    if names != [] {
      RequireEachHas(names[1..]);
    }
  }

  /** `anyOf` over single names: one of them is there. */
  lemma {:induction false} AnyOfNames(e: Env, names: seq<string>, fields: map<string, Value>)
    requires e.meets(NO_KEYWORDS, Obj(fields)) && Strict(e).meets(NO_KEYWORDS, Obj(fields)) && names != []
    ensures Accepts(e, BLANK.(anyOf := RequireEach(names)), Obj(fields), 0) <==> !HasNone(names, fields.Keys)
  {
    var s := BLANK.(anyOf := RequireEach(names));
    RequireEachHas(names);
    forall i | 0 <= i < |names| ensures Accepts(Strict(e), s.anyOf[i], Obj(fields), 0) <==> names[i] in fields {
      RequiresMeans(Strict(e), [names[i]], fields);
      assert names[i] in [names[i]];
    }
    assert FieldsFit(e, s, fields, 0);
    assert CombinatorsHold(e, s, Obj(fields), 0) <==> exists i :: 0 <= i < |s.anyOf| && Accepts(Strict(e), s.anyOf[i], Obj(fields), 0);
  }

  /** An entry: the member's names are there, and its excluded ones are not. */
  lemma {:induction false} EntryMeans(e: Env, names: seq<string>, excluded: seq<string>, fields: map<string, Value>)
    requires e.meets(NO_KEYWORDS, Obj(fields))
    ensures var entry := BLANK.(required := names, negated := if excluded == [] then None else Some(BLANK.(anyOf := RequireEach(excluded))));
      Accepts(e, entry, Obj(fields), 0) <==> HasAll(names, fields.Keys) && HasNone(excluded, fields.Keys)
  {
    if excluded == [] {
      RequiresMeans(e, names, fields);
    } else {
      var entry := BLANK.(required := names, negated := Some(BLANK.(anyOf := RequireEach(excluded))));
      AnyOfNames(Strict(e), excluded, fields);
      assert Strict(Strict(e)) == Strict(e);
      assert FieldsFit(e, entry, fields, 0) <==> HasAll(names, fields.Keys);
      assert CombinatorsHold(e, entry, Obj(fields), 0) <==> HasNone(excluded, fields.Keys);
    }
  }

  lemma {:induction false} LackingMeans(names: seq<string>, parts: seq<Part>)
    ensures forall n :: n in Lacking(names, parts) <==> n in names && !Defines(parts, n)
  {
    if names != [] {
      LackingMeans(names[1..], parts);
    }
  }

  /** The required list as it is written: inline, or in the value a loader hung onto the reference. */
  predicate Writes(s: Schema, name: string) {
    match s
    case Ref(_, attached) => attached.Some? && name in attached.value
    case Inline(_, _, required, _, _, _, _, _, _, _, _, _, _) => name in required
  }

  /** The discriminating names of a oneOf are exactly those its members write; an unloaded reference among them is an error. */
  lemma {:induction false} AllRequiredMeans(members: seq<Schema>)
    ensures AllRequired(members).Some? <==> forall i :: 0 <= i < |members| ==> members[i].Ref? ==> members[i].attached.Some?
    ensures AllRequired(members).Some? ==> forall n ::
      n in AllRequired(members).value <==> exists i :: 0 <= i < |members| && Writes(members[i], n)
  {
    if members != [] {
      AllRequiredMeans(members[1..]);
      var first, rest := members[0], AllRequired(members[1..]);
      if AllRequired(members).Some? {
        forall n ensures n in AllRequired(members).value <==> exists i :: 0 <= i < |members| && Writes(members[i], n) {
          if n in rest.value {
            var i :| 0 <= i < |members[1..]| && Writes(members[1..][i], n);
            assert Writes(members[i + 1], n);
          }
          if i :| 0 <= i < |members| && Writes(members[i], n) {
            assert i > 0 ==> Writes(members[1..][i - 1], n);
          }
        }
      } else if rest.None? {
        var i :| 0 <= i < |members[1..]| && members[1..][i].Ref? && members[1..][i].attached.None?;
        assert members[i + 1].Ref?;
      }
      forall i | 0 <= i < |members| && members[i].Ref? && members[i].attached.None? ensures AllRequired(members).None? {
        if i > 0 {
          assert members[1..][i - 1].Ref?;
        }
      }
    }
  }

  // ---- what is demanded of an object, read off the source ----

  /** The names a member requires itself, references followed. */
  predicate MemberNames(c: Components, member: Schema, visited: set<string>, keys: set<string>) {
    HasAll(PartsOf(c, member, visited)[0].s.required, keys)
  }

  /** A oneOf member is chosen: its names are there, and no discriminating name that it does not define. */
  ghost predicate Chosen(c: Components, p: Part, i: nat, names: seq<string>, keys: set<string>)
    requires i < |p.s.oneOf|
  {
    && MemberNames(c, p.s.oneOf[i], p.visited, keys)
    && forall n :: n in names && !Defines(PartsOf(c, p.s.oneOf[i], p.visited), n) ==> n !in keys
  }

  ghost predicate OneChosen(c: Components, p: Part, names: seq<string>, keys: set<string>) {
    exists i :: 0 <= i < |p.s.oneOf| && Chosen(c, p, i, names, keys)
      && forall j :: 0 <= j < |p.s.oneOf| && j != i ==> !Chosen(c, p, j, names, keys)
  }

  predicate AnyNames(c: Components, p: Part, keys: set<string>) {
    p.s.anyOf != [] ==> exists i :: 0 <= i < |p.s.anyOf| && MemberNames(c, p.s.anyOf[i], p.visited, keys)
  }

  /** The keys of an object have what a source schema demands: its own names, each allOf member's, one anyOf member's, and one oneOf member chosen. */
  ghost predicate NamesFit(c: Components, p: Part, keys: set<string>) {
    && HasAll(p.s.required, keys)
    && (forall i :: 0 <= i < |p.s.allOf| ==> MemberNames(c, p.s.allOf[i], p.visited, keys))
    && (p.s.oneOf == [] ==> AnyNames(c, p, keys))
    && (p.s.oneOf != [] && AllRequired(p.s.oneOf) != Some([]) ==>
          AllRequired(p.s.oneOf).Some? && OneChosen(c, p, AllRequired(p.s.oneOf).value, keys) && AnyNames(c, p, keys))
  }

  lemma {:induction false} ListMeans(e: Env, kind: Combinator, list: seq<Schema>, p: Part, names: seq<string>, fields: map<string, Value>, i: nat)
    requires e.meets(NO_KEYWORDS, Obj(fields)) && ListFits(e.comps, kind, list, p, names) && i < |list|
    ensures Accepts(e, list[i], Obj(fields), 0) <==>
      && MemberNames(e.comps, Members(p.s, kind)[i], p.visited, fields.Keys)
      && (kind == OneOf ==> forall n :: n in names && !Defines(PartsOf(e.comps, p.s.oneOf[i], p.visited), n) ==> n !in fields.Keys)
  {
    var parts := PartsOf(e.comps, Members(p.s, kind)[i], p.visited);
    assert EntryFits(e.comps, kind, list[i], Members(p.s, kind)[i], p.visited, names);
    var lacking := if kind == OneOf then Lacking(names, parts) else [];
    EntryMeans(e, parts[0].s.required, lacking, fields);
    LackingMeans(names, parts);
  }

  ghost predicate EachHolds(e: Env, list: seq<Schema>, v: Value) {
    forall i :: 0 <= i < |list| ==> Accepts(e, list[i], v, 0)
  }

  ghost predicate SomeHolds(e: Env, list: seq<Schema>, v: Value) {
    list != [] ==> exists i :: 0 <= i < |list| && Accepts(e, list[i], v, 0)
  }

  ghost predicate OneHolds(e: Env, list: seq<Schema>, v: Value) {
    list != [] ==> exists i :: 0 <= i < |list| && Accepts(e, list[i], v, 0) && (forall j :: 0 <= j < |list| && j != i ==> !Accepts(e, list[j], v, 0))
  }

  lemma {:induction false} CombinatorsAre(e: Env, r: Schema, v: Value)
    requires r.Inline? && r.negated.None?
    ensures CombinatorsHold(e, r, v, 0) <==>
            EachHolds(e, r.allOf, v) && OneHolds(Strict(e), r.oneOf, v) && SomeHolds(Strict(e), r.anyOf, v)
  {
  }

  lemma {:induction false} AllOfMeans(e: Env, list: seq<Schema>, p: Part, fields: map<string, Value>)
    requires ListFits(e.comps, AllOf, list, p, []) && e.meets(NO_KEYWORDS, Obj(fields))
    ensures EachHolds(e, list, Obj(fields)) <==>
            (forall i :: 0 <= i < |p.s.allOf| ==> MemberNames(e.comps, p.s.allOf[i], p.visited, fields.Keys))
  {
    forall i | 0 <= i < |list| ensures Accepts(e, list[i], Obj(fields), 0) <==> MemberNames(e.comps, p.s.allOf[i], p.visited, fields.Keys) {
      ListMeans(e, AllOf, list, p, [], fields, i);
    }
  }

  lemma {:induction false} AnyOfMeans(e: Env, list: seq<Schema>, p: Part, fields: map<string, Value>)
    requires ListFits(e.comps, AnyOf, list, p, []) && e.meets(NO_KEYWORDS, Obj(fields))
    ensures SomeHolds(e, list, Obj(fields)) <==> AnyNames(e.comps, p, fields.Keys)
  {
    forall i | 0 <= i < |list| ensures Accepts(e, list[i], Obj(fields), 0) <==> MemberNames(e.comps, p.s.anyOf[i], p.visited, fields.Keys) {
      ListMeans(e, AnyOf, list, p, [], fields, i);
    }
  }

  lemma {:induction false} OneOfMeans(e: Env, list: seq<Schema>, p: Part, names: seq<string>, fields: map<string, Value>)
    requires ListFits(e.comps, OneOf, list, p, names) && e.meets(NO_KEYWORDS, Obj(fields)) && list != []
    ensures OneHolds(e, list, Obj(fields)) <==> OneChosen(e.comps, p, names, fields.Keys)
  {
    forall i | 0 <= i < |list| ensures Accepts(e, list[i], Obj(fields), 0) <==> Chosen(e.comps, p, i, names, fields.Keys) {
      ListMeans(e, OneOf, list, p, names, fields, i);
    }
  }

  /** Key lemma: what the head of a resolved schema says about an object is just that. */
  lemma {:induction false} HeadMeans(e: Env, r: Schema, p: Part, fields: map<string, Value>)
    requires r.Inline? && Headed(e.comps, r, p) && e.meets(NO_KEYWORDS, Obj(fields))
    ensures HasAll(r.required, fields.Keys) && CombinatorsHold(e, r, Obj(fields), 0) <==> NamesFit(e.comps, p, fields.Keys)
  {
    CombinatorsAre(e, r, Obj(fields));
    AllOfMeans(e, r.allOf, p, fields);
    if p.s.oneOf == [] {
      AnyOfMeans(Strict(e), r.anyOf, p, fields);
    } else if AllRequired(p.s.oneOf) != Some([]) {
      OneOfMeans(Strict(e), r.oneOf, p, AllRequired(p.s.oneOf).value, fields);
      AnyOfMeans(Strict(e), r.anyOf, p, fields);
    }
  }

  /** At every depth: each object in `v` has what the parts in charge of it demand. */
  ghost predicate Complete(c: Components, parts: seq<Part>, v: Value)
    decreases v
  {
    parts != [] ==>
      match v
      case Arr(elems) => forall i :: 0 <= i < |elems| ==> Complete(c, SlotParts(c, parts, Items), elems[i])
      case Obj(fields) =>
        && NamesFit(c, parts[0], fields.Keys)
        && forall k :: k in fields ==>
             var own := SlotParts(c, parts, Prop(k));
             Complete(c, if own != [] then own else SlotParts(c, parts, Extra), fields[k])
      case _ => true
  }

  /**
    Main theorem. A resolved schema, unions included, refuses every value that lacks at any depth a name
    its source demands there: one of its own, of an allOf member, or of whichever union member is chosen.
   */
  lemma {:induction false} RefusesIncomplete(e: Env, r: Schema, parts: seq<Part>, v: Value)
    requires Composed(e.comps, r, parts) && Sat(e, r, v) && forall w :: e.meets(NO_KEYWORDS, w)
    ensures Complete(e.comps, parts, v)
    decreases v, 0
  {
    var c := e.comps;
    match v
    case Null =>
    case Scalar(_, _) =>
    case Arr(elems) =>
      assert ElementsFit(e, r, elems, 0) && SlotComposed(c, r, parts, Items);
      if r.items.Some? {
        forall i | 0 <= i < |elems| ensures Complete(c, SlotParts(c, parts, Items), elems[i]) {
          RefusesIncomplete(e, r.items.value, SlotParts(c, parts, Items), elems[i]);
        }
      }
    case Obj(fields) =>
      assert FieldsFit(e, r, fields, 0) && CombinatorsHold(e, r, v, 0);
      HeadMeans(e, r, parts[0], fields);
      forall k | k in fields
        ensures var own := SlotParts(c, parts, Prop(k));
          Complete(c, if own != [] then own else SlotParts(c, parts, Extra), fields[k])
      {
        FieldComplete(e, r, parts, fields, k);
      }
  }

  lemma {:induction false} FieldComplete(e: Env, r: Schema, parts: seq<Part>, fields: map<string, Value>, k: string)
    requires r.Inline? && Composed(e.comps, r, parts) && FieldsFit(e, r, fields, 0) && k in fields && forall w :: e.meets(NO_KEYWORDS, w)
    ensures var own := SlotParts(e.comps, parts, Prop(k));
      Complete(e.comps, if own != [] then own else SlotParts(e.comps, parts, Extra), fields[k])
    decreases fields[k], 1
  {
    assert SlotComposed(e.comps, r, parts, Prop(k)) && SlotComposed(e.comps, r, parts, Extra);
    if k in r.props {
      RefusesIncomplete(e, r.props[k], SlotParts(e.comps, parts, Prop(k)), fields[k]);
    } else if r.additional.Some? {
      RefusesIncomplete(e, r.additional.value, SlotParts(e.comps, parts, Extra), fields[k]);
    }
  }

  /** The theorem for what the resolver is called with. */
  lemma {:induction false} ResolveRefuses(e: Env, s: Schema, visited: set<string>, v: Value)
    requires Resolve(e.comps, s, visited).Some? && forall w :: e.meets(NO_KEYWORDS, w)
    ensures Sat(e, Resolve(e.comps, s, visited).value, v) ==> Complete(e.comps, PartsOf(e.comps, s, visited), v)
  {
    ResolveComposed(e.comps, s, visited);
    if Sat(e, Resolve(e.comps, s, visited).value, v) {
      RefusesIncomplete(e, Resolve(e.comps, s, visited).value, PartsOf(e.comps, s, visited), v);
    }
  }

  // ---- what is lost ----

  /** The names a member's own allOf members require are not demanded: the source refuses the empty object, the resolved schema takes it. */
  lemma {:induction false} NestedNamesLost(e: Env)
    requires forall w :: e.meets(NO_KEYWORDS, w)
    ensures var inner := BLANK.(required := ["x"]);
      var s := BLANK.(allOf := [BLANK.(allOf := [inner])]);
      !Accepts(e, s, Obj(map[]), 0) && exists r :: Resolve(e.comps, s, {}) == Some(r) && Sat(e, r, Obj(map[]))
  {
    var inner := BLANK.(required := ["x"]);
    var middle := BLANK.(allOf := [inner]);
    var s := BLANK.(allOf := [middle]);
    var v := Obj(map[]);
    RequiresMeans(e, ["x"], map[]);
    assert "x" in inner.required;
    assert !Accepts(e, middle.allOf[0], v, 0) && !CombinatorsHold(e, middle, v, 0);
    assert !Accepts(e, s.allOf[0], v, 0) && !CombinatorsHold(e, s, v, 0);
    var r := NestedResolves(e.comps);
    ResolveComposed(e.comps, s, {});
    HeadMeans(e, r, PartsOf(e.comps, s, {})[0], map[]);
    assert PartsOf(e.comps, middle, {})[0].s == middle;
    assert FieldsFit(e, r, map[], 0);
  }

  lemma {:induction false} NestedResolves(c: Components) returns (r: Schema)
    ensures Resolve(c, BLANK.(allOf := [BLANK.(allOf := [BLANK.(required := ["x"])])]), {}) == Some(r)
    ensures r.Inline? && r.types.None? && r.rest == NO_KEYWORDS && r.required == []
  {
    var inner := BLANK.(required := ["x"]);
    var middle := BLANK.(allOf := [inner]);
    var s := BLANK.(allOf := [middle]);
    BlankProps(c, inner);
    WithoutCombinators(c, inner);
    var m := NamesResolve(c, middle, inner);
    r := NamesResolve(c, s, m);
  }

  /** One member that says nothing but names, and perhaps combinators, leaves only its names. */
  lemma {:induction false} NamesResolve(c: Components, s: Schema, member: Schema) returns (r: Schema)
    requires s.Inline? && |s.allOf| == 1 && s == BLANK.(allOf := s.allOf) && Resolve(c, s.allOf[0], {}) == Some(member)
    requires member.Inline? && member == BLANK.(required := member.required, allOf := member.allOf)
    ensures Resolve(c, s, {}) == Some(r) && r.Inline? && r == BLANK.(allOf := r.allOf)
  {
    BlankProps(c, s);
    assert ResolveOwn(c, s, {}) == Some(BLANK);
    OneMemberResolves(c, s, BLANK, member);
    var into, bare := Record(BLANK, AllOf, Discriminator(AllOf, member, [])), member.(required := []);
    MergeSucceedsIff(into, bare);
    FieldsOfMerge(into, bare);
    r := Merge(into, bare).value;
    assert r.props == map[] && r.ext == map[];
  }
}
