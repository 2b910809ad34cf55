/** resolveSchema: references inlined, cycles cut, allOf/oneOf/anyOf flattened into one structural schema. */
module Resolving {
  import opened Common
  import opened Schemas
  import opened Merging

  /** What a reference already being resolved becomes. */
  const PLACEHOLDER := BLANK.(types := Some(["object"]), ext := map[PRESERVE := Flag(true)])

  datatype Combinator = AllOf | OneOf | AnyOf

  function Members(s: Schema, kind: Combinator): seq<Schema>
    requires s.Inline?
  {
    match kind
    case AllOf => s.allOf
    case OneOf => s.oneOf
    case AnyOf => s.anyOf
  }

  /** The required list read off a oneOf member before it is resolved; None is the nil dereference of an unloaded reference. */
  function RequiredOf(s: Schema): Option<seq<string>> {
    match s
    case Ref(_, attached) => attached
    case Inline(_, _, required, _, _, _, _, _, _, _, _, _, _) => Some(required)
  }

  function AllRequired(members: seq<Schema>): Option<seq<string>> {
    if members == [] then Some([])
    else match (RequiredOf(members[0]), AllRequired(members[1..]))
         case (Some(r), Some(rest)) => Some(r + rest)
         case _ => None
  }

  /** `not: {anyOf: [{required: [v]}, ...]}` over the discriminating names the member does not define. */
  function NotRequired(all: seq<string>, props: map<string, Schema>): seq<Schema> {
    if all == [] then []
    else (if all[0] in props then [] else [BLANK.(required := [all[0]])]) + NotRequired(all[1..], props)
  }

  /** What a resolved member leaves behind in its own combinator list: only its required names. */
  function Discriminator(kind: Combinator, member: Schema, all: seq<string>): Schema
    requires member.Inline?
  {
    var bare := BLANK.(required := member.required);
    if kind == OneOf && NotRequired(all, member.props) != [] then
      bare.(negated := Some(BLANK.(anyOf := NotRequired(all, member.props))))
    else bare
  }

  function Record(acc: Schema, kind: Combinator, entry: Schema): Schema
    requires acc.Inline?
  {
    match kind
    case AllOf => acc.(allOf := acc.allOf + [entry])
    case OneOf => acc.(oneOf := acc.oneOf + [entry])
    case AnyOf => acc.(anyOf := acc.anyOf + [entry])
  }

  /** One resolved member: its required names are recorded, the rest of it is merged in. */
  function Absorb(acc: Schema, kind: Combinator, member: Schema, all: seq<string>): (r: Option<Schema>)
    requires acc.Inline? && member.Inline?
    ensures r.Some? ==> r.value.Inline?
  {
    Merge(Record(acc, kind, Discriminator(kind, member, all)), member.(required := []))
  }

  /**
    additionalProperties for CRDs, given its resolved sub-schema: a property-less
    object (or untyped) schema, or plain `true`, becomes the preserve extension,
    and plain `false` disappears. The source then drops `false` beside properties,
    but tests the result's own properties before they are filled in, so it never does.
   */
  function Additional(s: Schema, resolved: Option<Schema>): (Option<bool>, Option<Schema>, map<string, Extension>)
    requires s.Inline? && (resolved.Some? <==> s.additional.Some?) && (resolved.Some? ==> resolved.value.Inline?)
  {
    match resolved
    case Some(r) =>
      if Unconstrained(r) then (None, None, map[PRESERVE := Flag(true)])
      else (s.has, resolved, map[])
    case None =>
      if s.has == Some(true) then (None, None, map[PRESERVE := Flag(true)]) else (None, None, map[])
  }

  /**
    The resolved schema, or None where the source returns an error (or dereferences
    nil). Terminates on every component map, cyclic or not: each step leaves fewer
    names unvisited or a smaller schema.
   */
  function Resolve(c: Components, s: Schema, visited: set<string>): (r: Option<Schema>)
    ensures r.Some? ==> r.value.Inline?
    decreases c.Keys - visited, s, 4, 0
  {
    match s
    case Ref(ref, _) =>
      var name := RefName(ref);
      if name in visited then Some(PLACEHOLDER)
      else if name !in c then None
      else Resolve(c, c[name], visited + {name})
    case Inline(_, _, _, _, _, _, _, _, _, _, _, _, _) =>
      var start := ResolveOwn(c, s, visited);
      if start.None? then None else Flatten(c, s, visited, start.value)
  }

  /** The schema's own keywords, with its sub-schemas resolved and its combinator lists still empty. */
  function ResolveOwn(c: Components, s: Schema, visited: set<string>): (r: Option<Schema>)
    requires s.Inline?
    ensures r.Some? ==> r.value.Inline?
    ensures r.Some? ==> r.value.allOf == [] && r.value.oneOf == [] && r.value.anyOf == [] && r.value.negated.None?
    decreases c.Keys - visited, s, 1, 0
  {
    var additional := match s.additional case None => None case Some(x) => Resolve(c, x, visited);
    var items := match s.items case None => None case Some(x) => Resolve(c, x, visited);
    var props := ResolveProps(c, s, visited);
    if (s.additional.Some? && additional.None?) || (s.items.Some? && items.None?) || props.None? then None
    else
      var (has, extra, ext) := Additional(s, additional);
      Some(Inline(s.types, props.value, s.required, s.nullable, items, has, extra, ext, [], [], [], None, s.rest))
  }

  function ResolveProps(c: Components, s: Schema, visited: set<string>): (r: Option<map<string, Schema>>)
    requires s.Inline?
    ensures r.Some? ==> r.value.Keys == s.props.Keys
    ensures r.Some? ==> forall k :: k in s.props ==>
      Resolve(c, s.props[k], visited).Some? && r.value[k] == Resolve(c, s.props[k], visited).value
    ensures r.None? ==> exists k :: k in s.props && Resolve(c, s.props[k], visited).None?
    decreases c.Keys - visited, s, 0, 0
  {
    if exists k :: k in s.props && Resolve(c, s.props[k], visited).None? then None
    else Some(map k | k in s.props :: Resolve(c, s.props[k], visited).value)
  }

  /** The members of one combinator list, resolved. */
  function ResolveAll(c: Components, s: Schema, kind: Combinator, i: nat, visited: set<string>): (r: Option<seq<Schema>>)
    requires s.Inline? && i <= |Members(s, kind)|
    ensures r.Some? ==> |r.value| == |Members(s, kind)| - i && AllInline(r.value)
    decreases c.Keys - visited, s, 1, |Members(s, kind)| - i
  {
    if i == |Members(s, kind)| then Some([])
    else match (Resolve(c, Members(s, kind)[i], visited), ResolveAll(c, s, kind, i + 1, visited))
         case (Some(m), Some(ms)) => Some([m] + ms)
         case _ => None
  }

  /** One combinator loop over its resolved members. The source resolves and absorbs in turn; either failing fails the whole. */
  function AbsorbAll(acc: Schema, kind: Combinator, members: seq<Schema>, all: seq<string>): (r: Option<Schema>)
    requires acc.Inline? && AllInline(members)
    ensures r.Some? ==> r.value.Inline?
    decreases members
  {
    if members == [] then Some(acc)
    else match Absorb(acc, kind, members[0], all)
         case None => None
         case Some(merged) => AbsorbAll(merged, kind, members[1..], all)
  }

  predicate AllInline(members: seq<Schema>) {
    forall i :: 0 <= i < |members| ==> members[i].Inline?
  }

  function Loop(c: Components, s: Schema, kind: Combinator, all: seq<string>, visited: set<string>, acc: Schema): (r: Option<Schema>)
    requires s.Inline? && acc.Inline?
    ensures r.Some? ==> r.value.Inline?
    decreases c.Keys - visited, s, 2, 0
  {
    match ResolveAll(c, s, kind, 0, visited)
    case None => None
    case Some(members) => AbsorbAll(acc, kind, members, all)
  }

  /** The three loops in order; an undiscriminated oneOf falls back to a schemaless result and skips anyOf. */
  function Flatten(c: Components, s: Schema, visited: set<string>, own: Schema): (r: Option<Schema>)
    requires s.Inline? && own.Inline?
    ensures r.Some? ==> r.value.Inline?
    decreases c.Keys - visited, s, 3, 0
  {
    match Loop(c, s, AllOf, [], visited, own)
    case None => None
    case Some(acc) =>
      if s.oneOf == [] then Loop(c, s, AnyOf, [], visited, acc)
      else match AllRequired(s.oneOf)
           case None => None
           case Some(names) =>
             if names == [] then Some(acc.(oneOf := [], types := None, ext := acc.ext[PRESERVE := Flag(true)]))
             else match Loop(c, s, OneOf, names, visited, acc)
                  case None => None
                  case Some(next) => Loop(c, s, AnyOf, [], visited, next)
  }

  /** A schema without the properties Kubernetes supplies itself. */
  function Strip(s: Schema): Schema {
    if s.Ref? then s else s.(props := s.props - {"metadata", "kind", "apiVersion"})
  }

  /**
    The component whose value a named one carries: itself, or where its chain of loaded
    references ends, since loading makes a reference share its target's value. None is a
    value never filled in.
   */
  function Carrier(c: Components, name: string, seen: set<string>): (r: Option<string>)
    ensures r.Some? ==> r.value in c && c[r.value].Inline?
    decreases c.Keys - seen
  {
    if name !in c || name in seen then None
    else match c[name]
         case Ref(ref, attached) => if attached.None? then None else Carrier(c, RefName(ref), seen + {name})
         case _ => Some(name)
  }

  /** The components after the deletions, which are made in the value itself and so seen by every reference to it. */
  function Stripped(c: Components, name: string): Components {
    var at := Carrier(c, name, {});
    if at.None? then c else c[at.value := Strip(c[at.value])]
  }

  /** GetCRDOpenAPISchema. */
  function CRDSchema(c: Components, name: string): Option<Schema> {
    if name !in c then None else Resolve(Stripped(c, name), Stripped(c, name)[name], {})
  }

  lemma {:induction false} CarrierKept(c: Components, name: string, seen: set<string>, at: string, s: Schema)
    requires at in c && c[at].Inline? && s.Inline?
    ensures Carrier(c[at := s], name, seen) == Carrier(c, name, seen)
    decreases c.Keys - seen
  {
    assert c[at := s].Keys == c.Keys;
    if name in c && name !in seen && c[name].Ref? && c[name].attached.Some? {
      CarrierKept(c, RefName(c[name].ref), seen + {name}, at, s);
    }
  }

  /** additionalProperties that end up as the preserve extension: a property-less object or untyped schema. */
  predicate Unconstrained(r: Schema)
    requires r.Inline?
  {
    |r.props| == 0 && (r.types == Some(["object"]) || r.types.None?)
  }

  lemma {:induction false} WithoutCombinators(c: Components, s: Schema)
    requires s.Inline? && s.allOf == s.oneOf == s.anyOf == []
    ensures Resolve(c, s, {}) == ResolveOwn(c, s, {})
  {
    var own := ResolveOwn(c, s, {});
    if own.Some? {
      NothingToLoop(c, s, AllOf, {}, own.value);
      NothingToLoop(c, s, AnyOf, {}, own.value);
    }
  }

  /** A schema with nothing in it to resolve comes out as it is. */
  lemma BareResolves(c: Components, s: Schema)
    requires s.Inline? && s == BLANK.(types := s.types, nullable := s.nullable)
    ensures Resolve(c, s, {}) == Some(s)
  {
    assert ResolveProps(c, s, {}) == Some(map[]);
    assert ResolveOwn(c, s, {}) == Some(s);
    WithoutCombinators(c, s);
  }

  /** A schema with one allOf member and no other combinator. */
  lemma OneMemberResolves(c: Components, s: Schema, own: Schema, member: Schema)
    requires s.Inline? && |s.allOf| == 1 && s.oneOf == s.anyOf == []
    requires ResolveOwn(c, s, {}) == Some(own) && Resolve(c, s.allOf[0], {}) == Some(member)
    ensures Resolve(c, s, {}) == Absorb(own, AllOf, member, [])
  {
    assert ResolveAll(c, s, AllOf, 1, {}) == Some([]);
    assert ResolveAll(c, s, AllOf, 0, {}) == Some([member]) by {
      assert [member] + [] == [member];
    }
    assert [member][1..] == [];
    var r := Absorb(own, AllOf, member, []);
    assert AbsorbAll(own, AllOf, [member], []) == r;
    assert Loop(c, s, AllOf, [], {}, own) == r;
    assert Resolve(c, s, {}) == Flatten(c, s, {}, own);
    if r.Some? {
      NothingToLoop(c, s, AnyOf, {}, r.value);
    }
  }

  lemma BlankProps(c: Components, s: Schema)
    requires s.Inline? && forall k :: k in s.props ==> s.props[k] == BLANK
    ensures ResolveProps(c, s, {}) == Some(s.props)
  {
    BareResolves(c, BLANK);
    assert ResolveProps(c, s, {}).Some?;
    assert ResolveProps(c, s, {}).value == s.props;
  }

  lemma NothingToLoop(c: Components, s: Schema, kind: Combinator, visited: set<string>, acc: Schema)
    requires s.Inline? && acc.Inline? && Members(s, kind) == []
    ensures Loop(c, s, kind, [], visited, acc) == Some(acc)
  {
    assert ResolveAll(c, s, kind, 0, visited) == Some([]);
  }
}
