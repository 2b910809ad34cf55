/** Where a resolved schema comes from: the source schemas that flow into it, read off the source without resolving anything. */
module Parts {
  import opened Common
  import opened Schemas
  import opened Merging
  import opened Resolving
  import opened StructuralSchemas

  type InlineSchema = s: Schema | s.Inline? witness BLANK

  /**
    A source schema merged into a result, and the names visited where it stands. Its types
    count if it is `typed`; `open` says that it takes unknown fields whatever it says itself.
   */
  datatype Part = Part(s: InlineSchema, visited: set<string>, typed: bool, open: bool)

  /** A place under a schema where another one stands. */
  datatype Slot = Items | Extra | Prop(name: string)

  /**
    The parts of a schema, in the order they are merged: references followed, a schema's own
    keywords first, then the parts of its members. (A dangling reference does not resolve.)
   */
  function PartsOf(c: Components, s: Schema, visited: set<string>): (r: seq<Part>)
    ensures r != []
    decreases c.Keys - visited, s, 1, 0
  {
    match s
    case Ref(ref, _) =>
      var name := RefName(ref);
      if name in visited || name !in c then [Part(PLACEHOLDER, visited, true, true)]
      else PartsOf(c, c[name], visited + {name})
    case Inline(_, _, _, _, _, _, _, _, _, _, _, _, _) =>
      var all := [Part(s, visited, true, false)] + MemberParts(c, s, AllOf, 0, visited);
      if s.oneOf == [] then all + MemberParts(c, s, AnyOf, 0, visited)
      else if AllRequired(s.oneOf) == Some([]) then Schemaless(all)
      else all + MemberParts(c, s, OneOf, 0, visited) + MemberParts(c, s, AnyOf, 0, visited)
  }

  function MemberParts(c: Components, s: Schema, kind: Combinator, i: nat, visited: set<string>): (r: seq<Part>)
    requires s.Inline? && i <= |Members(s, kind)|
    decreases c.Keys - visited, s, 0, |Members(s, kind)| - i
  {
    if i == |Members(s, kind)| then []
    else PartsOf(c, Members(s, kind)[i], visited) + MemberParts(c, s, kind, i + 1, visited)
  }

  /** What a oneOf without discriminating names leaves of all that came before it: no type, and anything goes. */
  function Schemaless(parts: seq<Part>): (r: seq<Part>)
    ensures |r| == |parts|
  {
    if parts == [] then [] else [parts[0].(typed := false, open := true)] + Schemaless(parts[1..])
  }

  /** The types of the parts together. */
  function TypesOf(parts: seq<Part>): Option<seq<string>>
  {
    if parts == [] then None else MergeTypes(if parts[0].typed then parts[0].s.types else None, TypesOf(parts[1..]))
  }

  /** Whether the source schema comes down to one that allows anything: additionalProperties of this kind are not kept. */
  predicate TakesAnything(c: Components, s: Schema, visited: set<string>) {
    var parts := PartsOf(c, s, visited);
    && (forall p :: p in parts ==> p.s.props == map[])
    && (TypesOf(parts).None? || TypesOf(parts) == Some(["object"]))
  }

  /** Whether a part asks for unknown fields to be kept. */
  predicate Opens(c: Components, p: Part)
  {
    p.open || if p.s.additional.Some? then TakesAnything(c, p.s.additional.value, p.visited) else p.s.has == Some(true)
  }

  /** The schema a part puts into a slot. */
  function At(c: Components, p: Part, slot: Slot): Option<Schema>
  {
    match slot
    case Items => p.s.items
    case Extra => if p.s.additional.Some? && TakesAnything(c, p.s.additional.value, p.visited) then None else p.s.additional
    case Prop(k) => if k in p.s.props then Some(p.s.props[k]) else None
  }

  /** The boolean a part keeps of its additionalProperties: one that comes with a sub-schema that is kept. */
  function HasAt(c: Components, p: Part): Option<bool>
  {
    if At(c, p, Extra).Some? then p.s.has else None
  }

  /** Together: true wins over false, and either over silence. */
  function HasOf(c: Components, parts: seq<Part>): Option<bool> {
    if parts == [] then None else MergeHas(HasAt(c, parts[0]), HasOf(c, parts[1..]))
  }

  function AnyOpens(c: Components, parts: seq<Part>): bool {
    parts != [] && (Opens(c, parts[0]) || AnyOpens(c, parts[1..]))
  }

  /** The parts of what one part puts into a slot. */
  function PartsAt(c: Components, p: Part, slot: Slot): (r: seq<Part>)
    ensures r != [] <==> At(c, p, slot).Some?
  {
    match At(c, p, slot) case None => [] case Some(x) => PartsOf(c, x, p.visited)
  }

  /** The parts of what stands in a slot. */
  function SlotParts(c: Components, parts: seq<Part>, slot: Slot): (r: seq<Part>)
    ensures r != [] <==> exists p :: p in parts && At(c, p, slot).Some?
  {
    if parts == [] then [] else PartsAt(c, parts[0], slot) + SlotParts(c, parts[1..], slot)
  }

  function Field(r: Schema, slot: Slot): Option<Schema>
    requires r.Inline?
  {
    match slot
    case Items => r.items
    case Extra => r.additional
    case Prop(k) => if k in r.props then Some(r.props[k]) else None
  }

  // ---- what the first part alone decides ----

  /** Some part has the property. */
  predicate Defines(parts: seq<Part>, name: string) {
    exists p :: p in parts && name in p.s.props
  }

  /** The names no part has as a property, in order. */
  function Lacking(names: seq<string>, parts: seq<Part>): seq<string> {
    if names == [] then [] else (if Defines(parts, names[0]) then [] else [names[0]]) + Lacking(names[1..], parts)
  }

  /** One schema for each name, saying just that it is required. */
  function RequireEach(names: seq<string>): seq<Schema> {
    if names == [] then [] else [BLANK.(required := [names[0]])] + RequireEach(names[1..])
  }

  /**
    What is left of a combinator member: the names it requires itself, and, of a oneOf member, those
    discriminating names that must not be there because nothing in it defines them.
   */
  predicate EntryFits(c: Components, kind: Combinator, entry: Schema, member: Schema, visited: set<string>, names: seq<string>) {
    var parts := PartsOf(c, member, visited);
    var lacking := if kind == OneOf then Lacking(names, parts) else [];
    entry == BLANK.(required := parts[0].s.required,
                    negated := if lacking == [] then None else Some(BLANK.(anyOf := RequireEach(lacking))))
  }

  ghost predicate ListFits(c: Components, kind: Combinator, list: seq<Schema>, p: Part, names: seq<string>) {
    && |list| == |Members(p.s, kind)|
    && forall i :: 0 <= i < |list| ==> EntryFits(c, kind, list[i], Members(p.s, kind)[i], p.visited, names)
  }

  /** The combinator entries are those of the first part's members; a oneOf without discriminating names leaves neither oneOf nor anyOf. */
  ghost predicate EntriesFit(c: Components, r: Schema, p: Part)
    requires r.Inline?
  {
    && ListFits(c, AllOf, r.allOf, p, [])
    && if p.s.oneOf == [] then r.oneOf == [] && ListFits(c, AnyOf, r.anyOf, p, [])
       else if AllRequired(p.s.oneOf) == Some([]) then r.oneOf == [] && r.anyOf == []
       else AllRequired(p.s.oneOf).Some? && ListFits(c, OneOf, r.oneOf, p, AllRequired(p.s.oneOf).value) && ListFits(c, AnyOf, r.anyOf, p, [])
  }

  ghost predicate Headed(c: Components, r: Schema, p: Part)
    requires r.Inline?
  {
    && r.nullable == p.s.nullable && r.required == p.s.required && r.rest == p.s.rest && r.negated.None?
    && EntriesFit(c, r, p)
  }

  // ---- what all parts together decide ----

  /**
    What resolving promises, field by field and at every depth: nullable, required names, other
    keywords and combinator entries are the first part's; types are the parts' types, a boolean is left and
    unknown fields are kept as the parts say, and in every slot stands what the parts put there.
   */
  ghost predicate Composed(c: Components, r: Schema, parts: seq<Part>)
    decreases r, 2
  {
    Joined(c, r, parts) && Headed(c, r, parts[0])
  }

  ghost predicate Joined(c: Components, r: Schema, parts: seq<Part>)
    decreases r, 1
  {
    && r.Inline? && parts != [] && r.types == TypesOf(parts)
    && r.has == HasOf(c, parts) && r.ext == (if AnyOpens(c, parts) then map[PRESERVE := Flag(true)] else map[])
    && forall slot: Slot :: SlotComposed(c, r, parts, slot)
  }

  ghost predicate SlotComposed(c: Components, r: Schema, parts: seq<Part>, slot: Slot)
    requires r.Inline?
    decreases r, 0
  {
    && (Field(r, slot).Some? <==> SlotParts(c, parts, slot) != [])
    && (Field(r, slot).Some? ==> Composed(c, Field(r, slot).value, SlotParts(c, parts, slot)))
  }

  // ---- merging composes ----

  lemma {:induction false} TypesAppend(a: seq<Part>, b: seq<Part>)
    ensures TypesOf(a + b) == MergeTypes(TypesOf(a), TypesOf(b))
  {
    if a == [] {
      assert a + b == b;
    } else {
      assert (a + b)[1..] == a[1..] + b;
      TypesAppend(a[1..], b);
      TypesAssociative(if a[0].typed then a[0].s.types else None, TypesOf(a[1..]), TypesOf(b));
    }
  }

  lemma Regroup<T>(a: seq<T>, b: seq<T>, c: seq<T>)
    ensures (a + b) + c == a + (b + c)
  {
  }

  lemma {:induction false} SlotAppend(c: Components, a: seq<Part>, b: seq<Part>, slot: Slot)
    ensures SlotParts(c, a + b, slot) == SlotParts(c, a, slot) + SlotParts(c, b, slot)
  {
    if a == [] {
      assert a + b == b;
    } else {
      assert (a + b)[0] == a[0] && (a + b)[1..] == a[1..] + b;
      SlotAppend(c, a[1..], b, slot);
      Regroup(PartsAt(c, a[0], slot), SlotParts(c, a[1..], slot), SlotParts(c, b, slot));
    }
  }

  lemma MergedField(a: Schema, b: Schema, m: Schema, slot: Slot)
    requires MergedFields(a, b, m)
    ensures Some(Field(m, slot)) == MergeSlot(Field(a, slot), Field(b, slot))
  {
  }

  lemma {:induction false} HasAppend(c: Components, a: seq<Part>, b: seq<Part>)
    ensures HasOf(c, a + b) == MergeHas(HasOf(c, a), HasOf(c, b))
    ensures AnyOpens(c, a + b) <==> AnyOpens(c, a) || AnyOpens(c, b)
  {
    if a == [] {
      assert a + b == b;
    } else {
      assert (a + b)[1..] == a[1..] + b;
      HasAppend(c, a[1..], b);
    }
  }

  lemma {:induction false} MergeComposed(c: Components, a: Schema, x: seq<Part>, b: Schema, y: seq<Part>)
    requires Composed(c, a, x) && Composed(c, b, y) && Merge(a, b).Some?
    ensures Composed(c, Merge(a, b).value, x + y)
    decreases a, 2
  {
    MergeJoined(c, a, x, b, y);
    HeadKept(c, a, Merge(a, b).value, x[0]);
  }

  /** What the first part decides does not depend on what merging changes. */
  lemma HeadKept(c: Components, r: Schema, t: Schema, p: Part)
    requires r.Inline? && t.Inline? && Headed(c, r, p)
    requires t == r.(types := t.types, ext := t.ext, additional := t.additional, has := t.has, props := t.props, items := t.items)
    ensures Headed(c, t, p)
  {
  }

  lemma {:induction false} MergeJoined(c: Components, a: Schema, x: seq<Part>, b: Schema, y: seq<Part>)
    requires Joined(c, a, x) && Joined(c, b, y) && Merge(a, b).Some?
    ensures Joined(c, Merge(a, b).value, x + y)
    decreases a, 1
  {
    FieldsOfMerge(a, b);
    var m := Merge(a, b).value;
    TypesAppend(x, y);
    HasAppend(c, x, y);
    MergeSlotsComposed(c, a, x, b, y, m);
  }

  lemma {:induction false} MergeSlotsComposed(c: Components, a: Schema, x: seq<Part>, b: Schema, y: seq<Part>, m: Schema)
    requires a.Inline? && b.Inline? && MergedFields(a, b, m)
    requires forall slot: Slot :: SlotComposed(c, a, x, slot) && SlotComposed(c, b, y, slot)
    ensures forall slot: Slot :: SlotComposed(c, m, x + y, slot)
    decreases a, 0
  {
    forall slot: Slot ensures SlotComposed(c, m, x + y, slot) {
      assert SlotComposed(c, a, x, slot) && SlotComposed(c, b, y, slot);
      if Field(a, slot).Some? && Field(b, slot).Some? {
        MergedField(a, b, m, slot);
        MergeComposed(c, Field(a, slot).value, SlotParts(c, x, slot), Field(b, slot).value, SlotParts(c, y, slot));
      }
      MergedSlot(c, a, x, b, y, m, slot);
    }
  }

  lemma MergedSlot(c: Components, a: Schema, x: seq<Part>, b: Schema, y: seq<Part>, m: Schema, slot: Slot)
    requires a.Inline? && b.Inline? && MergedFields(a, b, m) && SlotComposed(c, a, x, slot) && SlotComposed(c, b, y, slot)
    requires Field(a, slot).Some? && Field(b, slot).Some? ==>
      Field(m, slot).Some? && Composed(c, Field(m, slot).value, SlotParts(c, x, slot) + SlotParts(c, y, slot))
    ensures SlotComposed(c, m, x + y, slot)
  {
    SlotAppend(c, x, y, slot);
    MergedField(a, b, m, slot);
    var p, q := SlotParts(c, x, slot), SlotParts(c, y, slot);
    assert p + [] == p && [] + q == q;
  }

  // ---- resolving composes ----

  lemma NotTrueIsFalse(b: Option<bool>)
    ensures b.Some? && b != Some(true) ==> b == Some(false)
  {
    assert b.Some? ==> b == if b.value then Some(true) else Some(false);
  }

  /** Properties are left exactly if some part has one. */
  lemma PropsOfParts(c: Components, r: Schema, parts: seq<Part>)
    requires Joined(c, r, parts)
    ensures r.props != map[] <==> exists p :: p in parts && p.s.props != map[]
  {
    if r.props == map[] {
      forall p | p in parts ensures p.s.props == map[] {
        forall k ensures k !in p.s.props {
          assert SlotComposed(c, r, parts, Prop(k));
          assert At(c, p, Prop(k)).None?;
        }
      }
    } else {
      var k :| k in r.props;
      assert SlotComposed(c, r, parts, Prop(k));
      var p :| p in parts && At(c, p, Prop(k)).Some?;
      assert k in p.s.props;
    }
  }

  /** Whether the resolved schema takes anything can be read off the source. */
  lemma {:induction false} TakesAnythingIff(c: Components, s: Schema, visited: set<string>, r: Schema)
    requires Joined(c, r, PartsOf(c, s, visited))
    ensures Unconstrained(r) <==> TakesAnything(c, s, visited)
  {
    PropsOfParts(c, r, PartsOf(c, s, visited));
  }

  /** Combinator entries and required names are none of its business. */
  lemma {:induction false} BesideTheParts(c: Components, r: Schema, t: Schema, parts: seq<Part>)
    requires Joined(c, r, parts) && t.Inline?
    requires t == r.(required := t.required, allOf := t.allOf, oneOf := t.oneOf, anyOf := t.anyOf)
    ensures Joined(c, t, parts)
  {
    forall slot: Slot ensures SlotComposed(c, t, parts, slot) {
      assert SlotComposed(c, r, parts, slot);
    }
  }

  lemma {:induction false} SchemalessSlot(c: Components, parts: seq<Part>, slot: Slot)
    ensures SlotParts(c, Schemaless(parts), slot) == SlotParts(c, parts, slot)
  {
    if parts != [] {
      SchemalessSlot(c, parts[1..], slot);
      assert At(c, Schemaless(parts)[0], slot) == At(c, parts[0], slot);
    }
  }

  lemma {:induction false} SchemalessHas(c: Components, parts: seq<Part>)
    ensures HasOf(c, Schemaless(parts)) == HasOf(c, parts)
  {
    if parts != [] {
      SchemalessHas(c, parts[1..]);
      assert HasAt(c, Schemaless(parts)[0]) == HasAt(c, parts[0]);
    }
  }

  lemma {:induction false} SchemalessTypes(parts: seq<Part>)
    ensures TypesOf(Schemaless(parts)).None?
  {
    if parts != [] {
      SchemalessTypes(parts[1..]);
    }
  }

  lemma {:induction false} SchemalessJoined(c: Components, r: Schema, parts: seq<Part>, t: Schema)
    requires Joined(c, r, parts) && t == r.(oneOf := [], types := None, ext := r.ext[PRESERVE := Flag(true)])
    ensures Joined(c, t, Schemaless(parts))
  {
    var bare := Schemaless(parts);
    forall slot: Slot ensures SlotComposed(c, t, bare, slot) {
      assert SlotComposed(c, r, parts, slot);
      SchemalessSlot(c, parts, slot);
    }
    SchemalessHas(c, parts);
    SchemalessTypes(parts);
    assert Opens(c, bare[0]);
  }

  lemma {:induction false} AbsorbJoined(c: Components, acc: Schema, x: seq<Part>, kind: Combinator, member: Schema, y: seq<Part>, all: seq<string>)
    requires Joined(c, acc, x) && Joined(c, member, y) && Absorb(acc, kind, member, all).Some?
    ensures Joined(c, Absorb(acc, kind, member, all).value, x + y)
  {
    var into, bare := Record(acc, kind, Discriminator(kind, member, all)), member.(required := []);
    BesideTheParts(c, acc, into, x);
    BesideTheParts(c, member, bare, y);
    MergeJoined(c, into, x, bare, y);
  }

  /** The members from the i-th on, each composed of its parts. */
  ghost predicate AllComposed(c: Components, members: seq<Schema>, s: Schema, kind: Combinator, i: nat, visited: set<string>)
    requires s.Inline?
  {
    && i + |members| == |Members(s, kind)| && AllInline(members)
    && forall j :: 0 <= j < |members| ==> Composed(c, members[j], PartsOf(c, Members(s, kind)[i + j], visited))
  }

  lemma RestComposed(c: Components, members: seq<Schema>, s: Schema, kind: Combinator, i: nat, visited: set<string>)
    requires s.Inline? && AllComposed(c, members, s, kind, i, visited) && members != []
    ensures Composed(c, members[0], PartsOf(c, Members(s, kind)[i], visited))
    ensures AllComposed(c, members[1..], s, kind, i + 1, visited)
  {
    assert Members(s, kind)[i] == Members(s, kind)[i + 0];
    forall j | 0 <= j < |members[1..]|
      ensures Composed(c, members[1..][j], PartsOf(c, Members(s, kind)[i + 1 + j], visited))
    {
      assert Composed(c, members[j + 1], PartsOf(c, Members(s, kind)[i + (j + 1)], visited));
    }
  }

  lemma {:induction false} FirstComposed(c: Components, first: Schema, rest: seq<Schema>, s: Schema, kind: Combinator, i: nat, visited: set<string>)
    requires s.Inline? && i < |Members(s, kind)| && AllComposed(c, rest, s, kind, i + 1, visited)
    requires Composed(c, first, PartsOf(c, Members(s, kind)[i], visited))
    ensures AllComposed(c, [first] + rest, s, kind, i, visited)
  {
    var members := [first] + rest;
    forall j | 0 <= j < |members| ensures Composed(c, members[j], PartsOf(c, Members(s, kind)[i + j], visited)) {
      if j > 0 {
        assert members[j] == rest[j - 1] && Members(s, kind)[i + 1 + (j - 1)] == Members(s, kind)[i + j];
      } else {
        assert members[0] == first && Members(s, kind)[i + 0] == Members(s, kind)[i];
      }
    }
  }

  lemma {:induction false} LoopJoined(c: Components, s: Schema, kind: Combinator, i: nat, visited: set<string>,
                                        acc: Schema, parts: seq<Part>, members: seq<Schema>, all: seq<string>)
    requires s.Inline? && Joined(c, acc, parts) && AllComposed(c, members, s, kind, i, visited)
    requires AbsorbAll(acc, kind, members, all).Some?
    ensures Joined(c, AbsorbAll(acc, kind, members, all).value, parts + MemberParts(c, s, kind, i, visited))
    decreases members
  {
    if members == [] {
      assert parts + [] == parts;
    } else {
      var first, rest := PartsOf(c, Members(s, kind)[i], visited), MemberParts(c, s, kind, i + 1, visited);
      RestComposed(c, members, s, kind, i, visited);
      AbsorbJoined(c, acc, parts, kind, members[0], first, all);
      LoopJoined(c, s, kind, i + 1, visited, Absorb(acc, kind, members[0], all).value, parts + first, members[1..], all);
      Regroup(parts, first, rest);
    }
  }

  // ---- the entries ----

  /** Merging changes nothing of the head but, here, one list. */
  predicate SameHead(acc: Schema, r: Schema, kind: Combinator)
    requires acc.Inline? && r.Inline?
  {
    && r.nullable == acc.nullable && r.required == acc.required && r.rest == acc.rest && r.negated == acc.negated
    && (kind != AllOf ==> r.allOf == acc.allOf) && (kind != OneOf ==> r.oneOf == acc.oneOf) && (kind != AnyOf ==> r.anyOf == acc.anyOf)
  }

  lemma AbsorbHead(acc: Schema, kind: Combinator, member: Schema, all: seq<string>)
    requires acc.Inline? && member.Inline? && Absorb(acc, kind, member, all).Some?
    ensures var r := Absorb(acc, kind, member, all).value;
      SameHead(acc, r, kind) && Members(r, kind) == Members(acc, kind) + [Discriminator(kind, member, all)]
  {
    FieldsOfMerge(Record(acc, kind, Discriminator(kind, member, all)), member.(required := []));
  }

  /** A loop adds one entry for each member to its own list. */
  lemma {:induction false} AbsorbAllHead(acc: Schema, kind: Combinator, members: seq<Schema>, all: seq<string>)
    requires acc.Inline? && AllInline(members) && AbsorbAll(acc, kind, members, all).Some?
    ensures var r := AbsorbAll(acc, kind, members, all).value;
      SameHead(acc, r, kind) && Members(r, kind) == Members(acc, kind) + Discriminators(kind, members, all)
    decreases members
  {
    if members == [] {
      assert Members(acc, kind) + [] == Members(acc, kind);
    } else {
      var next, first := Absorb(acc, kind, members[0], all).value, Discriminator(kind, members[0], all);
      AbsorbHead(acc, kind, members[0], all);
      AbsorbAllHead(next, kind, members[1..], all);
      Regroup(Members(acc, kind), [first], Discriminators(kind, members[1..], all));
    }
  }

  function Discriminators(kind: Combinator, members: seq<Schema>, all: seq<string>): (r: seq<Schema>)
    requires AllInline(members)
    ensures |r| == |members| && forall i :: 0 <= i < |members| ==> r[i] == Discriminator(kind, members[i], all)
    decreases members
  {
    if members == [] then [] else [Discriminator(kind, members[0], all)] + Discriminators(kind, members[1..], all)
  }

  lemma DefinedIff(c: Components, r: Schema, parts: seq<Part>, name: string)
    requires Joined(c, r, parts)
    ensures name in r.props <==> Defines(parts, name)
  {
    assert SlotComposed(c, r, parts, Prop(name));
    forall p | p in parts ensures At(c, p, Prop(name)).Some? <==> name in p.s.props {
    }
  }

  lemma {:induction false} LackingNames(c: Components, member: Schema, parts: seq<Part>, all: seq<string>)
    requires Joined(c, member, parts)
    ensures NotRequired(all, member.props) == RequireEach(Lacking(all, parts))
    ensures NotRequired(all, member.props) == [] <==> Lacking(all, parts) == []
  {
    if all != [] {
      LackingNames(c, member, parts, all[1..]);
      DefinedIff(c, member, parts, all[0]);
      var rest := Lacking(all[1..], parts);
      assert ([all[0]] + rest)[1..] == rest && [] + rest == rest;
      assert [] + RequireEach(rest) == RequireEach(rest);
    }
  }

  lemma EntryOfMember(c: Components, kind: Combinator, member: Schema, source: Schema, visited: set<string>, all: seq<string>)
    requires member.Inline? && Composed(c, member, PartsOf(c, source, visited))
    ensures EntryFits(c, kind, Discriminator(kind, member, all), source, visited, all)
  {
    LackingNames(c, member, PartsOf(c, source, visited), all);
  }

  lemma {:induction false} ListOfMembers(c: Components, s: Schema, kind: Combinator, visited: set<string>, members: seq<Schema>, all: seq<string>)
    requires s.Inline? && AllComposed(c, members, s, kind, 0, visited)
    ensures ListFits(c, kind, Discriminators(kind, members, all), Part(s, visited, true, false), all)
  {
    forall i | 0 <= i < |members|
      ensures EntryFits(c, kind, Discriminator(kind, members[i], all), Members(s, kind)[i], visited, all)
    {
      assert Composed(c, members[i], PartsOf(c, Members(s, kind)[0 + i], visited));
      EntryOfMember(c, kind, members[i], Members(s, kind)[i], visited, all);
    }
  }

  /** One loop, seen from its list. */
  lemma {:induction false} LoopEntries(c: Components, s: Schema, kind: Combinator, all: seq<string>, visited: set<string>, acc: Schema)
    requires s.Inline? && acc.Inline? && Loop(c, s, kind, all, visited, acc).Some? && Members(acc, kind) == []
    ensures var r := Loop(c, s, kind, all, visited, acc).value;
      SameHead(acc, r, kind) && ListFits(c, kind, Members(r, kind), Part(s, visited, true, false), all)
    decreases c.Keys - visited, s, 2, 0
  {
    MembersComposed(c, s, kind, 0, visited);
    var members := ResolveAll(c, s, kind, 0, visited).value;
    AbsorbAllHead(acc, kind, members, all);
    ListOfMembers(c, s, kind, visited, members, all);
    assert [] + Discriminators(kind, members, all) == Discriminators(kind, members, all);
  }

  lemma {:induction false} ResolveHeaded(c: Components, s: Schema, visited: set<string>)
    requires s.Inline? && Resolve(c, s, visited).Some?
    ensures Headed(c, Resolve(c, s, visited).value, PartsOf(c, s, visited)[0])
    decreases c.Keys - visited, s, 3, 0
  {
    var own, p := ResolveOwn(c, s, visited).value, Part(s, visited, true, false);
    LoopEntries(c, s, AllOf, [], visited, own);
    var acc := Loop(c, s, AllOf, [], visited, own).value;
    if s.oneOf == [] {
      LoopEntries(c, s, AnyOf, [], visited, acc);
    } else {
      var names := AllRequired(s.oneOf).value;
      if names != [] {
        LoopEntries(c, s, OneOf, names, visited, acc);
        LoopEntries(c, s, AnyOf, [], visited, Loop(c, s, OneOf, names, visited, acc).value);
      }
    }
    HeadIgnoresFlags(c, Resolve(c, s, visited).value, p, PartsOf(c, s, visited)[0]);
  }

  lemma HeadIgnoresFlags(c: Components, r: Schema, p: Part, q: Part)
    requires r.Inline? && Headed(c, r, p) && q.s == p.s && q.visited == p.visited
    ensures Headed(c, r, q)
  {
  }

  /**
    Main theorem. Whatever resolves, cycles and unions included, is composed of the parts of
    its source: every field at every depth is what the source schemas flowing into it say.
   */
  lemma {:induction false} ResolveComposed(c: Components, s: Schema, visited: set<string>)
    requires Resolve(c, s, visited).Some?
    ensures Composed(c, Resolve(c, s, visited).value, PartsOf(c, s, visited))
    decreases c.Keys - visited, s, 4, 0
  {
    match s
    case Ref(ref, _) =>
      if RefName(ref) in visited {
        PlaceholderComposed(c, visited);
      } else {
        ResolveComposed(c, c[RefName(ref)], visited + {RefName(ref)});
      }
    case Inline(_, _, _, _, _, _, _, _, _, _, _, _, _) =>
      OwnJoined(c, s, visited);
      FlattenJoined(c, s, visited, ResolveOwn(c, s, visited).value);
      ResolveHeaded(c, s, visited);
  }

  lemma PlaceholderComposed(c: Components, visited: set<string>)
    ensures Composed(c, PLACEHOLDER, [Part(PLACEHOLDER, visited, true, true)])
  {
    var p := Part(PLACEHOLDER, visited, true, true);
    assert Opens(c, p);
    forall slot: Slot ensures SlotComposed(c, PLACEHOLDER, [p], slot) {
    }
    OnePart(c, p);
    assert Joined(c, PLACEHOLDER, [p]);
    assert Headed(c, PLACEHOLDER, p);
  }

  lemma {:induction false} OwnJoined(c: Components, s: Schema, visited: set<string>)
    requires s.Inline? && ResolveOwn(c, s, visited).Some?
    ensures Joined(c, ResolveOwn(c, s, visited).value, [Part(s, visited, true, false)])
    decreases c.Keys - visited, s, 1, 0
  {
    var own, p := ResolveOwn(c, s, visited).value, Part(s, visited, true, false);
    if s.additional.Some? {
      ResolveComposed(c, s.additional.value, visited);
      TakesAnythingIff(c, s.additional.value, visited, Resolve(c, s.additional.value, visited).value);
    }
    forall slot: Slot ensures SlotComposed(c, own, [p], slot) {
      OwnField(c, s, visited, slot);
      var at := At(c, p, slot);
      if at.Some? {
        assert at.value < s;
        ResolveComposed(c, at.value, visited);
      }
      OwnSlotComposed(c, own, p, slot);
    }
    OnePart(c, p);
  }

  lemma OnePart(c: Components, p: Part)
    requires p.typed
    ensures TypesOf([p]) == p.s.types && HasOf(c, [p]) == HasAt(c, p) && (AnyOpens(c, [p]) <==> Opens(c, p))
  {
    assert [p][1..] == [];
  }

  /** The schema's own keywords hold in each slot what resolves of what it puts there. */
  lemma OwnField(c: Components, s: Schema, visited: set<string>, slot: Slot)
    requires s.Inline? && ResolveOwn(c, s, visited).Some?
    requires s.additional.Some? ==>
      (Unconstrained(Resolve(c, s.additional.value, visited).value) <==> TakesAnything(c, s.additional.value, visited))
    ensures Field(ResolveOwn(c, s, visited).value, slot) ==
      match At(c, Part(s, visited, true, false), slot) { case None => None case Some(x) => Resolve(c, x, visited) }
  {
  }

  lemma {:induction false} OwnSlotComposed(c: Components, own: Schema, p: Part, slot: Slot)
    requires own.Inline? && (At(c, p, slot).Some? <==> Field(own, slot).Some?)
    requires At(c, p, slot).Some? ==> Composed(c, Field(own, slot).value, PartsOf(c, At(c, p, slot).value, p.visited))
    ensures SlotComposed(c, own, [p], slot)
  {
    assert [p][1..] == [];
    if At(c, p, slot).Some? {
      var sub := PartsOf(c, At(c, p, slot).value, p.visited);
      assert sub + [] == sub;
    }
  }

  lemma {:induction false} MembersComposed(c: Components, s: Schema, kind: Combinator, i: nat, visited: set<string>)
    requires s.Inline? && i <= |Members(s, kind)| && ResolveAll(c, s, kind, i, visited).Some?
    ensures AllComposed(c, ResolveAll(c, s, kind, i, visited).value, s, kind, i, visited)
    decreases c.Keys - visited, s, 1, |Members(s, kind)| - i
  {
    if i < |Members(s, kind)| {
      ResolveComposed(c, Members(s, kind)[i], visited);
      MembersComposed(c, s, kind, i + 1, visited);
      FirstComposed(c, Resolve(c, Members(s, kind)[i], visited).value, ResolveAll(c, s, kind, i + 1, visited).value, s, kind, i, visited);
    }
  }

  lemma {:induction false} StageJoined(c: Components, s: Schema, kind: Combinator, all: seq<string>, visited: set<string>,
                                         acc: Schema, parts: seq<Part>)
    requires s.Inline? && Joined(c, acc, parts) && Loop(c, s, kind, all, visited, acc).Some?
    ensures Joined(c, Loop(c, s, kind, all, visited, acc).value, parts + MemberParts(c, s, kind, 0, visited))
    decreases c.Keys - visited, s, 2, 0
  {
    MembersComposed(c, s, kind, 0, visited);
    LoopJoined(c, s, kind, 0, visited, acc, parts, ResolveAll(c, s, kind, 0, visited).value, all);
  }

  lemma {:induction false} FlattenJoined(c: Components, s: Schema, visited: set<string>, own: Schema)
    requires s.Inline? && Joined(c, own, [Part(s, visited, true, false)]) && Flatten(c, s, visited, own).Some?
    ensures Joined(c, Flatten(c, s, visited, own).value, PartsOf(c, s, visited))
    decreases c.Keys - visited, s, 3, 0
  {
    var p := [Part(s, visited, true, false)];
    StageJoined(c, s, AllOf, [], visited, own, p);
    var acc, all := Loop(c, s, AllOf, [], visited, own).value, p + MemberParts(c, s, AllOf, 0, visited);
    if s.oneOf == [] {
      StageJoined(c, s, AnyOf, [], visited, acc, all);
    } else {
      var names := AllRequired(s.oneOf).value;
      if names == [] {
        SchemalessJoined(c, acc, all, Flatten(c, s, visited, own).value);
      } else {
        StageJoined(c, s, OneOf, names, visited, acc, all);
        var next := Loop(c, s, OneOf, names, visited, acc).value;
        StageJoined(c, s, AnyOf, [], visited, next, all + MemberParts(c, s, OneOf, 0, visited));
      }
    }
  }

  // ---- the compiled schema's own properties ----

  /** The first part of a named component is the value it carries. */
  lemma {:induction false} CarrierIsFirst(c: Components, name: string, seen: set<string>, visited: set<string>)
    requires Carrier(c, name, seen).Some? && visited <= seen + {name}
    ensures PartsOf(c, c[name], visited)[0].s == c[Carrier(c, name, seen).value]
    ensures var s := c[Carrier(c, name, seen).value];
      s.allOf == s.oneOf == s.anyOf == [] ==> |PartsOf(c, c[name], visited)| == 1
    decreases c.Keys - seen
  {
    if c[name].Ref? {
      CarrierIsFirst(c, RefName(c[name].ref), seen + {name}, visited + {RefName(c[name].ref)});
    }
  }

  /** Stripping takes off the three properties Kubernetes supplies, and nothing else. */
  lemma StripExactly(s: Schema, k: string)
    requires s.Inline?
    ensures Strip(s) == s.(props := Strip(s).props)
    ensures k in Strip(s).props <==> k in s.props && k != "metadata" && k != "kind" && k != "apiVersion"
    ensures k in Strip(s).props ==> Strip(s).props[k] == s.props[k]
  {
  }

  /**
    The properties of a compiled schema are its component's without exactly those three, and those its
    combinator members bring; references to the component's value followed.
   */
  lemma CompiledProperties(c: Components, name: string, k: string)
    requires CRDSchema(c, name).Some? && Carrier(c, name, {}).Some?
    ensures var r, s, now := CRDSchema(c, name).value, c[Carrier(c, name, {}).value], Stripped(c, name);
      var own, parts := k in s.props && k != "metadata" && k != "kind" && k != "apiVersion", PartsOf(now, now[name], {});
      && (k in r.props <==> own || Defines(parts[1..], k))
      && (s.allOf == s.oneOf == s.anyOf == [] ==> (k in r.props <==> own))
  {
    var at, now := Carrier(c, name, {}).value, Stripped(c, name);
    CarrierKept(c, name, {}, at, Strip(c[at]));
    CarrierIsFirst(now, name, {}, {});
    StripExactly(c[at], k);
    ResolveComposed(now, now[name], {});
    var parts := PartsOf(now, now[name], {});
    DefinedIff(now, CRDSchema(c, name).value, parts, k);
    assert parts == [parts[0]] + parts[1..];
  }

  // ---- recursion ----

  /** An object that takes anything: what a cut cycle becomes, and stays whatever is merged into it. */
  predicate OpenObject(s: Schema) {
    && s.Inline? && PRESERVE in s.ext && s.ext[PRESERVE] == Flag(true)
    && s.types.Some? && "object" in s.types.value
  }

  /**
    Recursion is cut: a property that refers to a name already being resolved becomes an
    object that takes anything, and remains one whatever the combinators merge into it.
   */
  lemma {:induction false} RecursionIsCut(c: Components, s: Schema, visited: set<string>, k: string)
    requires s.Inline? && k in s.props && s.props[k].Ref? && RefName(s.props[k].ref) in visited
    requires Resolve(c, s, visited).Some?
    ensures var r := Resolve(c, s, visited).value; k in r.props && OpenObject(r.props[k])
  {
    var r, parts := Resolve(c, s, visited).value, PartsOf(c, s, visited);
    ResolveComposed(c, s, visited);
    assert parts[0].s == s && parts[0].visited == visited;
    var cut := Part(PLACEHOLDER, visited, true, true);
    assert PartsAt(c, parts[0], Prop(k)) == [cut];
    assert SlotComposed(c, r, parts, Prop(k));
    assert Composed(c, r.props[k], SlotParts(c, parts, Prop(k)));
    CutIsOpen(c, r.props[k], SlotParts(c, parts, Prop(k)));
  }

  lemma {:induction false} CutIsOpen(c: Components, t: Schema, parts: seq<Part>)
    requires Joined(c, t, parts) && parts[0].s == PLACEHOLDER && parts[0].typed && parts[0].open
    ensures OpenObject(t)
  {
    assert "object" in ["object"] && Opens(c, parts[0]);
  }

  // ---- which nulls get past the types ----

  /** A null passes the parts if the first is nullable, none is typed, or one lists null. */
  predicate NullPasses(parts: seq<Part>)
    requires parts != []
  {
    || parts[0].s.nullable
    || (forall p :: p in parts && p.typed ==> p.s.types.None?)
    || (exists p :: p in parts && p.typed && p.s.types.Some? && "null" in p.s.types.value)
  }

  /** Every null in `v` passes the parts in charge of it. */
  predicate NullsPass(c: Components, parts: seq<Part>, v: Value)
    decreases v
  {
    parts != [] ==>
      match v
      case Null => NullPasses(parts)
      case Scalar(_, _) => true
      case Arr(elems) => forall i :: 0 <= i < |elems| ==> NullsPass(c, SlotParts(c, parts, Items), elems[i])
      case Obj(fields) =>
        forall k :: k in fields ==>
          var own := SlotParts(c, parts, Prop(k));
          NullsPass(c, if own != [] then own else SlotParts(c, parts, Extra), fields[k])
  }

  lemma {:induction false} TypesOfParts(parts: seq<Part>)
    ensures TypesOf(parts).None? <==> forall p :: p in parts && p.typed ==> p.s.types.None?
    ensures TypesOf(parts).Some? && "null" in TypesOf(parts).value <==>
            exists p :: p in parts && p.typed && p.s.types.Some? && "null" in p.s.types.value
  {
    if parts != [] {
      TypesOfParts(parts[1..]);
    }
  }

  /** What the resolved types let past can be read off the source, at every depth. */
  lemma {:induction false} NullsPassIff(c: Components, r: Schema, parts: seq<Part>, v: Value)
    requires Composed(c, r, parts)
    ensures NullsFit(r, v) <==> NullsPass(c, parts, v)
    decreases v
  {
    match v
    case Null => TypesOfParts(parts);
    case Scalar(_, _) =>
    case Arr(elems) =>
      assert SlotComposed(c, r, parts, Items);
      if r.items.Some? {
        forall i | 0 <= i < |elems| ensures NullsFit(r.items.value, elems[i]) <==> NullsPass(c, SlotParts(c, parts, Items), elems[i]) {
          NullsPassIff(c, r.items.value, SlotParts(c, parts, Items), elems[i]);
        }
      }
    case Obj(fields) =>
      assert SlotComposed(c, r, parts, Extra);
      forall k | k in fields
        ensures var own := SlotParts(c, parts, Prop(k));
          NullsPass(c, if own != [] then own else SlotParts(c, parts, Extra), fields[k]) <==>
          (k in r.props ==> NullsFit(r.props[k], fields[k])) &&
          (k !in r.props && r.additional.Some? ==> NullsFit(r.additional.value, fields[k]))
      {
        assert SlotComposed(c, r, parts, Prop(k));
        if k in r.props {
          NullsPassIff(c, r.props[k], SlotParts(c, parts, Prop(k)), fields[k]);
        } else if r.additional.Some? {
          NullsPassIff(c, r.additional.value, SlotParts(c, parts, Extra), fields[k]);
        }
      }
  }

  // ---- which booleans are left ----

  lemma {:induction false} HasOfParts(c: Components, parts: seq<Part>)
    ensures HasOf(c, parts) == Some(true) <==> exists p :: p in parts && HasAt(c, p) == Some(true)
    ensures HasOf(c, parts).None? <==> forall p :: p in parts ==> HasAt(c, p).None?
  {
    if parts != [] {
      HasOfParts(c, parts[1..]);
    }
  }

  /**
    `additionalProperties: false` beside properties, which the source means to drop, is left
    exactly where some part brings `false` with a sub-schema that is kept, none brings `true`
    with one, and some part has properties.
   */
  lemma {:induction false} FalseBesidePropertiesIff(c: Components, s: Schema, visited: set<string>)
    requires Resolve(c, s, visited).Some?
    ensures var r, parts := Resolve(c, s, visited).value, PartsOf(c, s, visited);
      r.has == Some(false) && r.props != map[] <==>
      && (exists p :: p in parts && HasAt(c, p) == Some(false))
      && (forall p :: p in parts ==> HasAt(c, p) != Some(true))
      && (exists p :: p in parts && p.s.props != map[])
  {
    ResolveComposed(c, s, visited);
    HasFalseOfParts(c, PartsOf(c, s, visited));
    PropsOfParts(c, Resolve(c, s, visited).value, PartsOf(c, s, visited));
  }

  lemma HasFalseOfParts(c: Components, parts: seq<Part>)
    ensures HasOf(c, parts) == Some(false) <==>
      (exists p :: p in parts && HasAt(c, p) == Some(false)) && (forall p :: p in parts ==> HasAt(c, p) != Some(true))
  {
    HasOfParts(c, parts);
    NotTrueIsFalse(HasOf(c, parts));
    if HasOf(c, parts).Some? && HasOf(c, parts) != Some(true) {
      var p :| p in parts && HasAt(c, p).Some?;
      NotTrueIsFalse(HasAt(c, p));
    }
  }

  /** A closed object with a property, whose unknown fields would be strings: by itself, or with the closing in an allOf member. */
  const CLOSING := BLANK.(has := Some(false), additional := Some(BLANK.(types := Some(["string"]))))

  lemma ClosingResolves(props: map<string, Schema>)
    requires forall k :: k in props ==> props[k] == BLANK
    ensures Resolve(map[], CLOSING.(props := props), {}) == Some(CLOSING.(props := props))
  {
    var s, text := CLOSING.(props := props), BLANK.(types := Some(["string"]));
    BareResolves(map[], text);
    BlankProps(map[], s);
    assert ["string"][0] != ["object"][0];
    WithoutCombinators(map[], s);
  }

  /** Both keep their `false` beside the property. */
  lemma FalseBesidePropertiesKept()
    ensures var s := CLOSING.(props := map["a" := BLANK]);
      exists r :: Resolve(map[], s, {}) == Some(r) && r.has == Some(false) && "a" in r.props
    ensures var s := BLANK.(props := map["a" := BLANK], allOf := [CLOSING]);
      exists r :: Resolve(map[], s, {}) == Some(r) && r.has == Some(false) && "a" in r.props
  {
    ClosingResolves(map["a" := BLANK]);
    ClosingMember();
  }

  lemma ClosingMember()
    ensures var s := BLANK.(props := map["a" := BLANK], allOf := [CLOSING]);
      exists r :: Resolve(map[], s, {}) == Some(r) && r.has == Some(false) && "a" in r.props
  {
    var s := BLANK.(props := map["a" := BLANK], allOf := [CLOSING]);
    var own := s.(allOf := []);
    BlankProps(map[], s);
    assert ResolveOwn(map[], s, {}) == Some(own);
    ClosingResolves(map[]);
    assert CLOSING.(props := map[]) == CLOSING;
    OneMemberResolves(map[], s, own, CLOSING);
    var into, bare := Record(own, AllOf, Discriminator(AllOf, CLOSING, [])), CLOSING.(required := []);
    MergeSucceedsIff(into, bare);
    FieldsOfMerge(into, bare);
  }

  /** additionalProperties is a boolean or a schema, and not both, wherever the resolver looks. */
  predicate EitherOr(s: Schema) {
    s.Inline? ==>
      && (s.has.Some? ==> s.additional.None?)
      && (forall k :: k in s.props ==> EitherOr(s.props[k]))
      && (s.items.Some? ==> EitherOr(s.items.value))
      && (s.additional.Some? ==> EitherOr(s.additional.value))
      && (forall i :: 0 <= i < |s.allOf| ==> EitherOr(s.allOf[i]))
      && (forall i :: 0 <= i < |s.oneOf| ==> EitherOr(s.oneOf[i]))
      && (forall i :: 0 <= i < |s.anyOf| ==> EitherOr(s.anyOf[i]))
  }

  predicate AllEitherOr(c: Components) {
    forall n :: n in c ==> EitherOr(c[n])
  }

  predicate PartsEitherOr(parts: seq<Part>) {
    forall p :: p in parts ==> EitherOr(p.s)
  }

  /** No boolean at any depth, combinator entries included. */
  predicate NoBooleans(s: Schema) {
    s.Inline? ==>
      && s.has.None?
      && (forall k :: k in s.props ==> NoBooleans(s.props[k]))
      && (s.items.Some? ==> NoBooleans(s.items.value))
      && (s.additional.Some? ==> NoBooleans(s.additional.value))
      && (forall i :: 0 <= i < |s.allOf| ==> NoBooleans(s.allOf[i]))
      && (forall i :: 0 <= i < |s.oneOf| ==> NoBooleans(s.oneOf[i]))
      && (forall i :: 0 <= i < |s.anyOf| ==> NoBooleans(s.anyOf[i]))
      && (s.negated.Some? ==> NoBooleans(s.negated.value))
  }

  lemma {:induction false} PartsOfEitherOr(c: Components, s: Schema, visited: set<string>)
    requires AllEitherOr(c) && EitherOr(s)
    ensures PartsEitherOr(PartsOf(c, s, visited))
    decreases c.Keys - visited, s, 1, 0
  {
    match s
    case Ref(ref, _) =>
      if RefName(ref) !in visited && RefName(ref) in c {
        PartsOfEitherOr(c, c[RefName(ref)], visited + {RefName(ref)});
      }
    case Inline(_, _, _, _, _, _, _, _, _, _, _, _, _) =>
      forall kind: Combinator ensures PartsEitherOr(MemberParts(c, s, kind, 0, visited)) {
        MemberPartsEitherOr(c, s, kind, 0, visited);
      }
      SchemalessEitherOr([Part(s, visited, true, false)] + MemberParts(c, s, AllOf, 0, visited));
  }

  lemma {:induction false} MemberPartsEitherOr(c: Components, s: Schema, kind: Combinator, i: nat, visited: set<string>)
    requires AllEitherOr(c) && s.Inline? && EitherOr(s) && i <= |Members(s, kind)|
    ensures PartsEitherOr(MemberParts(c, s, kind, i, visited))
    decreases c.Keys - visited, s, 0, |Members(s, kind)| - i
  {
    if i < |Members(s, kind)| {
      PartsOfEitherOr(c, Members(s, kind)[i], visited);
      MemberPartsEitherOr(c, s, kind, i + 1, visited);
    }
  }

  lemma {:induction false} SchemalessEitherOr(parts: seq<Part>)
    requires PartsEitherOr(parts)
    ensures PartsEitherOr(Schemaless(parts))
  {
    if parts != [] {
      SchemalessEitherOr(parts[1..]);
    }
  }

  lemma {:induction false} SlotEitherOr(c: Components, parts: seq<Part>, slot: Slot)
    requires AllEitherOr(c) && PartsEitherOr(parts)
    ensures PartsEitherOr(SlotParts(c, parts, slot))
  {
    if parts != [] {
      SlotEitherOr(c, parts[1..], slot);
      if At(c, parts[0], slot).Some? {
        PartsOfEitherOr(c, At(c, parts[0], slot).value, parts[0].visited);
      }
    }
  }

  lemma {:induction false} ComposedNoBooleans(c: Components, r: Schema, parts: seq<Part>)
    requires AllEitherOr(c) && PartsEitherOr(parts) && Composed(c, r, parts) && Structural(r)
    ensures NoBooleans(r)
  {
    HasOfParts(c, parts);
    forall slot: Slot | Field(r, slot).Some? ensures NoBooleans(Field(r, slot).value) {
      SlotEitherOr(c, parts, slot);
      assert SlotComposed(c, r, parts, slot);
      ComposedNoBooleans(c, Field(r, slot).value, SlotParts(c, parts, slot));
    }
    SlotsNoBooleans(r);
  }

  lemma {:induction false} SlotsNoBooleans(r: Schema)
    requires Structural(r) && r.has.None? && forall slot: Slot :: Field(r, slot).Some? ==> NoBooleans(Field(r, slot).value)
    ensures NoBooleans(r)
  {
    assert Field(r, Items) == r.items && Field(r, Extra) == r.additional;
    assert forall k :: k in r.props ==> Field(r, Prop(k)) == Some(r.props[k]);
    forall i | 0 <= i < |r.oneOf| ensures NoBooleans(r.oneOf[i]) {
    }
  }

  /** A decoded additionalProperties is either a boolean or a schema; then the resolved schema has no boolean at any depth. */
  lemma {:induction false} DecodedKeepsNoBoolean(c: Components, s: Schema, visited: set<string>)
    requires AllEitherOr(c) && EitherOr(s) && Resolve(c, s, visited).Some?
    ensures NoBooleans(Resolve(c, s, visited).value)
  {
    PartsOfEitherOr(c, s, visited);
    ResolveComposed(c, s, visited);
    ResolveStructural(c, s, visited);
    ComposedNoBooleans(c, Resolve(c, s, visited).value, PartsOf(c, s, visited));
  }
}
