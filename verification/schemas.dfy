/** OpenAPI schemas as the CRD compiler sees them, JSON-like values, and which values a schema accepts. */
module Schemas {
  import opened Common

  /**
    Every other keyword the compiler copies without looking, all of which only narrow what
    is accepted (format, minimum, pattern, enum, ...), as one opaque bundle.
   */
  type Keywords = int

  const NO_KEYWORDS: Keywords := 0

  /** Extension values; only their equality matters. */
  datatype Extension = Flag(on: bool) | Text(text: string)

  /**
    A schema reference or an inline schema. `attached` is the required list of the
    value a loader hung onto the reference, if any; nothing else of it is read.
    Go's nil and empty maps are both the empty map.
   */
  datatype Schema =
    | Ref(ref: string, attached: Option<seq<string>>)
    | Inline(types: Option<seq<string>>, props: map<string, Schema>, required: seq<string>,
             nullable: bool, items: Option<Schema>, has: Option<bool>, additional: Option<Schema>,
             ext: map<string, Extension>, allOf: seq<Schema>, oneOf: seq<Schema>, anyOf: seq<Schema>,
             negated: Option<Schema>, rest: Keywords)

  type Components = map<string, Schema>

  const BLANK := Inline(None, map[], [], false, None, None, None, map[], [], [], [], None, NO_KEYWORDS)

  const PRESERVE := "x-kubernetes-preserve-unknown-fields"

  /** The schema name at the end of a reference. */
  function RefName(ref: string): string {
    if '/' !in ref then ref else RefName(ref[1..])
  }

  /** It is exactly what follows the last slash. */
  lemma {:induction false} RefNameIsLastSegment(ref: string)
    ensures var name := RefName(ref);
      && '/' !in name && |name| <= |ref| && ref[|ref| - |name|..] == name
      && (|name| < |ref| ==> ref[|ref| - |name| - 1] == '/')
  {
    if '/' in ref {
      RefNameIsLastSegment(ref[1..]);
    }
  }

  /** No `$ref` at any depth. */
  predicate NoRefs(s: Schema) {
    && s.Inline?
    && (forall k :: k in s.props ==> NoRefs(s.props[k]))
    && (s.items.Some? ==> NoRefs(s.items.value))
    && (s.additional.Some? ==> NoRefs(s.additional.value))
    && (forall i :: 0 <= i < |s.allOf| ==> NoRefs(s.allOf[i]))
    && (forall i :: 0 <= i < |s.oneOf| ==> NoRefs(s.oneOf[i]))
    && (forall i :: 0 <= i < |s.anyOf| ==> NoRefs(s.anyOf[i]))
    && (s.negated.Some? ==> NoRefs(s.negated.value))
  }

  // ---- values ----

  /** Instances: a scalar carries the type names it answers to ("integer" and "number", say). */
  datatype Value = Null | Scalar(kinds: set<string>, payload: int) | Arr(elems: seq<Value>) | Obj(fields: map<string, Value>)

  function Kinds(v: Value): set<string> {
    match v
    case Null => {"null"}
    case Scalar(kinds, _) => kinds
    case Arr(_) => {"array"}
    case Obj(_) => {"object"}
  }

  /**
    The setting acceptance is judged in: the named schemas, a rank showing that
    references only go downwards, any meaning for the opaque keywords, and leniency.
   */
  datatype Env = Env(comps: Components, rank: map<string, nat>, meets: (Keywords, Value) -> bool, lenient: bool)

  /** The setting with and without leniency: a lenient one lets null past every `type` outside oneOf, anyOf and not. */
  function Lenient(e: Env): Env {
    e.(lenient := true)
  }

  function Strict(e: Env): Env {
    e.(lenient := false)
  }

  /** All references in `s` go to names ranked below `bound`. */
  ghost predicate Below(rank: map<string, nat>, s: Schema, bound: nat) {
    match s
    case Ref(ref, _) => RefName(ref) in rank && rank[RefName(ref)] < bound
    case Inline(_, props, _, _, items, _, additional, _, allOf, oneOf, anyOf, negated, _) =>
      && (forall k :: k in props ==> Below(rank, props[k], bound))
      && (items.Some? ==> Below(rank, items.value, bound))
      && (additional.Some? ==> Below(rank, additional.value, bound))
      && (forall i :: 0 <= i < |allOf| ==> Below(rank, allOf[i], bound))
      && (forall i :: 0 <= i < |oneOf| ==> Below(rank, oneOf[i], bound))
      && (forall i :: 0 <= i < |anyOf| ==> Below(rank, anyOf[i], bound))
      && (negated.Some? ==> Below(rank, negated.value, bound))
  }

  /** Component references form no cycle. */
  ghost predicate Acyclic(e: Env) {
    && (forall n :: n in e.comps ==> n in e.rank && Below(e.rank, e.comps[n], e.rank[n]))
    && (forall v :: e.meets(NO_KEYWORDS, v))
  }

  /**
    `v` is an instance of `s`: references mean their target, and every other keyword
    what JSON Schema says. `bound` only makes the definition well-founded: below it,
    every reference of an acyclic setting is followed.
   */
  ghost predicate Accepts(e: Env, s: Schema, v: Value, bound: nat)
    decreases bound, s, 1
  {
    match s
    case Ref(ref, _) =>
      var name := RefName(ref);
      name in e.comps && name in e.rank && e.rank[name] < bound && Accepts(e, e.comps[name], v, e.rank[name])
    case Inline(types, _, _, nullable, _, _, _, _, _, _, _, _, rest) =>
      && TypesPermit(types, nullable || e.lenient, v)
      && e.meets(rest, v)
      && (v.Obj? ==> FieldsFit(e, s, v.fields, bound))
      && (v.Arr? ==> ElementsFit(e, s, v.elems, bound))
      && CombinatorsHold(e, s, v, bound)
  }

  /** type and nullable: a list of types does not admit null unless it says so, or the schema is nullable. */
  predicate TypesPermit(types: Option<seq<string>>, nullable: bool, v: Value) {
    types.Some? ==> (v.Null? && nullable) || exists t :: t in types.value && t in Kinds(v)
  }

  /** required, properties and additionalProperties. */
  ghost predicate FieldsFit(e: Env, s: Schema, fields: map<string, Value>, bound: nat)
    requires s.Inline?
    decreases bound, s, 0
  {
    && (forall r :: r in s.required ==> r in fields)
    && (forall k :: k in fields && k in s.props ==> Accepts(e, s.props[k], fields[k], bound))
    && (forall k :: k in fields && k !in s.props ==>
          s.has != Some(false) && (s.additional.Some? ==> Accepts(e, s.additional.value, fields[k], bound)))
  }

  /** items. */
  ghost predicate ElementsFit(e: Env, s: Schema, elems: seq<Value>, bound: nat)
    requires s.Inline?
    decreases bound, s, 0
  {
    s.items.Some? ==> forall i :: 0 <= i < |elems| ==> Accepts(e, s.items.value, elems[i], bound)
  }

  /** allOf, oneOf, anyOf and not. */
  ghost predicate CombinatorsHold(e: Env, s: Schema, v: Value, bound: nat)
    requires s.Inline?
    decreases bound, s, 0
  {
    && (forall i :: 0 <= i < |s.allOf| ==> Accepts(e, s.allOf[i], v, bound))
    && (s.oneOf != [] ==> exists i :: 0 <= i < |s.oneOf| && Accepts(Strict(e), s.oneOf[i], v, bound) &&
                            (forall j :: 0 <= j < |s.oneOf| && j != i ==> !Accepts(Strict(e), s.oneOf[j], v, bound)))
    && (s.anyOf != [] ==> exists i :: 0 <= i < |s.anyOf| && Accepts(Strict(e), s.anyOf[i], v, bound))
    && (s.negated.Some? ==> !Accepts(Strict(e), s.negated.value, v, bound))
  }

  /** Combinators look only at the four combinator fields. */
  lemma CombinatorsCopied(e: Env, s: Schema, t: Schema, v: Value, bound: nat)
    requires s.Inline? && t.Inline?
    requires t.allOf == s.allOf && t.oneOf == s.oneOf && t.anyOf == s.anyOf && t.negated == s.negated
    ensures CombinatorsHold(e, s, v, bound) <==> CombinatorsHold(e, t, v, bound)
  {
  }

  /** What a schema without references accepts; no bound matters there. */
  ghost predicate Sat(e: Env, s: Schema, v: Value) {
    Accepts(e, s, v, 0)
  }

  /** Wherever `v` has a null, the schema in charge of it lets null past its `type`. Nothing else is looked at. */
  predicate NullsFit(s: Schema, v: Value)
    decreases v
  {
    s.Inline? ==>
      match v
      case Null => TypesPermit(s.types, s.nullable, Null)
      case Scalar(_, _) => true
      case Arr(elems) => s.items.Some? ==> forall i :: 0 <= i < |elems| ==> NullsFit(s.items.value, elems[i])
      case Obj(fields) =>
        forall k :: k in fields ==>
          (k in s.props ==> NullsFit(s.props[k], fields[k])) &&
          (k !in s.props && s.additional.Some? ==> NullsFit(s.additional.value, fields[k]))
  }
}
