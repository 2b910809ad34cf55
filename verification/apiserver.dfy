/**
  The stored side of the finalizer protocol: one object on an API server that
  accepts JSON Patch documents (RFC 6902) guarded by resourceVersion.
 */
module ApiServer {
  import opened Common

  /** The part of an object's metadata the protocol reads and writes. */
  datatype Meta = Meta(version: nat, finalizers: seq<string>, deleting: bool, generation: int)

  datatype Stored = Present(meta: Meta) | Gone

  datatype Error = Conflict | NotFound | Invalid | Transport | Handler

  datatype Path = FinalizerList | FinalizerEnd | FinalizerAt(index: nat) | ResourceVersion

  datatype Value = Names(names: seq<string>) | Name(name: string) | Version(version: nat)

  datatype PatchOp = Add(path: Path, value: Value) | Replace(path: Path, value: Value)

  /**
    Sections 4.1 and 4.3 of RFC 6902 on the metadata document. An empty
    finalizer list is not serialized, so its location does not exist: only
    `add` of the whole list reaches it.
   */
  function ApplyOp(doc: Meta, op: PatchOp): Option<Meta> {
    match op
    case Add(FinalizerList, Names(fs)) => Some(doc.(finalizers := fs))
    case Add(FinalizerEnd, Name(f)) =>
      if doc.finalizers == [] then None else Some(doc.(finalizers := doc.finalizers + [f]))
    case Add(FinalizerAt(i), Name(f)) =>
      if doc.finalizers == [] || i > |doc.finalizers| then None
      else Some(doc.(finalizers := doc.finalizers[..i] + [f] + doc.finalizers[i..]))
    case Replace(FinalizerList, Names(fs)) =>
      if doc.finalizers == [] then None else Some(doc.(finalizers := fs))
    case Replace(FinalizerAt(i), Name(f)) =>
      if i >= |doc.finalizers| then None else Some(doc.(finalizers := doc.finalizers[i := f]))
    case Add(ResourceVersion, Version(v)) => Some(doc.(version := v))
    case Replace(ResourceVersion, Version(v)) => Some(doc.(version := v))
    case _ => None
  }

  /** Operations apply in order and the first failure abandons the patch (section 5 of RFC 6902). */
  function ApplyOps(doc: Meta, ops: seq<PatchOp>): Option<Meta>
    decreases ops
  {
    if ops == [] then Some(doc)
    else match ApplyOp(doc, ops[0])
         case None => None
         case Some(next) => ApplyOps(next, ops[1..])
  }

  datatype Reply = Accepted(meta: Meta) | Refused(error: Error)

  /**
    What the server does with a patch: apply it to what is stored now, refuse a
    stale resourceVersion, refuse a new finalizer on a deleting object, and let a
    deleting object vanish with its last finalizer.
   */
  function Submit(stored: Stored, ops: seq<PatchOp>): (Stored, Reply) {
    match stored
    case Gone => (Gone, Refused(NotFound))
    case Present(now) =>
      match ApplyOps(now, ops)
      case None => (stored, Refused(Invalid))
      case Some(doc) =>
        if doc.version != now.version then (stored, Refused(Conflict))
        else if now.deleting && exists f :: f in doc.finalizers && f !in now.finalizers then (stored, Refused(Invalid))
        else
          var next := now.(version := now.version + 1, finalizers := doc.finalizers);
          (if next.deleting && next.finalizers == [] then Gone else Present(next), Accepted(next))
  }

  /** The two-operation shape of every patch the finalizer updater sends: one edit, then the version guard. */
  predicate Guarded(ops: seq<PatchOp>, base: Meta) {
    && |ops| == 2
    && ops[0].path != ResourceVersion
    && ops[1] == Replace(ResourceVersion, Version(base.version))
  }

  /** A guarded patch is accepted only by the very version it was computed from. */
  lemma GuardMeansVersion(stored: Stored, ops: seq<PatchOp>, base: Meta)
    requires Guarded(ops, base)
    requires Submit(stored, ops).1.Accepted?
    ensures stored.Present? && stored.meta.version == base.version
    ensures var doc := ApplyOp(stored.meta, ops[0]);
      doc.Some? && Submit(stored, ops).1.meta.finalizers == doc.value.finalizers
  {
    GuardedApply(stored.meta, ops, base);
  }

  /** A guarded patch applies its one edit and sets the expected version. */
  lemma GuardedApply(doc: Meta, ops: seq<PatchOp>, base: Meta)
    requires Guarded(ops, base)
    ensures ApplyOps(doc, ops) ==
      match ApplyOp(doc, ops[0]) { case None => None case Some(d) => Some(d.(version := base.version)) }
  {
    match ApplyOp(doc, ops[0])
    case None =>
    case Some(d) =>
      assert ops[1..] == [ops[1]];
      assert ApplyOps(d, [ops[1]]) == Some(d.(version := base.version)) by {
        assert [ops[1]][1..] == [];
      }
  }
}
