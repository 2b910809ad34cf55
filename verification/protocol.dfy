/**
  The finalizer protocol as a step relation over one incarnation of one object.

  A world is what the server stores plus the record of the run: every metadata
  document ever stored, and whether some AddFunc / DeleteFunc call has returned
  nil. Any number of watcher calls, from any number of operator processes, run
  interleaved with other actors; a call that stops half-way has simply taken
  fewer steps.
 */
module Protocol {
  import opened Common
  import opened ApiServer

  /** An operator's own finalizers: the watcher's in-progress and final one, or the reconciler's only one. */
  datatype Owned = Pair(wip: string, final: string) | Single(wip: string)

  datatype World = World(stored: Stored, history: seq<Meta>, added: bool, handled: bool)

  datatype Step =
    | OtherWrite(finalizers: seq<string>, generation: int)
    | DeleteRequested(generation: int)
    | Patched(ops: seq<PatchOp>)
    | AddCalled
    | AddSucceeded
    | SyncCalled
    | UpdateCalled
    | DeleteCalled
    | DeleteSucceeded

  predicate HasFinal(p: Owned, fs: seq<string>) {
    p.Pair? && p.final in fs
  }

  predicate Ours(p: Owned, m: Meta) {
    p.wip in m.finalizers || HasFinal(p, m.finalizers)
  }

  predicate EverStored(w: World, f: string) {
    exists i :: 0 <= i < |w.history| && f in w.history[i].finalizers
  }

  predicate FinalStored(p: Owned, w: World) {
    p.Pair? && EverStored(w, p.final)
  }

  predicate DeletionSeen(w: World) {
    exists i :: 0 <= i < |w.history| && w.history[i].deleting
  }

  /**
    What a patch of ours computed from `before` may turn the list into: it gains
    the final finalizer only once AddFunc has succeeded, and it loses one of ours
    only after a handled delete or in favour of the final one.
   */
  predicate Licensed(p: Owned, w: World, before: seq<string>, after: seq<string>) {
    && (HasFinal(p, after) && !HasFinal(p, before) ==> w.added)
    && (HasFinal(p, before) && !HasFinal(p, after) ==> w.handled)
    && (p.wip in before && p.wip !in after ==> HasFinal(p, after) || w.handled || FinalStored(p, w))
  }

  /** A patch of the finalizer updater is guarded by, and computed from, a document that was stored at some time. */
  predicate Computed(w: World, ops: seq<PatchOp>, base: Meta) {
    base in w.history && Guarded(ops, base) && ApplyOp(base, ops[0]).Some?
  }

  predicate PatchFrom(p: Owned, w: World, ops: seq<PatchOp>, base: Meta) {
    Computed(w, ops, base) && Licensed(p, w, base.finalizers, ApplyOp(base, ops[0]).value.finalizers)
  }

  /** What the server and the finalizer updater let happen, whoever calls it for what. */
  predicate Possible(w: World, s: Step) {
    match s
    case OtherWrite(fs, _) =>
      w.stored.Present? && (w.stored.meta.deleting ==> forall f :: f in fs ==> f in w.stored.meta.finalizers)
    case DeleteRequested(_) => w.stored.Present? && !w.stored.meta.deleting
    case Patched(ops) => exists base :: base in w.history && Computed(w, ops, base)
    case _ => true
  }

  /** What everybody allows themselves: other actors leave our finalizers alone, and our own calls keep to their order. */
  predicate Allowed(p: Owned, w: World, s: Step) {
    match s
    case OtherWrite(fs, _) =>
      w.stored.Present? ==>
        && (p.wip in fs <==> p.wip in w.stored.meta.finalizers)
        && (HasFinal(p, fs) <==> HasFinal(p, w.stored.meta.finalizers))
    case Patched(ops) => exists base :: base in w.history && PatchFrom(p, w, ops, base)
    case SyncCalled => w.added
    case UpdateCalled => w.added
    case DeleteCalled => DeletionSeen(w) && (EverStored(w, p.wip) || FinalStored(p, w))
    case DeleteSucceeded => DeletionSeen(w)
    case _ => true
  }

  predicate Enabled(p: Owned, w: World, s: Step) {
    Possible(w, s) && Allowed(p, w, s)
  }

  /** The world after the server stores document `m`; a deleting object with no finalizers is gone. */
  function Store(w: World, m: Meta): World {
    w.(stored := if m.deleting && m.finalizers == [] then Gone else Present(m), history := w.history + [m])
  }

  function Next(w: World, s: Step): World {
    match s
    case OtherWrite(fs, g) =>
      if w.stored.Gone? then w
      else Store(w, w.stored.meta.(version := w.stored.meta.version + 1, finalizers := fs, generation := g))
    case DeleteRequested(g) =>
      if w.stored.Gone? then w
      else Store(w, w.stored.meta.(version := w.stored.meta.version + 1, deleting := true, generation := g))
    case Patched(ops) =>
      var (stored, reply) := Submit(w.stored, ops);
      if reply.Refused? then w else w.(stored := stored, history := w.history + [reply.meta])
    case AddSucceeded => w.(added := true)
    case DeleteSucceeded => w.(handled := true)
    case AddCalled | SyncCalled | UpdateCalled | DeleteCalled => w
  }

  function Run(w: World, steps: seq<Step>): World {
    if steps == [] then w else Next(Run(w, steps[..|steps| - 1]), steps[|steps| - 1])
  }

  predicate Legal(p: Owned, w: World, steps: seq<Step>) {
    steps == [] ||
    (Legal(p, w, steps[..|steps| - 1]) && Enabled(p, Run(w, steps[..|steps| - 1]), steps[|steps| - 1]))
  }

  /** A fresh object nobody of ours has touched. */
  predicate Initial(p: Owned, w: World) {
    && (p.Pair? ==> p.wip != p.final)
    && w.stored.Present?
    && w.history == [w.stored.meta]
    && !Ours(p, w.stored.meta)
    && !w.added && !w.handled
  }

  // ---- the invariant ----

  /** Versions identify documents, deletion is final, and a deleting object gains no finalizer. */
  ghost predicate Ordered(w: World) {
    && |w.history| > 0
    && (w.stored.Present? ==> w.stored.meta == w.history[|w.history| - 1])
    && (forall i, j :: 0 <= i < j < |w.history| ==> Before(w.history[i], w.history[j]))
  }

  /** What an earlier and a later document of one object have to do with each other. */
  ghost predicate Before(a: Meta, b: Meta) {
    && a.version < b.version
    && (a.deleting ==> b.deleting && forall f :: f in b.finalizers ==> f in a.finalizers)
  }

  /** The pair's own bookkeeping. */
  ghost predicate Kept(p: Owned, w: World) {
    && (p.Pair? ==> p.wip != p.final)
    && (w.handled ==> DeletionSeen(w))
    && (FinalStored(p, w) ==> w.added)
    && (FinalStored(p, w) && !w.handled ==> w.stored.Present? && HasFinal(p, w.stored.meta.finalizers))
    && (EverStored(w, p.wip) && !w.handled ==> w.stored.Present? && Ours(p, w.stored.meta))
    && (forall i, j :: 0 <= i < j < |w.history| && Ours(p, w.history[i]) && !Ours(p, w.history[j])
          ==> w.history[j].deleting)
  }

  ghost predicate Inv(p: Owned, w: World) {
    Ordered(w) && Kept(p, w)
  }

  /** What every later world keeps of an earlier one: the rely of every watcher call. */
  ghost predicate Evolves(w: World, w': World) {
    && |w.history| <= |w'.history|
    && w'.history[..|w.history|] == w.history
    && (w.added ==> w'.added)
    && (w.handled ==> w'.handled)
  }

  lemma EvolvesTransitive(a: World, b: World, c: World)
    requires Evolves(a, b) && Evolves(b, c)
    ensures Evolves(a, c)
  {
  }

  /** The documents a step may append: derived from the stored one, never growing while deleting. */
  ghost predicate Successor(now: Meta, next: Meta) {
    && next.version == now.version + 1
    && (now.deleting ==> next.deleting && forall f :: f in next.finalizers ==> f in now.finalizers)
  }

  lemma StepKeepsOrder(w: World, now: Meta, next: Meta, w': World)
    requires Ordered(w) && w.stored == Present(now) && Successor(now, next)
    requires w'.history == w.history + [next]
    requires w'.stored == Gone || w'.stored == Present(next)
    ensures Ordered(w')
  {
  }

  /** An accepted patch was computed from the stored document, and makes its one edit. */
  lemma AcceptedBase(w: World, ops: seq<PatchOp>, base: Meta)
    requires Ordered(w) && Computed(w, ops, base) && Submit(w.stored, ops).1.Accepted?
    ensures w.stored == Present(base)
    ensures var next := Submit(w.stored, ops).1.meta;
      && Successor(base, next) && next.deleting == base.deleting
      && next.finalizers == ApplyOp(base, ops[0]).value.finalizers
      && Submit(w.stored, ops).0 == (if next.deleting && next.finalizers == [] then Gone else Present(next))
  {
    GuardMeansVersion(w.stored, ops, base);
    var i :| 0 <= i < |w.history| && w.history[i] == base;
    assert i == |w.history| - 1;
  }

  /** Whatever happens, the stored documents stay in order and the record only grows. */
  lemma PossibleKeepsOrder(w: World, s: Step)
    requires Ordered(w) && Possible(w, s)
    ensures Ordered(Next(w, s)) && Evolves(w, Next(w, s))
  {
    match s
    case OtherWrite(fs, g) =>
      StepKeepsOrder(w, w.stored.meta, w.stored.meta.(version := w.stored.meta.version + 1, finalizers := fs, generation := g), Next(w, s));
    case DeleteRequested(g) =>
      StepKeepsOrder(w, w.stored.meta, w.stored.meta.(version := w.stored.meta.version + 1, deleting := true, generation := g), Next(w, s));
    case Patched(ops) =>
      if Submit(w.stored, ops).1.Accepted? {
        var base :| base in w.history && Computed(w, ops, base);
        AcceptedBase(w, ops, base);
        StepKeepsOrder(w, base, Submit(w.stored, ops).1.meta, Next(w, s));
      }
    case _ =>
  }

  /** The document after one accepted patch: what the guard and the license leave of it. */
  lemma AcceptedPatch(p: Owned, w: World, ops: seq<PatchOp>)
    requires Ordered(w) && Enabled(p, w, Patched(ops))
    requires Submit(w.stored, ops).1.Accepted?
    ensures w.stored.Present?
    ensures var now := w.stored.meta; var next := Submit(w.stored, ops).1.meta;
      && Successor(now, next)
      && next.deleting == now.deleting
      && Licensed(p, w, now.finalizers, next.finalizers)
      && PatchFrom(p, w, ops, now)
      && Submit(w.stored, ops).0 == (if next.deleting && next.finalizers == [] then Gone else Present(next))
  {
    var base :| base in w.history && PatchFrom(p, w, ops, base);
    AcceptedBase(w, ops, base);
  }

  /** Storing a document keeps the pair's bookkeeping when it is licensed against the stored one. */
  lemma {:induction false} StoreKeepsPair(p: Owned, w: World, next: Meta, w': World)
    requires Inv(p, w) && w.stored.Present?
    requires Successor(w.stored.meta, next) && Licensed(p, w, w.stored.meta.finalizers, next.finalizers)
    requires w'.history == w.history + [next]
    requires w'.stored == (if next.deleting && next.finalizers == [] then Gone else Present(next))
    requires w'.added == w.added && w'.handled == w.handled
    ensures Inv(p, w') && Evolves(w, w')
  {
    StepKeepsOrder(w, w.stored.meta, next, w');
    if p.Pair? {
    }
    var n := |w.history|;
    forall i, j | 0 <= i < j < |w'.history| && Ours(p, w'.history[i]) && !Ours(p, w'.history[j])
      ensures w'.history[j].deleting
    {
      if j == n {
        assert w.history[i] == w'.history[i];
        assert EverStored(w, p.wip) || FinalStored(p, w);
        assert w'.handled;
        var d :| 0 <= d < |w.history| && w.history[d].deleting;
        assert w'.history[d].deleting;
      } else {
        assert w'.history[i] == w.history[i] && w'.history[j] == w.history[j];
      }
    }
  }

  /** Every legal step, of a watcher call or of another actor, keeps the invariant. */
  lemma {:induction false} StepKeepsInv(p: Owned, w: World, s: Step)
    requires Inv(p, w) && Enabled(p, w, s)
    ensures Inv(p, Next(w, s)) && Evolves(w, Next(w, s))
  {
    match s
    case OtherWrite(fs, g) =>
      StoreKeepsPair(p, w, w.stored.meta.(version := w.stored.meta.version + 1, finalizers := fs, generation := g), Next(w, s));
    case DeleteRequested(g) =>
      StoreKeepsPair(p, w, w.stored.meta.(version := w.stored.meta.version + 1, deleting := true, generation := g), Next(w, s));
    case Patched(ops) =>
      if Submit(w.stored, ops).1.Accepted? {
        AcceptedPatch(p, w, ops);
        StoreKeepsPair(p, w, Submit(w.stored, ops).1.meta, Next(w, s));
      }
    case AddSucceeded =>
      assert forall f :: EverStored(Next(w, s), f) == EverStored(w, f);
    case DeleteSucceeded =>
      assert forall f :: EverStored(Next(w, s), f) == EverStored(w, f);
    case _ =>
  }

  // ---- runs ----

  lemma {:induction false} RunKeepsInv(p: Owned, w: World, steps: seq<Step>)
    requires Initial(p, w) && Legal(p, w, steps)
    ensures Inv(p, Run(w, steps))
  {
    if steps != [] {
      RunKeepsInv(p, w, steps[..|steps| - 1]);
      StepKeepsInv(p, Run(w, steps[..|steps| - 1]), steps[|steps| - 1]);
    }
  }

  /** The two flags are exactly the occurrence of the two successes. */
  lemma {:induction false} FlagsMeanSteps(w: World, steps: seq<Step>)
    requires !w.added && !w.handled
    ensures Run(w, steps).added <==> AddSucceeded in steps
    ensures Run(w, steps).handled <==> DeleteSucceeded in steps
  {
    if steps != [] {
      var init, last := steps[..|steps| - 1], steps[|steps| - 1];
      FlagsMeanSteps(w, init);
      assert steps == init + [last];
    }
  }

  lemma {:induction false} LegalPrefix(p: Owned, w: World, steps: seq<Step>, k: nat)
    requires k <= |steps| && Legal(p, w, steps)
    ensures Legal(p, w, steps[..k])
    ensures k < |steps| ==> Enabled(p, Run(w, steps[..k]), steps[k])
  {
    if k == |steps| {
      assert steps[..k] == steps;
    } else {
      var init := steps[..|steps| - 1];
      LegalPrefix(p, w, init, k);
      assert init[..k] == steps[..k];
    }
  }

  lemma {:induction false} RunEvolves(p: Owned, w: World, steps: seq<Step>, k: nat)
    requires Initial(p, w) && Legal(p, w, steps) && k <= |steps|
    ensures Evolves(Run(w, steps[..k]), Run(w, steps))
  {
    if k == |steps| {
      assert steps[..k] == steps;
    } else {
      var init := steps[..|steps| - 1];
      assert init[..k] == steps[..k];
      RunEvolves(p, w, init, k);
      RunKeepsInv(p, w, init);
      StepKeepsInv(p, Run(w, init), steps[|steps| - 1]);
      EvolvesTransitive(Run(w, steps[..k]), Run(w, init), Run(w, steps));
    }
  }

  /** From the moment one of our finalizers has been stored, only a successful DeleteFunc lets go of the object. */
  lemma {:induction false} OnceStored(p: Owned, w: World, steps: seq<Step>, k: nat)
    requires Initial(p, w) && Legal(p, w, steps) && k <= |steps|
    requires EverStored(Run(w, steps[..k]), p.wip) || FinalStored(p, Run(w, steps[..k]))
    requires DeleteSucceeded !in steps
    ensures var end := Run(w, steps); end.stored.Present? && Ours(p, end.stored.meta)
  {
    RunKeepsInv(p, w, steps);
    RunEvolves(p, w, steps, k);
    FlagsMeanSteps(w, steps);
  }

  /**
    Main theorem. Whatever calls and actors interleave: if one of our finalizers
    was stored after k steps and no DeleteFunc has returned nil by the end, the
    object still exists and still carries one of them.
   */
  lemma {:induction false} DeleteNeverMissed(p: Owned, w: World, steps: seq<Step>, k: nat)
    requires Initial(p, w) && Legal(p, w, steps) && k <= |steps|
    requires var mid := Run(w, steps[..k]); mid.stored.Present? && Ours(p, mid.stored.meta)
    requires DeleteSucceeded !in steps
    ensures var end := Run(w, steps); end.stored.Present? && Ours(p, end.stored.meta)
  {
    var mid := Run(w, steps[..k]);
    LegalPrefix(p, w, steps, k);
    RunKeepsInv(p, w, steps[..k]);
    assert mid.history[|mid.history| - 1] == mid.stored.meta;
    OnceStored(p, w, steps, k);
  }

  /**
    An AddFunc call made once the in-progress finalizer has been stored is protected: from then
    on, whether it fails, succeeds or never returns, the object is there until a delete is handled.
   */
  lemma {:induction false} AddIsProtected(p: Owned, w: World, steps: seq<Step>, k: nat, j: nat)
    requires Initial(p, w) && Legal(p, w, steps) && k < j <= |steps|
    requires steps[k] == AddCalled && EverStored(Run(w, steps[..k]), p.wip)
    ensures var later := Run(w, steps[..j]);
      DeleteSucceeded in steps[..j] || (later.stored.Present? && Ours(p, later.stored.meta))
  {
    LegalPrefix(p, w, steps, j);
    assert steps[..j][..k] == steps[..k];
    if DeleteSucceeded !in steps[..j] {
      OnceStored(p, w, steps[..j], k);
    }
  }

  /** An object that carried one of ours and is gone has had a successful DeleteFunc call. */
  lemma {:induction false} VanishedMeansHandled(p: Owned, w: World, steps: seq<Step>, k: nat)
    requires Initial(p, w) && Legal(p, w, steps) && k <= |steps|
    requires var mid := Run(w, steps[..k]); mid.stored.Present? && Ours(p, mid.stored.meta)
    requires Run(w, steps).stored.Gone?
    ensures DeleteSucceeded in steps
  {
    if DeleteSucceeded !in steps {
      DeleteNeverMissed(p, w, steps, k);
    }
  }

  /** The final finalizer, SyncFunc and UpdateFunc all come after an AddFunc call that returned nil. */
  lemma {:induction false} NothingBeforeAdd(p: Owned, w: World, steps: seq<Step>, k: nat)
    requires Initial(p, w) && Legal(p, w, steps) && k < |steps|
    ensures steps[k] == SyncCalled || steps[k] == UpdateCalled ==> AddSucceeded in steps[..k]
    ensures var at := Run(w, steps[..k]);
      at.stored.Present? && HasFinal(p, at.stored.meta.finalizers) ==> AddSucceeded in steps[..k]
  {
    LegalPrefix(p, w, steps, k);
    FlagsMeanSteps(w, steps[..k]);
    RunKeepsInv(p, w, steps[..k]);
  }
}
