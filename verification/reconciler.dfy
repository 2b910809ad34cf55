/** OpinionatedReconciler.Reconcile on a cluster, and what the controller does with its result: retries that carry a state. */
module Reconciler {
  import opened Common
  import ApiServer
  import Protocol
  import Finalizers
  import RetryHeap

  datatype Action = Unknown | Created | Updated | Deleted | Resynced

  /** What an attempt sees of the object: the object is shared, and refreshed by finalizer patches between attempts. */
  datatype View = View(deleting: bool, finalizers: seq<string>)

  /** A value in a state map: the delegate's own, or the error of a finalizer patch. */
  datatype Note = Own(value: int) | PatchFailed(error: ApiServer.Error)

  /** A state map; None is nil. */
  type State = Option<map<string, Note>>

  /** An error of an attempt: the delegate's, or that of the finalizer patch. */
  datatype Failure = OfDelegate(code: int) | OfPatch(error: ApiServer.Error)

  datatype Request = Request(action: Action, view: View, state: State)

  datatype Result = Result(requeueAfter: Option<int>, state: State)

  /** What the delegate answers if it is called. */
  datatype Answer = Answer(result: Result, err: Option<int>)

  /** What the delegate and the finalizer patch answer if they are called. */
  datatype Outcome = Outcome(result: Result, err: Option<int>, patchErr: Option<ApiServer.Error>)

  datatype Edit = AddFinalizer | RemoveFinalizer

  /** The calls an attempt makes, in order: `clean` is no error and no requeue. */
  datatype Effect = Delegated(action: Action, clean: bool) | Patched(edit: Edit, ok: bool)

  const ADD_KEY := "grafana-app-sdk-opinionated-reconciler-create-patch-status"
  const REMOVE_KEY := "grafana-app-sdk-opinionated-reconciler-delete-patch-status"

  const NOTHING := Result(None, None)

  predicate Clean(o: Outcome) {
    o.err.None? && o.result.requeueAfter.None?
  }

  predicate Has(state: State, key: string) {
    state.Some? && key in state.value
  }

  function Put(state: State, key: string, value: Note): State {
    Some((if state.Some? then state.value else map[])[key := value])
  }

  function ViewOf(m: ApiServer.Meta): View {
    View(m.deleting, m.finalizers)
  }

  // ---- one attempt ----

  /** How a request is treated. */
  datatype Treatment = Ignore | Delete | Resync | Create | Adopt | Pass

  function TreatmentOf(finalizer: string, req: Request): Treatment {
    var ours := finalizer in req.view.finalizers;
    if req.action.Deleted? then Ignore
    else if req.view.deleting then if ours then Delete else Ignore
    else if req.action.Created? then if ours then Resync else Create
    else if req.action.Updated? && !ours then Adopt
    else Pass
  }

  /** What is delegated: a delete or create whose patch alone is being retried is not. */
  function Delegation(finalizer: string, req: Request): Option<Action> {
    match TreatmentOf(finalizer, req)
    case Ignore => None
    case Delete => if Has(req.state, REMOVE_KEY) then None else Some(Deleted)
    case Resync => Some(Resynced)
    case Create => if Has(req.state, ADD_KEY) then None else Some(Created)
    case Adopt => None
    case Pass => Some(req.action)
  }

  /** The finalizer edit due once nothing is left to delegate, with its state key. */
  function Finalizing(finalizer: string, req: Request): Option<(Edit, Option<string>)> {
    match TreatmentOf(finalizer, req)
    case Delete => Some((RemoveFinalizer, Some(REMOVE_KEY)))
    case Create => Some((AddFinalizer, Some(ADD_KEY)))
    case Adopt => Some((AddFinalizer, None))
    case _ => None
  }

  function Effects(finalizer: string, req: Request, o: Outcome): seq<Effect> {
    var d, f := Delegation(finalizer, req), Finalizing(finalizer, req);
    (if d.Some? then [Delegated(d.value, Clean(o))] else [])
    + (if f.Some? && (d.None? || Clean(o)) then [Patched(f.value.0, o.patchErr.None?)] else [])
  }

  function Response(finalizer: string, req: Request, o: Outcome): (Result, Option<Failure>) {
    var d, f := Delegation(finalizer, req), Finalizing(finalizer, req);
    var result := if d.Some? then o.result else NOTHING;
    if d.Some? && !Clean(o) then (result, if o.err.Some? then Some(OfDelegate(o.err.value)) else None)
    else if f.None? || o.patchErr.None? then (result, None)
    else
      var noted := if f.value.1.Some? then result.(state := Put(result.state, f.value.1.value, PatchFailed(o.patchErr.value))) else result;
      (noted, Some(OfPatch(o.patchErr.value)))
  }

  /**
    What the wrapped reconciler can rely on: it sees a delete only for a deleting object
    that waits for our finalizer, a create only for an object without it, a resync of
    an add only for one that has it, an update only for one that has it; and the
    finalizer is removed from deleting objects only and added to live ones only.
   */
  lemma DelegationFits(finalizer: string, req: Request, o: Outcome, e: Effect)
    requires e in Effects(finalizer, req, o)
    ensures var ours := finalizer in req.view.finalizers;
      match e
      case Delegated(a, _) =>
        && (a.Deleted? <==> req.view.deleting) && (a.Deleted? ==> ours)
        && (a.Created? ==> !ours) && (a.Updated? ==> ours) && (a.Resynced? && req.action.Created? ==> ours)
        && (a == req.action || a.Deleted? || (a.Resynced? && req.action.Created?))
      case Patched(edit, _) =>
        && (edit.RemoveFinalizer? <==> req.view.deleting) && (edit.RemoveFinalizer? <==> ours)
  {
  }

  /** The wrapped reconciler is called with action `a`, clean or not. */
  predicate Calls(es: seq<Effect>, a: Action) {
    Delegated(a, true) in es || Delegated(a, false) in es
  }

  predicate Edits(es: seq<Effect>, edit: Edit) {
    Patched(edit, true) in es || Patched(edit, false) in es
  }

  /** Exactly what the wrapped reconciler is called with, for every request. */
  lemma DelegatesExactly(finalizer: string, req: Request, o: Outcome)
    ensures var es, act, deleting, ours := Effects(finalizer, req, o), req.action, req.view.deleting, finalizer in req.view.finalizers;
      && (Calls(es, Deleted) <==> !act.Deleted? && deleting && ours && !Has(req.state, REMOVE_KEY))
      && (Calls(es, Created) <==> act.Created? && !deleting && !ours && !Has(req.state, ADD_KEY))
      && (Calls(es, Resynced) <==> (act.Resynced? || (act.Created? && ours)) && !deleting)
      && (Calls(es, Updated) <==> act.Updated? && !deleting && ours)
      && (Calls(es, Unknown) <==> act.Unknown? && !deleting)
      && (forall a, clean :: Delegated(a, clean) in es ==> clean == Clean(o))
  {
  }

  /** Exactly which edit of the finalizers is made: one at most, after the one call there may be. */
  lemma EditsExactly(finalizer: string, req: Request, o: Outcome)
    ensures var es, act, deleting, ours := Effects(finalizer, req, o), req.action, req.view.deleting, finalizer in req.view.finalizers;
      && (Edits(es, RemoveFinalizer) <==> !act.Deleted? && deleting && ours && (Has(req.state, REMOVE_KEY) || Clean(o)))
      && (Edits(es, AddFinalizer) <==>
            !deleting && !ours && (act.Updated? || (act.Created? && (Has(req.state, ADD_KEY) || Clean(o)))))
      && (forall edit, ok :: Patched(edit, ok) in es ==> ok == o.patchErr.None?)
      && |es| <= 2 && (|es| == 2 ==> es[0].Delegated? && es[1].Patched?)
  {
  }

  /**
    And what it returns: the wrapped reconciler's answer if it was called, and nothing if it was
    not; but for the error of a failed edit, which is noted under its key unless it followed no delegation.
   */
  lemma AnswerExactly(finalizer: string, req: Request, o: Outcome)
    ensures var es, (result, err) := Effects(finalizer, req, o), Response(finalizer, req, o);
      var called, edited := es != [] && es[0].Delegated?, es != [] && es[|es| - 1].Patched?;
      var given := if called then o.result else NOTHING;
      if edited && o.patchErr.Some? then
        var noted := Put(given.state, if req.view.deleting then REMOVE_KEY else ADD_KEY, PatchFailed(o.patchErr.value));
        && err == Some(OfPatch(o.patchErr.value)) && result.requeueAfter.None?
        && result.state == if req.action.Updated? && !req.view.deleting then None else noted
      else
        result == given && err == if called && o.err.Some? then Some(OfDelegate(o.err.value)) else None
  {
  }

  class OpinionatedReconciler {
    const client: Finalizers.Cluster
    const updater: Finalizers.Updater
    const finalizer: string
    /** Every delegation and every finalizer edit, in order. */
    var log: seq<Effect>

    constructor (c: Finalizers.Cluster)
      requires c.pair.Single?
      ensures client == c && log == [] && Wired()
    {
      client := c;
      updater := new Finalizers.Updater(c);
      finalizer := c.pair.wip;
      log := [];
    }

    ghost predicate Wired()
    {
      updater.client == client && client.pair.Single? && finalizer == client.pair.wip
    }

    /** The object is some stored document. */
    ghost predicate Ready(obj: Finalizers.Object)
      reads client, obj
    {
      Wired() && client.Valid() && obj.meta in client.world.history
    }

    /** A state says that a delete was delegated only if one was: the delegate has not planted the key itself. */
    ghost predicate Honest(state: State)
      reads client
    {
      Has(state, REMOVE_KEY) ==> client.world.handled
    }

    /** wrappedReconcile. A delegated delete that returns clean is the protocol's handled delete. */
    method WrappedReconcile(action: Action, obj: Finalizers.Object, a: Answer) returns (result: Result, err: Option<int>)
      requires Ready(obj)
      requires action.Deleted? ==> obj.meta.deleting && finalizer in obj.meta.finalizers
      modifies client, this
      ensures Ready(obj) && Protocol.Evolves(old(client.world), client.world) && old(client.steps) <= client.steps
      ensures old(client.Lawful()) ==> client.Lawful()
      ensures log == old(log) + [Delegated(action, a.err.None? && a.result.requeueAfter.None?)]
      ensures (result, err) == (a.result, a.err)
      ensures action.Deleted? && a.err.None? && a.result.requeueAfter.None? ==>
        client.world.handled && Protocol.DeleteSucceeded in client.steps[|old(client.steps)|..]
    {
      log := log + [Delegated(action, a.err.None? && a.result.requeueAfter.None?)];
      if action.Deleted? {
        client.Call(Protocol.DeleteCalled);
      } else {
        client.Interfere();
      }
      ghost var w1 := client.world;
      if action.Deleted? && a.err.None? && a.result.requeueAfter.None? {
        client.Take(Protocol.DeleteSucceeded);
        Protocol.EvolvesTransitive(old(client.world), w1, client.world);
        assert client.steps[|client.steps| - 1] == Protocol.DeleteSucceeded;
      }
      return a.result, a.err;
    }

    /** The finalizer updater's add or remove. */
    method Patch(edit: Edit, obj: Finalizers.Object) returns (err: Option<ApiServer.Error>)
      requires Ready(obj)
      modifies client, this, obj
      ensures Ready(obj) && Protocol.Evolves(old(client.world), client.world) && old(client.steps) <= client.steps
      ensures old(client.Lawful() && (edit.RemoveFinalizer? ==> client.world.handled)) ==> client.Lawful()
      ensures log == old(log) + [Patched(edit, err.None?)]
      ensures err.None? ==> (finalizer in obj.meta.finalizers <==> edit.AddFinalizer?)
    {
      ghost var tries, base, wrote;
      if edit.AddFinalizer? {
        err, tries, base, wrote := updater.AddFinalizer(obj, finalizer);
      } else {
        err, tries, base, wrote := updater.RemoveFinalizer(obj, finalizer);
      }
      log := log + [Patched(edit, err.None?)];
    }

    /** What an attempt guarantees besides its calls: its deletes and edits really happened in the world. */
    ghost predicate Done(es: seq<Effect>, steps: seq<Protocol.Step>, obj: Finalizers.Object)
      reads obj
    {
      && (Delegated(Deleted, true) in es ==> Protocol.DeleteSucceeded in steps)
      && (Patched(RemoveFinalizer, true) in es ==> finalizer !in obj.meta.finalizers)
      && (Patched(AddFinalizer, true) in es ==> finalizer in obj.meta.finalizers)
    }

    method Reconcile(action: Action, obj: Finalizers.Object, state: State, a: Answer)
      returns (result: Result, err: Option<Failure>, ghost o: Outcome)
      requires Ready(obj)
      modifies client, this, obj
      ensures Ready(obj) && Protocol.Evolves(old(client.world), client.world) && old(client.steps) <= client.steps
      ensures o.result == a.result && o.err == a.err
      ensures var req := Request(action, ViewOf(old(obj.meta)), state);
        && log == old(log) + Effects(finalizer, req, o)
        && (result, err) == Response(finalizer, req, o)
        && Done(Effects(finalizer, req, o), client.steps[|old(client.steps)|..], obj)
      ensures old(client.Lawful() && Honest(state)) ==> client.Lawful()
      ensures old(Honest(state)) ==>
        && Honest(state)
        && (Patched(RemoveFinalizer, true) in Effects(finalizer, Request(action, ViewOf(old(obj.meta)), state), o) ==> client.world.handled)
        && (!Has(a.result.state, REMOVE_KEY) ==> Honest(result.state))
    {
      o := Outcome(a.result, a.err, None);
      if action == Deleted {
        Protocol.EvolvesTransitive(client.world, client.world, client.world);
        return NOTHING, None, o;
      }
      if obj.meta.deleting && finalizer in obj.meta.finalizers {
        ghost var req := Request(action, ViewOf(obj.meta), state);
        var patchErr;
        result, err, patchErr := ReconcileDelete(obj, state, a);
        o := o.(patchErr := patchErr);
        return;
      }
      if obj.meta.deleting {
        Protocol.EvolvesTransitive(client.world, client.world, client.world);
        return NOTHING, None, o;
      }
      result, err, o := ReconcileLive(action, obj, state, a);
    }

    /** The rest of Reconcile, for an object that is not being deleted. */
    method ReconcileLive(action: Action, obj: Finalizers.Object, state: State, a: Answer)
      returns (result: Result, err: Option<Failure>, ghost o: Outcome)
      requires Ready(obj) && action != Deleted && !obj.meta.deleting
      modifies client, this, obj
      ensures Ready(obj) && Protocol.Evolves(old(client.world), client.world) && old(client.steps) <= client.steps
      ensures o.result == a.result && o.err == a.err
      ensures var req := Request(action, ViewOf(old(obj.meta)), state);
        && log == old(log) + Effects(finalizer, req, o)
        && (result, err) == Response(finalizer, req, o)
        && Done(Effects(finalizer, req, o), client.steps[|old(client.steps)|..], obj)
      ensures old(client.Lawful()) ==> client.Lawful()
      ensures Has(result.state, REMOVE_KEY) ==> Has(a.result.state, REMOVE_KEY)
    {
      o := Outcome(a.result, a.err, None);
      var code: Option<int>;
      if action == Created && finalizer in obj.meta.finalizers {
        result, code := WrappedReconcile(Resynced, obj, a);
        return result, Coded(code), o;
      }
      if action == Created {
        ghost var req := Request(action, ViewOf(obj.meta), state);
        var patchErr;
        result, err, patchErr := ReconcileCreate(obj, state, a);
        o := o.(patchErr := patchErr);
        return;
      }
      if action == Updated && finalizer !in obj.meta.finalizers {
        var patchErr := Patch(AddFinalizer, obj);
        return NOTHING, if patchErr.Some? then Some(OfPatch(patchErr.value)) else None, o.(patchErr := patchErr);
      }
      result, code := WrappedReconcile(action, obj, a);
      return result, Coded(code), o;
    }

    /** The branch for a deleting object that waits for our finalizer. */
    method ReconcileDelete(obj: Finalizers.Object, state: State, a: Answer)
      returns (result: Result, err: Option<Failure>, patchErr: Option<ApiServer.Error>)
      requires Ready(obj) && obj.meta.deleting && finalizer in obj.meta.finalizers
      modifies client, this, obj
      ensures Ready(obj) && Protocol.Evolves(old(client.world), client.world) && old(client.steps) <= client.steps
      ensures var clean := a.err.None? && a.result.requeueAfter.None?;
        if Has(state, REMOVE_KEY) then
          && log == old(log) + [Patched(RemoveFinalizer, patchErr.None?)]
          && (result, err) == NotedResult(NOTHING, REMOVE_KEY, patchErr)
        else if !clean then
          log == old(log) + [Delegated(Deleted, false)] && (result, err) == (a.result, Coded(a.err)) && patchErr.None?
        else
          && log == old(log) + [Delegated(Deleted, true), Patched(RemoveFinalizer, patchErr.None?)]
          && (result, err) == NotedResult(a.result, REMOVE_KEY, patchErr)
          && Protocol.DeleteSucceeded in client.steps[|old(client.steps)|..]
      ensures old(client.Lawful() && Honest(state)) ==> client.Lawful()
      ensures Has(state, REMOVE_KEY) || (a.err.None? && a.result.requeueAfter.None?) ==>
        (old(Honest(state)) ==> client.world.handled) && (patchErr.None? ==> finalizer !in obj.meta.finalizers)
    {
      result := NOTHING;
      if !Has(state, REMOVE_KEY) {
        var code;
        result, code := WrappedReconcile(Deleted, obj, a);
        if code.Some? || result.requeueAfter.Some? {
          return result, Coded(code), None;
        }
      } else {
        Protocol.EvolvesTransitive(client.world, client.world, client.world);
      }
      ghost var w := client.world;
      patchErr := Patch(RemoveFinalizer, obj);
      Protocol.EvolvesTransitive(old(client.world), w, client.world);
      if patchErr.Some? {
        result := result.(state := Put(result.state, REMOVE_KEY, PatchFailed(patchErr.value)));
        err := Some(OfPatch(patchErr.value));
      } else {
        err := None;
      }
    }

    /** The branch for a created object without our finalizer. */
    method ReconcileCreate(obj: Finalizers.Object, state: State, a: Answer)
      returns (result: Result, err: Option<Failure>, patchErr: Option<ApiServer.Error>)
      requires Ready(obj)
      modifies client, this, obj
      ensures Ready(obj) && Protocol.Evolves(old(client.world), client.world) && old(client.steps) <= client.steps
      ensures var clean := a.err.None? && a.result.requeueAfter.None?;
        if Has(state, ADD_KEY) then
          && log == old(log) + [Patched(AddFinalizer, patchErr.None?)]
          && (result, err) == NotedResult(NOTHING, ADD_KEY, patchErr)
        else if !clean then
          log == old(log) + [Delegated(Created, false)] && (result, err) == (a.result, Coded(a.err)) && patchErr.None?
        else
          && log == old(log) + [Delegated(Created, true), Patched(AddFinalizer, patchErr.None?)]
          && (result, err) == NotedResult(a.result, ADD_KEY, patchErr)
      ensures old(client.Lawful()) ==> client.Lawful()
      ensures (Has(state, ADD_KEY) || (a.err.None? && a.result.requeueAfter.None?)) && patchErr.None? ==>
        finalizer in obj.meta.finalizers
    {
      result := NOTHING;
      if !Has(state, ADD_KEY) {
        var code;
        result, code := WrappedReconcile(Created, obj, a);
        if code.Some? || result.requeueAfter.Some? {
          return result, Coded(code), None;
        }
      } else {
        Protocol.EvolvesTransitive(client.world, client.world, client.world);
      }
      ghost var w := client.world;
      patchErr := Patch(AddFinalizer, obj);
      Protocol.EvolvesTransitive(old(client.world), w, client.world);
      if patchErr.Some? {
        result := result.(state := Put(result.state, ADD_KEY, PatchFailed(patchErr.value)));
        err := Some(OfPatch(patchErr.value));
      } else {
        err := None;
      }
    }
  }

  function Coded(code: Option<int>): Option<Failure> {
    if code.Some? then Some(OfDelegate(code.value)) else None
  }

  /** A result after a finalizer patch: a failed one is noted under its key and returned. */
  function NotedResult(result: Result, key: string, patchErr: Option<ApiServer.Error>): (Result, Option<Failure>) {
    if patchErr.None? then (result, None)
    else (result.(state := Put(result.state, key, PatchFailed(patchErr.value))), Some(OfPatch(patchErr.value)))
  }

  // ---- an event and its retries ----

  /** The state every retry of an event carries: only the first attempt's result can set it. */
  function Carried(finalizer: string, req: Request, o: Outcome): State {
    var result := Response(finalizer, req, o).0;
    if result.state.Some? then result.state else req.state
  }

  /** A queued retry: what its closure holds besides the object, and the delay. */
  datatype Retry = Retry(action: Action, state: State, after: int)

  /** A retry policy, for an error and an attempt number. */
  type Policy = Option<(Failure, nat) -> Option<int>>

  function Queued(finalizer: string, policy: Policy, req: Request, o: Outcome): Option<Retry> {
    var (result, err) := Response(finalizer, req, o);
    var state := Carried(finalizer, req, o);
    if result.requeueAfter.Some? then Some(Retry(req.action, state, result.requeueAfter.value))
    else if err.None? || policy.None? then None
    else
      var after := policy.value(err.value, 0);
      if after.Some? then Some(Retry(req.action, state, after.value)) else None
  }

  /**
    Exactly which retry an event queues: one after the delay the wrapped reconciler asks for, else
    one after the delay the policy gives for the error at attempt 0; with the state returned, if any.
   */
  lemma QueuedExactly(finalizer: string, policy: Policy, req: Request, o: Outcome)
    ensures var (result, err) := Response(finalizer, req, o);
      var called := Effects(finalizer, req, o) != [] && Effects(finalizer, req, o)[0].Delegated?;
      match Queued(finalizer, policy, req, o) {
        case Some(retry) =>
          && retry.action == req.action
          && (result.state.Some? ==> retry.state == result.state) && (result.state.None? ==> retry.state == req.state)
          && if called && o.result.requeueAfter.Some? then retry.after == o.result.requeueAfter.value
             else err.Some? && policy.Some? && policy.value(err.value, 0) == Some(retry.after)
        case None =>
          && !(called && o.result.requeueAfter.Some?)
          && (err.Some? && policy.Some? ==> policy.value(err.value, 0).None?)
      }
  {
    AnswerExactly(finalizer, req, o);
  }

  /** doReconcile, with queueRetry: the first attempt of an event. The retry's state can be relied on unless the delegate planted the key. */
  method DoReconcile(reconciler: OpinionatedReconciler, policy: Policy, action: Action, obj: Finalizers.Object, state: State, a: Answer)
    returns (retry: Option<Retry>, ghost o: Outcome)
    requires reconciler.Ready(obj)
    modifies reconciler, reconciler.client, obj
    ensures o.result == a.result && o.err == a.err
    ensures var req := Request(action, ViewOf(old(obj.meta)), state);
      && reconciler.log == old(reconciler.log) + Effects(reconciler.finalizer, req, o)
      && retry == Queued(reconciler.finalizer, policy, req, o)
    ensures reconciler.Ready(obj)
    ensures old(reconciler.client.Lawful() && reconciler.Honest(state)) ==> reconciler.client.Lawful()
    ensures old(reconciler.Honest(state)) && retry.Some? && !Has(a.result.state, REMOVE_KEY) ==> reconciler.Honest(retry.value.state)
  {
    var result, err, carried := NOTHING, None, state;
    result, err, o := reconciler.Reconcile(action, obj, state, a);
    if result.state.Some? {
      carried := result.state;
    }
    if result.requeueAfter.Some? {
      return Some(Retry(action, carried, result.requeueAfter.value)), o;
    }
    if err.Some? && policy.Some? {
      var after := policy.value(err.value, 0);
      if after.Some? {
        return Some(Retry(action, carried, after.value)), o;
      }
    }
    return None, o;
  }

  /** A queued retry's function, on the object as it is by then: whatever state this attempt returns is dropped. */
  method RetryFunc(reconciler: OpinionatedReconciler, retry: Retry, obj: Finalizers.Object, a: Answer)
    returns (requeueAfter: Option<int>, err: Option<Failure>, ghost o: Outcome)
    requires reconciler.Ready(obj)
    modifies reconciler, reconciler.client, obj
    ensures o.result == a.result && o.err == a.err && reconciler.Ready(obj)
    ensures old(reconciler.client.Lawful() && reconciler.Honest(retry.state)) ==> reconciler.client.Lawful()
    ensures old(reconciler.Honest(retry.state)) ==> reconciler.Honest(retry.state)
    ensures var req := Request(retry.action, ViewOf(old(obj.meta)), retry.state);
      && reconciler.log == old(reconciler.log) + Effects(reconciler.finalizer, req, o)
      && requeueAfter == Response(reconciler.finalizer, req, o).0.requeueAfter
      && err == Response(reconciler.finalizer, req, o).1
  {
    var result: Result;
    result, err, o := reconciler.Reconcile(retry.action, obj, retry.state, a);
    return result.requeueAfter, err, o;
  }

  datatype Attempt = Attempt(view: View, outcome: Outcome)

  function RetryRequest(finalizer: string, req: Request, o: Outcome, view: View): Request {
    Request(req.action, view, Carried(finalizer, req, o))
  }

  /** The effects of an event: those of the first attempt, then those of each retry, whatever the object looks like by then. */
  function Log(finalizer: string, req: Request, o: Outcome, retries: seq<Attempt>): seq<Effect> {
    if retries == [] then Effects(finalizer, req, o)
    else
      var last := retries[|retries| - 1];
      Log(finalizer, req, o, retries[..|retries| - 1])
      + Effects(finalizer, RetryRequest(finalizer, req, o, last.view), last.outcome)
  }

  /** The state key by which a retry knows that this action has been delegated. */
  function KeyOf(a: Action): string {
    if a.Deleted? then REMOVE_KEY else ADD_KEY
  }

  /** The first attempt delegated `a`, which went well, and only the finalizer patch failed. */
  predicate OnlyPatchFailed(finalizer: string, req: Request, o: Outcome, a: Action) {
    Delegation(finalizer, req) == Some(a) && Clean(o) && o.patchErr.Some?
  }

  /** Exactly when a retry that finds the object as the first attempt did delegates the same create or delete again. */
  lemma RetryDelegatesAgainIff(finalizer: string, req: Request, o: Outcome, a: Action)
    requires (a.Created? || a.Deleted?) && Delegation(finalizer, req) == Some(a)
    ensures Delegation(finalizer, RetryRequest(finalizer, req, o, req.view)) == Some(a) <==>
            !(OnlyPatchFailed(finalizer, req, o, a) || Has(o.result.state, KeyOf(a)))
  {
  }

  /** How often the delegated action went well. */
  function Successes(log: seq<Effect>, a: Action): nat {
    multiset(log)[Delegated(a, true)]
  }

  lemma SuccessesAdd(x: seq<Effect>, y: seq<Effect>, a: Action)
    ensures Successes(x + y, a) == Successes(x, a) + Successes(y, a)
  {
    assert multiset(x + y) == multiset(x) + multiset(y);
  }

  // ---- which retries the queue makes ----

  /** The attempt number after attempt `n`: an explicit requeue keeps it, a failure asks the policy about the next. None: no retry follows. */
  function Following(policy: Policy, n: nat, requeueAfter: Option<int>, err: Option<Failure>): Option<nat> {
    if requeueAfter.Some? then Some(n)
    else if err.Some? && policy.Some? && policy.value(err.value, n + 1).Some? then Some(n + 1)
    else None
  }

  /** That is what the retry processor does, however it encodes errors. */
  lemma FollowingIsChild(policy: Policy, processor: RetryHeap.Policy, code: Failure -> int, n: nat,
                         requeueAfter: Option<int>, err: Option<Failure>, req: RetryHeap.Retry, now: int)
    requires policy.Some? <==> processor.Some?
    requires policy.Some? ==> forall f, k: nat :: processor.value(code(f), k) == policy.value(f, k)
    requires req.attempt == n
    ensures var child := RetryHeap.Child(RetryHeap.Result(req, requeueAfter, if err.Some? then Some(code(err.value)) else None), processor, now);
      match Following(policy, n, requeueAfter, err) {
        case None => child.None?
        case Some(m) => child.Some? && child.value.attempt == m && child.value.func == req.func
      }
  {
  }

  /** The attempt number of the retry that waits once these have run; None if none does. */
  function Waiting(finalizer: string, policy: Policy, req: Request, o: Outcome, retries: seq<Attempt>): Option<nat> {
    if retries == [] then if Queued(finalizer, policy, req, o).Some? then Some(0) else None
    else
      var last := retries[|retries| - 1];
      match Waiting(finalizer, policy, req, o, retries[..|retries| - 1])
      case None => None
      case Some(n) =>
        var (result, err) := Response(finalizer, RetryRequest(finalizer, req, o, last.view), last.outcome);
        Following(policy, n, result.requeueAfter, err)
  }

  /** The queue makes all of these retries: each was waiting when it ran. */
  predicate Made(finalizer: string, policy: Policy, req: Request, o: Outcome, retries: seq<Attempt>) {
    retries == [] || Waiting(finalizer, policy, req, o, retries[..|retries| - 1]).Some?
  }

  lemma {:induction false} MadeMeansQueued(finalizer: string, policy: Policy, req: Request, o: Outcome, retries: seq<Attempt>)
    requires Waiting(finalizer, policy, req, o, retries).Some?
    ensures Queued(finalizer, policy, req, o).Some?
  {
    if retries != [] {
      MadeMeansQueued(finalizer, policy, req, o, retries[..|retries| - 1]);
    }
  }

  ghost predicate RetriesFailure(policy: Policy, k: nat) {
    policy.Some? && exists c :: policy.value(OfDelegate(c), k).Some?
  }

  /** Failures of the delegate alone may lead to attempt `n`. */
  ghost predicate FailuresReach(policy: Policy, n: nat) {
    forall k :: 1 <= k <= n ==> RetriesFailure(policy, k)
  }

  /** At some attempt that can be reached the policy retries a failed finalizer patch. */
  ghost predicate RetriesAPatch(policy: Policy) {
    policy.Some? && exists n: nat, e :: FailuresReach(policy, n) && policy.value(OfPatch(e), n + 1).Some?
  }

  /** Exponential backoff does so unless it allows no attempt after the first retry. */
  lemma BackoffRetriesAPatchIff(maxAttempts: int, delay: int -> int)
    ensures RetriesAPatch(Some((_: Failure, attempt: nat) => if attempt > maxAttempts then None else Some(delay(attempt)))) <==>
            maxAttempts >= 1
  {
    var policy: Policy := Some((_: Failure, attempt: nat) => if attempt > maxAttempts then None else Some(delay(attempt)));
    if maxAttempts >= 1 {
      assert FailuresReach(policy, 0) && policy.value(OfPatch(ApiServer.Transport), 0 + 1).Some?;
    }
  }

  /** The delegated action goes well at most once over the event, whichever retries the queue makes of it. */
  ghost predicate SucceedsAtMostOnce(finalizer: string, policy: Policy, req: Request, o: Outcome, a: Action) {
    forall retries :: Made(finalizer, policy, req, o, retries) ==> Successes(Log(finalizer, req, o, retries), a) <= 1
  }

  /** An attempt delegates at most once, and only what its request calls for. */
  lemma DelegatesAtMostOnce(finalizer: string, req: Request, o: Outcome, a: Action)
    ensures Successes(Effects(finalizer, req, o), a) <= if Delegation(finalizer, req) == Some(a) then 1 else 0
  {
    var d, f := Delegation(finalizer, req), Finalizing(finalizer, req);
    var first := if d.Some? then [Delegated(d.value, Clean(o))] else [];
    var second := if f.Some? && (d.None? || Clean(o)) then [Patched(f.value.0, o.patchErr.None?)] else [];
    assert Effects(finalizer, req, o) == first + second;
  }

  lemma RetryBarred(finalizer: string, req: Request, o: Outcome, view: View, a: Action)
    requires (a.Created? || a.Deleted?) && Delegation(finalizer, req) == Some(a)
    requires OnlyPatchFailed(finalizer, req, o, a) || Has(o.result.state, KeyOf(a))
    ensures Delegation(finalizer, RetryRequest(finalizer, req, o, view)) != Some(a)
  {
  }

  lemma {:induction false} NeverAgain(finalizer: string, req: Request, o: Outcome, retries: seq<Attempt>, a: Action)
    requires (a.Created? || a.Deleted?) && Delegation(finalizer, req) == Some(a)
    requires OnlyPatchFailed(finalizer, req, o, a) || Has(o.result.state, KeyOf(a))
    ensures Successes(Log(finalizer, req, o, retries), a) <= 1
  {
    if retries == [] {
      DelegatesAtMostOnce(finalizer, req, o, a);
    } else {
      var init, last := retries[..|retries| - 1], retries[|retries| - 1];
      var retry := RetryRequest(finalizer, req, o, last.view);
      NeverAgain(finalizer, req, o, init, a);
      RetryBarred(finalizer, req, o, last.view, a);
      DelegatesAtMostOnce(finalizer, retry, last.outcome, a);
    }
  }

  /** A first attempt that did not go well: without retried patches nothing is retried after the first success. */
  lemma {:induction false} NothingAfterSuccess(finalizer: string, policy: Policy, req: Request, o: Outcome, retries: seq<Attempt>, a: Action)
    requires (a.Created? || a.Deleted?) && Delegation(finalizer, req) == Some(a) && !Clean(o)
    requires !RetriesAPatch(policy) && Made(finalizer, policy, req, o, retries)
    ensures Successes(Log(finalizer, req, o, retries), a) <= 1
    ensures var n := Waiting(finalizer, policy, req, o, retries);
      n.Some? ==> FailuresReach(policy, n.value) && Successes(Log(finalizer, req, o, retries), a) == 0
  {
    if retries != [] {
      var init, last := retries[..|retries| - 1], retries[|retries| - 1];
      var retry := RetryRequest(finalizer, req, o, last.view);
      assert Made(finalizer, policy, req, o, init);
      NothingAfterSuccess(finalizer, policy, req, o, init, a);
      var n := Waiting(finalizer, policy, req, o, init).value;
      OneRetry(finalizer, policy, retry, last.outcome, n, a);
    }
  }

  /** One retry at a reachable attempt: a success is followed by a patch, whose failure is not retried. */
  lemma OneRetry(finalizer: string, policy: Policy, req: Request, o: Outcome, n: nat, a: Action)
    requires (a.Created? || a.Deleted?) && !RetriesAPatch(policy) && FailuresReach(policy, n)
    ensures Successes(Effects(finalizer, req, o), a) <= 1
    ensures var (result, err) := Response(finalizer, req, o);
      var m := Following(policy, n, result.requeueAfter, err);
      m.Some? ==> FailuresReach(policy, m.value) && Successes(Effects(finalizer, req, o), a) == 0
  {
    DelegatesAtMostOnce(finalizer, req, o, a);
    var (result, err) := Response(finalizer, req, o);
    if Following(policy, n, result.requeueAfter, err) == Some(n + 1) {
      assert err.value.OfDelegate?;
      assert policy.value(OfDelegate(err.value.code), n + 1).Some? && RetriesFailure(policy, n + 1);
    }
  }

  /** Retries that find the object unchanged while the delegate fails, up to attempt `n`. */
  lemma {:induction false} FailingRetries(finalizer: string, policy: Policy, req: Request, o: Outcome, n: nat, a: Action)
    returns (retries: seq<Attempt>)
    requires (a.Created? || a.Deleted?) && Queued(finalizer, policy, req, o).Some? && FailuresReach(policy, n)
    requires Delegation(finalizer, RetryRequest(finalizer, req, o, req.view)) == Some(a)
    ensures Waiting(finalizer, policy, req, o, retries) == Some(n)
  {
    if n == 0 {
      return [];
    }
    var init := FailingRetries(finalizer, policy, req, o, n - 1, a);
    assert RetriesFailure(policy, n);
    var c :| policy.value(OfDelegate(c), n).Some?;
    retries := init + [Attempt(req.view, Outcome(NOTHING, Some(c), None))];
    assert retries[..|retries| - 1] == init;
  }

  /** Then one whose patch fails and is retried, and one more: both delegations go well. */
  lemma {:induction false} SucceedsTwice(finalizer: string, policy: Policy, req: Request, o: Outcome, a: Action) returns (retries: seq<Attempt>)
    requires (a.Created? || a.Deleted?) && Queued(finalizer, policy, req, o).Some? && RetriesAPatch(policy)
    requires Delegation(finalizer, RetryRequest(finalizer, req, o, req.view)) == Some(a)
    ensures Made(finalizer, policy, req, o, retries) && Successes(Log(finalizer, req, o, retries), a) >= 2
  {
    var n: nat, e :| FailuresReach(policy, n) && policy.value(OfPatch(e), n + 1).Some?;
    var init := FailingRetries(finalizer, policy, req, o, n, a);
    var again := Attempt(req.view, Outcome(NOTHING, None, Some(e)));
    var mid := init + [again];
    retries := mid + [again];
    UnpatchedSuccess(finalizer, RetryRequest(finalizer, req, o, again.view), e, a);
    OneMore(finalizer, policy, req, o, init, again, a);
    assert Following(policy, n, None, Some(OfPatch(e))) == Some(n + 1);
    assert Waiting(finalizer, policy, req, o, mid) == Some(n + 1);
    OneMore(finalizer, policy, req, o, mid, again, a);
  }

  /** What one more retry adds to an event's log, and to whether another follows. */
  lemma OneMore(finalizer: string, policy: Policy, req: Request, o: Outcome, init: seq<Attempt>, x: Attempt, a: Action)
    ensures var retries, retry := init + [x], RetryRequest(finalizer, req, o, x.view);
      && Successes(Log(finalizer, req, o, retries), a) ==
           Successes(Log(finalizer, req, o, init), a) + Successes(Effects(finalizer, retry, x.outcome), a)
      && retries[..|retries| - 1] == init
      && Waiting(finalizer, policy, req, o, retries) == match Waiting(finalizer, policy, req, o, init) {
           case None => None
           case Some(n) =>
             var (result, err) := Response(finalizer, retry, x.outcome);
             Following(policy, n, result.requeueAfter, err)
         }
  {
    assert (init + [x])[..|init|] == init;
    SuccessesAdd(Log(finalizer, req, o, init), Effects(finalizer, RetryRequest(finalizer, req, o, x.view), x.outcome), a);
  }

  lemma UnpatchedSuccess(finalizer: string, req: Request, e: ApiServer.Error, a: Action)
    requires (a.Created? || a.Deleted?) && Delegation(finalizer, req) == Some(a)
    ensures var o := Outcome(NOTHING, None, Some(e));
      && Successes(Effects(finalizer, req, o), a) == 1
      && Response(finalizer, req, o).0.requeueAfter.None? && Response(finalizer, req, o).1 == Some(OfPatch(e))
  {
    var o := Outcome(NOTHING, None, Some(e));
    assert Effects(finalizer, req, o)[0] == Delegated(a, true);
    DelegatesAtMostOnce(finalizer, req, o, a);
  }

  /**
    Main theorem, exact. Over an event and whatever retries the queue makes of it, a create or
    delete goes well at most once if and only if no retry is queued, or it went well at the
    first attempt, so that only the patch failed, or the delegate returned a state with the
    private key, or the policy never retries a failed patch.
   */
  lemma {:induction false} SucceedsOnceIff(finalizer: string, policy: Policy, req: Request, o: Outcome, a: Action)
    requires (a.Created? || a.Deleted?) && Delegation(finalizer, req) == Some(a)
    ensures SucceedsAtMostOnce(finalizer, policy, req, o, a) <==>
            || Queued(finalizer, policy, req, o).None?
            || OnlyPatchFailed(finalizer, req, o, a) || Has(o.result.state, KeyOf(a))
            || !RetriesAPatch(policy)
  {
    RetryDelegatesAgainIff(finalizer, req, o, a);
    var queued := Queued(finalizer, policy, req, o).Some?;
    if queued && !OnlyPatchFailed(finalizer, req, o, a) && !Has(o.result.state, KeyOf(a)) && RetriesAPatch(policy) {
      var retries := SucceedsTwice(finalizer, policy, req, o, a);
    } else {
      forall retries | Made(finalizer, policy, req, o, retries) ensures Successes(Log(finalizer, req, o, retries), a) <= 1 {
        if retries == [] {
          DelegatesAtMostOnce(finalizer, req, o, a);
        } else if OnlyPatchFailed(finalizer, req, o, a) || Has(o.result.state, KeyOf(a)) {
          NeverAgain(finalizer, req, o, retries, a);
        } else {
          MadeMeansQueued(finalizer, policy, req, o, retries[..|retries| - 1]);
          NothingAfterSuccess(finalizer, policy, req, o, retries, a);
        }
      }
    }
  }

  /**
    Main theorem. If the first delegated create or delete succeeds and only the
    finalizer patch fails, no retry delegates that action again, whatever later
    attempts find and whatever they are answered.
   */
  lemma {:induction false} DelegatedOnce(finalizer: string, req: Request, o: Outcome, retries: seq<Attempt>, a: Action)
    requires (a.Created? || a.Deleted?) && OnlyPatchFailed(finalizer, req, o, a)
    ensures var log := Log(finalizer, req, o, retries);
      && |log| >= 2 && log[0] == Delegated(a, true)
      && forall n :: 1 <= n < |log| && log[n].Delegated? ==> log[n].action != a
  {
    if retries != [] {
      DelegatedOnce(finalizer, req, o, retries[..|retries| - 1], a);
      var last := retries[|retries| - 1];
      RetryBarred(finalizer, req, o, last.view, a);
    }
  }

  /**
    Main theorem. Over an event and all its retries the finalizer is removed only
    after a delegated delete has returned without error or requeue, and for a create
    event it is added only after a delegated create has.
   */
  lemma {:induction false} EditedOnlyAfterDelegate(finalizer: string, req: Request, o: Outcome, retries: seq<Attempt>, n: nat)
    requires req.state.None? && !Has(o.result.state, ADD_KEY) && !Has(o.result.state, REMOVE_KEY)
    requires n < |Log(finalizer, req, o, retries)| && Log(finalizer, req, o, retries)[n].Patched?
    ensures var log := Log(finalizer, req, o, retries);
      && (log[n].edit.RemoveFinalizer? ==> Delegated(Deleted, true) in log[..n])
      && (log[n].edit.AddFinalizer? && req.action.Created? ==> Delegated(Created, true) in log[..n])
  {
    var log := Log(finalizer, req, o, retries);
    if retries == [] {
      if req.action.Created? || log[n].edit.RemoveFinalizer? {
        assert n == 1 ==> log[0] in log[..n];
      }
    } else {
      var init, last := retries[..|retries| - 1], retries[|retries| - 1];
      var before := Log(finalizer, req, o, init);
      var retry := RetryRequest(finalizer, req, o, last.view);
      if n < |before| {
        EditedOnlyAfterDelegate(finalizer, req, o, init, n);
        assert log[..n] == before[..n];
      } else if req.action.Created? || log[n].edit.RemoveFinalizer? {
        var a := if log[n].edit.RemoveFinalizer? then Deleted else Created;
        if n == |before| {
          CarriedKey(finalizer, req, o, init, a);
          assert log[..n] == before;
        } else {
          assert log[|before|] in log[..n];
        }
      }
    }
  }

  /** A key in the carried state is the trace of a good delegation by the first attempt. */
  lemma {:induction false} CarriedKey(finalizer: string, req: Request, o: Outcome, retries: seq<Attempt>, a: Action)
    requires req.state.None? && !Has(o.result.state, ADD_KEY) && !Has(o.result.state, REMOVE_KEY)
    requires (a.Created? || a.Deleted?) && Has(Carried(finalizer, req, o), KeyOf(a))
    ensures Delegated(a, true) in Log(finalizer, req, o, retries)
  {
    if retries == [] {
      assert Effects(finalizer, req, o)[0] == Delegated(a, true);
    } else {
      CarriedKey(finalizer, req, o, retries[..|retries| - 1], a);
    }
  }

  /**
    The good delegation must be the first attempt's: a create that first fails is delegated twice
    more when its patch fails, by retries any policy makes that retries the two failures.
   */
  lemma DelegatedTwice(policy: Policy)
    requires policy.Some? && policy.value(OfDelegate(1), 0).Some? && policy.value(OfPatch(ApiServer.Transport), 1).Some?
    ensures var req := Request(Created, View(false, []), None);
      var failing, unpatched := Outcome(NOTHING, Some(1), None), Outcome(NOTHING, None, Some(ApiServer.Transport));
      var retries := [Attempt(req.view, unpatched), Attempt(req.view, unpatched)];
      && Made("f", policy, req, failing, retries)
      && Log("f", req, failing, retries) ==
           [Delegated(Created, false), Delegated(Created, true), Patched(AddFinalizer, false),
            Delegated(Created, true), Patched(AddFinalizer, false)]
  {
    var req := Request(Created, View(false, []), None);
    var failing, unpatched := Outcome(NOTHING, Some(1), None), Outcome(NOTHING, None, Some(ApiServer.Transport));
    var again := Attempt(req.view, unpatched);
    assert [again, again][..1] == [again] && [again][..0] == [];
    assert Waiting("f", policy, req, failing, []) == Some(0);
    assert Waiting("f", policy, req, failing, [again]) == Some(1);
    assert Log("f", req, failing, []) == [Delegated(Created, false)];
    assert Log("f", req, failing, [again]) ==
      [Delegated(Created, false), Delegated(Created, true), Patched(AddFinalizer, false)];
  }

  // ---- deletes are not missed ----

  /**
    Main theorem. Whatever reconcile calls, retries and other actors interleave: once the
    reconciler's finalizer is stored, the object exists and carries it until a delegated
    delete has returned without error or requeue.
   */
  lemma {:induction false} DeleteNeverMissed(p: Protocol.Owned, w: Protocol.World, steps: seq<Protocol.Step>, k: nat)
    requires p.Single? && Protocol.Initial(p, w) && Protocol.Legal(p, w, steps) && k <= |steps|
    requires var mid := Protocol.Run(w, steps[..k]); mid.stored.Present? && p.wip in mid.stored.meta.finalizers
    requires Protocol.DeleteSucceeded !in steps
    ensures var end := Protocol.Run(w, steps); end.stored.Present? && p.wip in end.stored.meta.finalizers
  {
    Protocol.DeleteNeverMissed(p, w, steps, k);
  }

  /**
    The same of the cluster a reconciler runs on: as long as its run is lawful and no delegated
    delete has succeeded, the object is there with the finalizer it was seen with.
   */
  lemma StillThere(reconciler: OpinionatedReconciler, m: ApiServer.Meta)
    requires reconciler.Wired() && reconciler.client.Valid() && reconciler.client.Lawful()
    requires m in reconciler.client.world.history && reconciler.finalizer in m.finalizers
    requires Protocol.DeleteSucceeded !in reconciler.client.steps
    ensures var stored := reconciler.client.world.stored; stored.Present? && reconciler.finalizer in stored.meta.finalizers
  {
    var c := reconciler.client;
    c.Sound();
    Protocol.FlagsMeanSteps(c.start, c.steps);
  }
}
