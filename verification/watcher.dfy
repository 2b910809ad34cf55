/** OpinionatedWatcher: Add and Update decide from a possibly stale snapshot which handler runs and which finalizer moves. */
module Watcher {
  import opened Common
  import opened ApiServer
  import opened Protocol
  import opened Finalizers

  /** A handler invocation and whether it returned nil. */
  datatype Call = AddCall(ok: bool) | SyncCall(ok: bool) | UpdateCall(ok: bool) | DeleteCall(ok: bool)

  /** Once a document carried one of ours, a later one that carries neither is a deleting one. */
  lemma LosingOursMeansDeleting(p: Owned, w: World, earlier: Meta, later: Meta)
    requires Inv(p, w) && earlier in w.history && later in w.history
    requires earlier.version <= later.version && Ours(p, earlier) && !Ours(p, later)
    ensures later.deleting
  {
  }

  lemma SnapshotFacts(c: Cluster, m: Meta)
    requires c.Valid() && c.Lawful() && c.pair.Pair? && m in c.world.history
    ensures c.pair.final in m.finalizers ==> EverStored(c.world, c.pair.final) && c.world.added
    ensures c.pair.wip in m.finalizers ==> EverStored(c.world, c.pair.wip)
    ensures m.deleting ==> DeletionSeen(c.world)
  {
    c.Sound();
    var i :| 0 <= i < |c.world.history| && c.world.history[i] == m;
    assert c.world.history[i] == m;
  }

  /** Update events that leave the generation alone are not looked at. */
  predicate Skipped(src: Meta, tgt: Meta) {
    tgt.generation > 0 && src.generation == tgt.generation
  }

  class OpinionatedWatcher {
    const cluster: Cluster
    const updater: Updater
    const finalizer: string
    const addPendingFinalizer: string
    /** Every handler invocation made through this watcher, in order. */
    var calls: seq<Call>

    constructor (c: Cluster)
      requires c.pair.Pair?
      ensures cluster == c && calls == [] && Wired()
    {
      cluster := c;
      updater := new Updater(c);
      finalizer := c.pair.final;
      addPendingFinalizer := c.pair.wip;
      calls := [];
    }

    ghost predicate Wired()
    {
      && updater.client == cluster && cluster.pair.Pair?
      && finalizer == cluster.pair.final && addPendingFinalizer == cluster.pair.wip
    }

    ghost predicate Ready(obj: Object)
      reads cluster, obj
    {
      Wired() && cluster.Valid() && cluster.Lawful() && obj.meta in cluster.world.history
    }

    /** `at` is the step at which AddFunc is called. */
    method AddFunc(obj: Object) returns (err: Option<Error>, ghost at: nat)
      requires Ready(obj)
      modifies cluster, this
      ensures Ready(obj) && Evolves(old(cluster.world), cluster.world) && old(cluster.steps) <= cluster.steps
      ensures at == |old(cluster.steps)| < |cluster.steps| && cluster.steps[at] == AddCalled
      ensures calls == old(calls) + [AddCall(err.None?)]
      ensures err == None || err == Some(Handler)
      ensures err.None? ==> cluster.world.added && AddSucceeded in cluster.steps[|old(cluster.steps)|..]
    {
      at := |cluster.steps|;
      cluster.Call(AddCalled);
      ghost var w := cluster.world;
      var ok: bool := *;
      calls := calls + [AddCall(ok)];
      if !ok {
        return Some(Handler), at;
      }
      cluster.Take(AddSucceeded);
      EvolvesTransitive(old(cluster.world), w, cluster.world);
      assert cluster.steps[|cluster.steps| - 1] == AddSucceeded;
      return None, at;
    }

    method SyncFunc(obj: Object) returns (err: Option<Error>)
      requires Ready(obj) && cluster.world.added
      modifies cluster, this
      ensures Ready(obj) && Evolves(old(cluster.world), cluster.world) && old(cluster.steps) <= cluster.steps
      ensures calls == old(calls) + [SyncCall(err.None?)]
      ensures err == None || err == Some(Handler)
    {
      cluster.Call(SyncCalled);
      var ok: bool := *;
      calls := calls + [SyncCall(ok)];
      err := if ok then None else Some(Handler);
    }

    method UpdateFunc(src: Meta, obj: Object) returns (err: Option<Error>)
      requires Ready(obj) && cluster.world.added
      modifies cluster, this
      ensures Ready(obj) && Evolves(old(cluster.world), cluster.world) && old(cluster.steps) <= cluster.steps
      ensures calls == old(calls) + [UpdateCall(err.None?)]
      ensures err == None || err == Some(Handler)
    {
      cluster.Call(UpdateCalled);
      var ok: bool := *;
      calls := calls + [UpdateCall(ok)];
      err := if ok then None else Some(Handler);
    }

    method DeleteFunc(obj: Object) returns (err: Option<Error>)
      requires Ready(obj) && Enabled(cluster.pair, cluster.world, DeleteCalled)
      modifies cluster, this
      ensures Ready(obj) && Evolves(old(cluster.world), cluster.world) && old(cluster.steps) <= cluster.steps
      ensures calls == old(calls) + [DeleteCall(err.None?)]
      ensures err == None || err == Some(Handler)
      ensures err.None? ==> cluster.world.handled && DeleteSucceeded in cluster.steps[|old(cluster.steps)|..]
    {
      cluster.Call(DeleteCalled);
      ghost var w1 := cluster.world;
      var ok: bool := *;
      calls := calls + [DeleteCall(ok)];
      if !ok {
        return Some(Handler);
      }
      cluster.Take(DeleteSucceeded);
      EvolvesTransitive(old(cluster.world), w1, cluster.world);
      assert cluster.steps[|cluster.steps| - 1] == DeleteSucceeded;
      return None;
    }

    /**
      The delete branch shared by Add and Update: run DeleteFunc, then take off
      whichever of our finalizers the snapshot list `finalizers` shows.
     */
    method HandleDelete(obj: Object, finalizers: seq<string>) returns (err: Option<Error>)
      requires Ready(obj) && Enabled(cluster.pair, cluster.world, DeleteCalled)
      requires finalizer in finalizers || addPendingFinalizer in finalizers
      modifies cluster, this, obj
      ensures Ready(obj) && Evolves(old(cluster.world), cluster.world) && old(cluster.steps) <= cluster.steps
      ensures old(obj.meta).version <= obj.meta.version
      ensures calls == old(calls) + [DeleteCall(err != Some(Handler))]
      ensures err == Some(Handler) ==> obj.meta == old(obj.meta)
      ensures err.None? ==> cluster.world.handled && DeleteSucceeded in cluster.steps[|old(cluster.steps)|..]
      ensures err.None? && old(obj.meta).deleting && finalizers == old(obj.meta).finalizers
        ==> !Ours(cluster.pair, obj.meta)
      ensures err.None? && old(obj.meta).deleting ==> obj.meta.deleting
    {
      err := DeleteFunc(obj);
      if err.Some? {
        return;
      }
      ghost var w := cluster.world;
      err := RemoveOurs(obj, finalizers);
      EvolvesTransitive(old(cluster.world), w, cluster.world);
    }

    /** Take off whichever of our finalizers the list shows, once a delete is handled. */
    method RemoveOurs(obj: Object, finalizers: seq<string>) returns (err: Option<Error>)
      requires Ready(obj) && cluster.world.handled
      modifies cluster, obj
      ensures Ready(obj) && Evolves(old(cluster.world), cluster.world) && old(cluster.steps) <= cluster.steps
      ensures old(obj.meta).version <= obj.meta.version && err != Some(Handler)
      ensures err.None? && old(obj.meta).deleting && finalizers == old(obj.meta).finalizers ==> !Ours(cluster.pair, obj.meta)
      ensures err.None? && old(obj.meta).deleting ==> obj.meta.deleting
    {
      ghost var tries, base, wrote;
      err := None;
      if finalizer in finalizers {
        err, tries, base, wrote := updater.RemoveFinalizer(obj, finalizer);
        if err.Some? {
          return;
        }
      }
      ghost var w1 := cluster.world;
      ghost var mid := obj.meta;
      if addPendingFinalizer in finalizers {
        err, tries, base, wrote := updater.RemoveFinalizer(obj, addPendingFinalizer);
        EvolvesTransitive(old(cluster.world), w1, cluster.world);
        if err.Some? {
          return;
        }
      }
      ShrunkAway(cluster, old(obj.meta), finalizers, mid, obj.meta);
    }

    /** An "add" event: the object is new to this process, but maybe not to the operator. */
    method Add(obj: Object) returns (err: Option<Error>, ghost at: nat)
      requires Ready(obj)
      modifies cluster, this, obj
      ensures Ready(obj) && Evolves(old(cluster.world), cluster.world) && old(cluster.steps) <= cluster.steps
      ensures var m := old(obj.meta);
        m.deleting && !Ours(cluster.pair, m) ==>
          err.None? && calls == old(calls) && obj.meta == m && cluster.world == old(cluster.world)
      ensures var m := old(obj.meta);
        m.deleting && Ours(cluster.pair, m) ==>
          && calls == old(calls) + [DeleteCall(err != Some(Handler))]
          && (err.None? ==> !Ours(cluster.pair, obj.meta) && DeleteSucceeded in cluster.steps[|old(cluster.steps)|..])
      ensures var m := old(obj.meta);
        !m.deleting && cluster.pair.final in m.finalizers ==>
          && calls == old(calls) + [SyncCall(err != Some(Handler))]
          && (err.None? ==> (cluster.pair.wip in m.finalizers ==> cluster.pair.wip !in obj.meta.finalizers))
      ensures var m := old(obj.meta);
        !m.deleting && cluster.pair.final !in m.finalizers ==>
          && ((calls == old(calls) && err.Some?) || calls == old(calls) + [AddCall(err != Some(Handler))])
          && (calls != old(calls) ==> Protected(|old(cluster.steps)|, at))
          && (err == Some(Handler) ==> cluster.pair.wip in obj.meta.finalizers)
          && (err.None? ==>
                && calls == old(calls) + [AddCall(true)]
                && AddSucceeded in cluster.steps[|old(cluster.steps)|..]
                && cluster.pair.final in obj.meta.finalizers)
    {
      var finalizers := obj.meta.finalizers;
      at := 0;
      SnapshotFacts(cluster, obj.meta);
      if obj.meta.deleting {
        if finalizer !in finalizers && addPendingFinalizer !in finalizers {
          return None, at;
        }
        err := HandleDelete(obj, finalizers);
        return;
      }
      ghost var tries, base, wrote;
      if finalizer in finalizers {
        err := SyncFunc(obj);
        if err.Some? {
          return;
        }
        ghost var w := cluster.world;
        if addPendingFinalizer in finalizers {
          err, tries, base, wrote := updater.RemoveFinalizer(obj, addPendingFinalizer);
          EvolvesTransitive(old(cluster.world), w, cluster.world);
        }
        return;
      }
      err, at := AddNew(obj);
    }

    /** AddFunc has been called once since, at step `at`, on an object that had by then been given the in-progress finalizer. */
    ghost predicate Protected(before: nat, at: nat)
      reads cluster
    {
      && before <= at < |cluster.steps| && cluster.steps[at] == AddCalled
      && EverStored(Run(cluster.start, cluster.steps[..at]), cluster.pair.wip)
    }

    /** AddFunc, for an object that has been given the in-progress finalizer. */
    method ProtectedAdd(obj: Object) returns (err: Option<Error>, ghost at: nat)
      requires Ready(obj) && EverStored(cluster.world, cluster.pair.wip)
      modifies cluster, this
      ensures Ready(obj) && Evolves(old(cluster.world), cluster.world) && old(cluster.steps) <= cluster.steps
      ensures Protected(|old(cluster.steps)|, at)
      ensures calls == old(calls) + [AddCall(err.None?)] && (err == None || err == Some(Handler))
      ensures err.None? ==> cluster.world.added && AddSucceeded in cluster.steps[|old(cluster.steps)|..]
    {
      err, at := AddFunc(obj);
      assert cluster.steps[..at] == old(cluster.steps);
    }

    /** Add for a live object without the final finalizer: in-progress finalizer, AddFunc, then the swap. */
    method AddNew(obj: Object) returns (err: Option<Error>, ghost at: nat)
      requires Ready(obj)
      modifies cluster, this, obj
      ensures Ready(obj) && Evolves(old(cluster.world), cluster.world) && old(cluster.steps) <= cluster.steps
      ensures (calls == old(calls) && err.Some?) || calls == old(calls) + [AddCall(err != Some(Handler))]
      ensures calls != old(calls) ==> Protected(|old(cluster.steps)|, at)
      ensures err == Some(Handler) ==> cluster.pair.wip in obj.meta.finalizers
      ensures err.None? ==>
        && calls == old(calls) + [AddCall(true)]
        && AddSucceeded in cluster.steps[|old(cluster.steps)|..]
        && cluster.pair.final in obj.meta.finalizers
    {
      ghost var tries, base, wrote;
      at := 0;
      err, tries, base, wrote := updater.AddFinalizer(obj, addPendingFinalizer);
      if err.Some? {
        return;
      }
      ghost var w0 := cluster.world;
      SnapshotFacts(cluster, obj.meta);
      err, at := ProtectedAdd(obj);
      EvolvesTransitive(old(cluster.world), w0, cluster.world);
      if err.Some? {
        return;
      }
      ghost var w1, added := cluster.world, cluster.steps;
      err := Finalize(obj);
      assert cluster.steps[..at] == added[..at];
      EvolvesTransitive(old(cluster.world), w1, cluster.world);
    }

    /** The swap after AddFunc, from a copy that carries one of ours. */
    method Finalize(obj: Object) returns (err: Option<Error>)
      requires Ready(obj) && cluster.world.added && Ours(cluster.pair, obj.meta)
      modifies cluster, obj
      ensures Ready(obj) && Evolves(old(cluster.world), cluster.world) && old(cluster.steps) <= cluster.steps
      ensures err != Some(Handler) && (err.None? ==> cluster.pair.final in obj.meta.finalizers)
    {
      ghost var pending, tries, base, wrote := obj.meta, 0, obj.meta, false;
      err, tries, base, wrote := updater.ReplaceFinalizer(obj, addPendingFinalizer, finalizer);
      if err.None? {
        ReplacedEndsFinal(cluster, pending, base, obj.meta, wrote);
      }
    }

    /** An "update" event carrying the previous and the new snapshot. */
    method Update(src: Meta, obj: Object) returns (err: Option<Error>)
      requires Ready(obj)
      modifies cluster, this, obj
      ensures Ready(obj) && Evolves(old(cluster.world), cluster.world) && old(cluster.steps) <= cluster.steps
      ensures var m := old(obj.meta);
        Skipped(src, m) ==>
          err.None? && calls == old(calls) && obj.meta == m && cluster.world == old(cluster.world)
      ensures var m := old(obj.meta);
        !Skipped(src, m) && m.deleting && !Ours(cluster.pair, m) ==>
          err.None? && calls == old(calls) && obj.meta == m && cluster.world == old(cluster.world)
      ensures var m := old(obj.meta);
        !Skipped(src, m) && m.deleting && Ours(cluster.pair, m) ==>
          && calls == old(calls) + [DeleteCall(err != Some(Handler))]
          && (err.None? ==> !Ours(cluster.pair, obj.meta) && DeleteSucceeded in cluster.steps[|old(cluster.steps)|..])
      ensures var m := old(obj.meta);
        !Skipped(src, m) && !m.deleting && cluster.pair.final in m.finalizers ==>
          && obj.meta == m
          && if cluster.pair.final !in src.finalizers then err.None? && calls == old(calls)
             else calls == old(calls) + [UpdateCall(err.None?)]
      ensures var m := old(obj.meta);
        !Skipped(src, m) && !m.deleting && cluster.pair.final !in m.finalizers ==>
          old(calls) + [AddCall(true)] <= calls || (err == Some(Handler) && calls == old(calls) + [AddCall(false)])
      ensures var m := old(obj.meta);
        !Skipped(src, m) && !m.deleting && cluster.pair.final !in m.finalizers
        && err.None? ==>
          && AddSucceeded in cluster.steps[|old(cluster.steps)|..]
          && (calls == old(calls) + [AddCall(true), UpdateCall(true)]
              || (obj.meta.deleting && calls == old(calls) + [AddCall(true), DeleteCall(true)])
              || (obj.meta.deleting && !Ours(cluster.pair, m) && calls == old(calls) + [AddCall(true)]))
      ensures var m := old(obj.meta);
        !Skipped(src, m) && !m.deleting && cluster.pair.final !in m.finalizers
        && cluster.pair.wip in m.finalizers && err.None? && !obj.meta.deleting ==>
          cluster.pair.final in obj.meta.finalizers
    {
      if obj.meta.generation > 0 && src.generation == obj.meta.generation {
        return None;
      }
      var newFinalizers := obj.meta.finalizers;
      SnapshotFacts(cluster, obj.meta);
      if finalizer !in newFinalizers && !obj.meta.deleting {
        err := AddMissedThenDispatch(src, obj);
      } else {
        err := Dispatch(src, obj, newFinalizers);
      }
    }

    /** Update for a live object without the final finalizer. */
    method AddMissedThenDispatch(src: Meta, obj: Object) returns (err: Option<Error>)
      requires Ready(obj) && !obj.meta.deleting && finalizer !in obj.meta.finalizers
      modifies cluster, this, obj
      ensures Ready(obj) && Evolves(old(cluster.world), cluster.world) && old(cluster.steps) <= cluster.steps
      ensures old(calls) + [AddCall(true)] <= calls || (err == Some(Handler) && calls == old(calls) + [AddCall(false)])
      ensures err.None? ==>
        && AddSucceeded in cluster.steps[|old(cluster.steps)|..]
        && (calls == old(calls) + [AddCall(true), UpdateCall(true)]
            || (obj.meta.deleting && calls == old(calls) + [AddCall(true), DeleteCall(true)])
            || (obj.meta.deleting && !Ours(cluster.pair, old(obj.meta)) && calls == old(calls) + [AddCall(true)]))
      ensures cluster.pair.wip in old(obj.meta).finalizers && err.None? && !obj.meta.deleting ==>
        cluster.pair.final in obj.meta.finalizers
    {
      var newFinalizers := obj.meta.finalizers;
      SnapshotFacts(cluster, obj.meta);
      ghost var base;
      err, base := AddMissed(obj);
      if err.Some? {
        return;
      }
      ghost var w, before := cluster.world, cluster.steps;
      err := Dispatch(src, obj, newFinalizers);
      EvolvesTransitive(old(cluster.world), w, cluster.world);
      StillTaken(old(cluster.steps), before, cluster.steps, AddSucceeded);
    }

    /** The rest of Update: delete, ignore, or hand on, judged by the list of the snapshot as it arrived. */
    method Dispatch(src: Meta, obj: Object, newFinalizers: seq<string>) returns (err: Option<Error>)
      requires Ready(obj)
      requires !obj.meta.deleting ==> cluster.world.added
      requires finalizer in newFinalizers ==> EverStored(cluster.world, finalizer)
      requires addPendingFinalizer in newFinalizers ==> EverStored(cluster.world, addPendingFinalizer)
      modifies cluster, this, obj
      ensures Ready(obj) && Evolves(old(cluster.world), cluster.world) && old(cluster.steps) <= cluster.steps
      ensures var ours := finalizer in newFinalizers || addPendingFinalizer in newFinalizers;
        if old(obj.meta).deleting then
          if ours then
            && calls == old(calls) + [DeleteCall(err != Some(Handler))]
            && (err.None? ==> DeleteSucceeded in cluster.steps[|old(cluster.steps)|..] && obj.meta.deleting)
            && (err.None? && newFinalizers == old(obj.meta).finalizers ==> !Ours(cluster.pair, obj.meta))
          else
            err.None? && calls == old(calls) && obj.meta == old(obj.meta) && cluster.world == old(cluster.world)
        else if finalizer !in src.finalizers && finalizer in newFinalizers then
          err.None? && calls == old(calls) && obj.meta == old(obj.meta)
        else
          calls == old(calls) + [UpdateCall(err.None?)] && obj.meta == old(obj.meta)
    {
      if obj.meta.deleting {
        if finalizer !in newFinalizers && addPendingFinalizer !in newFinalizers {
          return None;
        }
        SnapshotFacts(cluster, obj.meta);
        err := HandleDelete(obj, newFinalizers);
        return;
      }
      if finalizer !in src.finalizers && finalizer in newFinalizers {
        return None;
      }
      err := UpdateFunc(src, obj);
    }

    /** The head of Update for an object whose add was missed or failed: AddFunc, then swap the finalizers. */
    method AddMissed(obj: Object) returns (err: Option<Error>, ghost base: Meta)
      requires Ready(obj)
      modifies cluster, this, obj
      ensures Ready(obj) && Evolves(old(cluster.world), cluster.world) && old(cluster.steps) <= cluster.steps
      ensures calls == old(calls) + [AddCall(err != Some(Handler))]
      ensures err.None? ==> cluster.world.added && AddSucceeded in cluster.steps[|old(cluster.steps)|..]
      // the final finalizer ends up stored exactly when one of ours was there to be replaced
      ensures err.None? ==> base in cluster.world.history && old(obj.meta).version <= base.version
      ensures err.None? ==> Ours(cluster.pair, obj.meta)
      ensures err.None? ==> (cluster.pair.final in obj.meta.finalizers <==> Ours(cluster.pair, base))
      ensures err.None? && Ours(cluster.pair, old(obj.meta)) ==> Ours(cluster.pair, base)
    {
      ghost var m := obj.meta;
      base := m;
      ghost var tries, wrote, at;
      err, at := AddFunc(obj);
      if err.Some? {
        return;
      }
      ghost var w := cluster.world;
      err, tries, base, wrote := updater.ReplaceFinalizer(obj, addPendingFinalizer, finalizer);
      EvolvesTransitive(old(cluster.world), w, cluster.world);
      if err.None? {
        ReplacedHasFinal(base.finalizers, cluster.pair);
        if Ours(cluster.pair, m) {
          ReplacedEndsFinal(cluster, m, base, obj.meta, wrote);
        }
      }
    }
  }

  lemma ReplacedHasFinal(fs: seq<string>, p: Owned)
    requires p.Pair? && p.wip != p.final
    ensures var r := Replaced(fs, p.wip, p.final);
      && (p.final in r <==> p.wip in fs || p.final in fs)
      && (p.wip in r || p.final in r)
  {
    if p.final !in fs && p.wip in fs {
      var i := IndexOf(fs, p.wip);
      assert fs[i := p.final][i] == p.final;
    }
  }

  lemma StillTaken(a: seq<Step>, b: seq<Step>, c: seq<Step>, s: Step)
    requires a <= b <= c && s in b[|a|..]
    ensures s in c[|a|..]
  {
    assert b[|a|..] <= c[|a|..];
  }

  /** A delete handled to the end of both removals leaves neither of ours. */
  lemma ShrunkAway(c: Cluster, first: Meta, finalizers: seq<string>, mid: Meta, last: Meta)
    requires c.Valid() && c.Lawful() && c.pair.Pair? && first in c.world.history && mid in c.world.history && last in c.world.history
    requires first.version <= mid.version <= last.version
    requires c.pair.final in finalizers ==> c.pair.final !in mid.finalizers
    requires c.pair.wip in finalizers ==> c.pair.wip !in last.finalizers
    ensures first.deleting && finalizers == first.finalizers ==> !Ours(c.pair, last)
    ensures first.deleting ==> last.deleting
  {
    c.Sound();
  }

  /** A replace that starts after ours was stored, and succeeds, ends with the final finalizer stored. */
  lemma ReplacedEndsFinal(c: Cluster, pending: Meta, base: Meta, after: Meta, wrote: bool)
    requires c.Valid() && c.Lawful() && c.pair.Pair? && pending in c.world.history && base in c.world.history
    requires Ours(c.pair, pending) && pending.version <= base.version
    requires !Ours(c.pair, base) ==> !base.deleting
    requires wrote == !(c.pair.final in base.finalizers && c.pair.wip !in base.finalizers)
    requires Edited(c.world, pending, base, after, wrote, Replaced(base.finalizers, c.pair.wip, c.pair.final))
    ensures c.pair.final in after.finalizers
  {
    c.Sound();
    if !Ours(c.pair, base) {
      LosingOursMeansDeleting(c.pair, c.world, pending, base);
    } else if c.pair.final !in base.finalizers {
      var i := IndexOf(base.finalizers, c.pair.wip);
      assert base.finalizers[i := c.pair.final][i] == c.pair.final;
    }
  }
}
