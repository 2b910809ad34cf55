/** The finalizer updater: guarded JSON Patch edits with a bounded retry on conflict. */
module Finalizers {
  import opened Common
  import opened ApiServer
  import opened Protocol

  /** The caller's in-memory copy of the object; possibly long out of date. */
  class Object {
    var meta: Meta

    constructor (m: Meta)
      ensures meta == m
    {
      meta := m;
    }
  }

  /** The shared world as one call sees it: its own requests, and everybody else's steps in between. */
  class Cluster {
    const pair: Owned
    var world: World
    ghost const start: World
    ghost var steps: seq<Step>

    ghost predicate Valid()
      reads this
    {
      Initial(pair, start) && world == Run(start, steps) && Ordered(world)
    }

    /** Every step so far was one the protocol allows, so its run theorems hold. */
    ghost predicate Lawful()
      reads this
    {
      Legal(pair, start, steps)
    }

    lemma Sound()
      requires Valid() && Lawful()
      ensures Inv(pair, world)
    {
      RunKeepsInv(pair, start, steps);
    }

    /** One step happens; the run stays lawful exactly if the protocol allows it. */
    method Take(s: Step)
      requires Valid() && Possible(world, s)
      modifies this
      ensures Valid() && Evolves(old(world), world)
      ensures Lawful() <==> old(Lawful()) && Enabled(pair, old(world), s)
      ensures world == Next(old(world), s) && steps == old(steps) + [s]
    {
      PossibleKeepsOrder(world, s);
      world := Next(world, s);
      steps := steps + [s];
      assert steps[..|steps| - 1] == old(steps);
    }

    /** Any number of steps of other actors and of other watcher calls. */
    method Interfere()
      requires Valid()
      modifies this
      ensures Valid() && Evolves(old(world), world) && old(steps) <= steps
      ensures old(Lawful()) ==> Lawful()
    {
      var n: int := *;
      while 0 < n
        invariant Valid() && Evolves(old(world), world) && old(steps) <= steps && (old(Lawful()) ==> Lawful())
        decreases n
      {
        n := n - 1;
        var s: Step := *;
        if Enabled(pair, world, s) {
          ghost var w := world;
          Take(s);
          EvolvesTransitive(old(world), w, world);
        }
      }
    }

    /** A handler is called, and others step while it runs. */
    method Call(s: Step)
      requires Valid() && Possible(world, s)
      modifies this
      ensures Valid() && Evolves(old(world), world) && old(steps) <= steps
      ensures |old(steps)| < |steps| && steps[|old(steps)|] == s
      ensures old(Lawful() && Enabled(pair, world, s)) ==> Lawful()
    {
      Take(s);
      ghost var w := world;
      Interfere();
      EvolvesTransitive(old(world), w, world);
    }
  }

  /** In the history, `next` directly follows `base`: one accepted write turned one into the other. */
  ghost predicate Follows(w: World, base: Meta, next: Meta) {
    exists i :: 0 <= i < |w.history| - 1 && w.history[i] == base && w.history[i + 1] == next
  }

  /** A newer document than the copy has been stored. */
  ghost predicate Outdated(w: World, m: Meta) {
    exists i :: 0 <= i < |w.history| && w.history[i].version > m.version
  }

  /** The stored document is the newest of all, earlier ones included. */
  lemma StoredIsNewest(earlier: World, w: World, m: Meta)
    requires Ordered(w) && Evolves(earlier, w) && w.stored.Present? && m in earlier.history
    ensures m.version <= w.stored.meta.version
    ensures Outdated(earlier, m) ==> m.version < w.stored.meta.version
  {
    assert forall i :: 0 <= i < |earlier.history| ==> w.history[i] == earlier.history[i];
  }

  /** The three edits, as functions of the list they are computed from. */
  function Replaced(fs: seq<string>, toReplace: string, replaceWith: string): seq<string> {
    if replaceWith in fs then
      if toReplace in fs then Without(fs, toReplace) else fs
    else if toReplace !in fs then fs + [toReplace]
    else fs[IndexOf(fs, toReplace) := replaceWith]
  }

  /** Removing one name leaves the other names, in order. */
  lemma {:induction false} RemovalKeepsOthers(fs: seq<string>, f: string, g: string)
    ensures Without(Without(fs, f), g) == Without(Without(fs, g), f)
  {
    if fs != [] {
      RemovalKeepsOthers(fs[1..], f, g);
      WithoutAppend(if fs[0] == f then [] else [fs[0]], Without(fs[1..], f), g);
      WithoutAppend(if fs[0] == g then [] else [fs[0]], Without(fs[1..], g), f);
    }
  }

  /** ReplaceFinalizer keeps all other finalizers in order, whichever branch it takes. */
  lemma {:induction false} ReplaceKeepsOthers(fs: seq<string>, toReplace: string, replaceWith: string)
    ensures var r := Replaced(fs, toReplace, replaceWith);
      Without(Without(r, toReplace), replaceWith) == Without(Without(fs, toReplace), replaceWith)
  {
    var r := Replaced(fs, toReplace, replaceWith);
    if replaceWith in fs && toReplace in fs {
      WithoutTwice(fs, toReplace);
    } else if replaceWith in fs {
    } else if toReplace !in fs {
      WithoutAppend(fs, [toReplace], toReplace);
      assert Without(fs, toReplace) + [] == Without(fs, toReplace);
    } else {
      var i := IndexOf(fs, toReplace);
      assert fs == fs[..i] + [toReplace] + fs[i + 1..];
      assert r == fs[..i] + [replaceWith] + fs[i + 1..];
      SplitWithout(fs[..i], toReplace, fs[i + 1..], toReplace, replaceWith);
      SplitWithout(fs[..i], replaceWith, fs[i + 1..], toReplace, replaceWith);
    }
  }

  lemma {:induction false} WithoutTwice(fs: seq<string>, f: string)
    ensures Without(Without(fs, f), f) == Without(fs, f)
  {
    if fs != [] {
      WithoutTwice(fs[1..], f);
      WithoutAppend(if fs[0] == f then [] else [fs[0]], Without(fs[1..], f), f);
    }
  }

  /** A name in the middle that is one of the two filtered ones does not matter. */
  lemma SplitWithout(a: seq<string>, m: string, b: seq<string>, x: string, y: string)
    requires m == x || m == y
    ensures Without(Without(a + [m] + b, x), y) == Without(Without(a, x), y) + Without(Without(b, x), y)
  {
    WithoutAppend(a + [m], b, x);
    WithoutSnoc(a, m, x);
    WithoutAppend(Without(a + [m], x), Without(b, x), y);
    if m != x {
      WithoutSnoc(Without(a, x), m, y);
      assert Without(Without(a, x), y) + [] == Without(Without(a, x), y);
    } else {
      assert Without(a, x) + [] == Without(a, x);
    }
  }

  /**
    When a replace does its job: the new name is in and the old one is out exactly
    when the new one was there already or the old one was there once. With neither
    present the code falls through to adding the name it was to replace.
   */
  lemma ReplaceMeetsItsName(fs: seq<string>, toReplace: string, replaceWith: string)
    requires toReplace != replaceWith
    ensures var r := Replaced(fs, toReplace, replaceWith);
      (replaceWith in r && toReplace !in r) <==> (replaceWith in fs || multiset(fs)[toReplace] == 1)
  {
    if replaceWith !in fs && toReplace in fs {
      var i := IndexOf(fs, toReplace);
      var r := fs[i := replaceWith];
      assert fs == fs[..i] + [toReplace] + fs[i + 1..];
      assert r == fs[..i] + [replaceWith] + fs[i + 1..];
      assert r[i] == replaceWith;
      assert multiset(fs)[toReplace] == 1 + multiset(fs[i + 1..])[toReplace];
      assert toReplace in r <==> toReplace in fs[i + 1..];
    }
  }

  /** How often the two names are there afterwards: nothing is doubled, and one occurrence is replaced. */
  lemma {:induction false} ReplaceCounts(fs: seq<string>, toReplace: string, replaceWith: string)
    requires toReplace != replaceWith
    ensures var r, old1, new1 := multiset(Replaced(fs, toReplace, replaceWith)), multiset(fs)[toReplace], multiset(fs)[replaceWith];
      && r[replaceWith] == (if new1 > 0 then new1 else if old1 > 0 then 1 else 0)
      && r[toReplace] == (if new1 > 0 then 0 else if old1 > 0 then old1 - 1 else 1)
  {
    if replaceWith in fs && toReplace in fs {
      WithoutCounts(fs, toReplace, toReplace);
      WithoutCounts(fs, toReplace, replaceWith);
    } else if replaceWith !in fs && toReplace in fs {
      var i := IndexOf(fs, toReplace);
      assert fs == fs[..i] + [toReplace] + fs[i + 1..];
      assert fs[i := replaceWith] == fs[..i] + [replaceWith] + fs[i + 1..];
    }
  }

  lemma {:induction false} WithoutCounts(fs: seq<string>, f: string, g: string)
    ensures multiset(Without(fs, f))[g] == if g == f then 0 else multiset(fs)[g]
  {
    if fs != [] {
      WithoutCounts(fs[1..], f, g);
      assert fs == [fs[0]] + fs[1..];
    }
  }

  /** The fall-through on a concrete list: asked to replace "wip" by "op", it adds "wip". */
  lemma ReplaceFallThrough()
    ensures Replaced(["other"], "wip", "op") == ["other", "wip"]
  {
  }

  /**
    The two names must differ, which nothing checks: replacing a stored finalizer
    by itself takes it off, so the object could then vanish unhandled.
   */
  lemma SameNameLosesTheFinalizer(fs: seq<string>, f: string)
    requires f in fs
    ensures f !in Replaced(fs, f, f)
  {
  }

  // ---- the requests ----

  function Guard(m: Meta): PatchOp {
    Replace(ResourceVersion, Version(m.version))
  }

  /** The patches the three edits send, computed from the caller's copy. */
  function AddRequest(m: Meta, f: string): seq<PatchOp> {
    [if m.finalizers == [] then Add(FinalizerList, Names([f])) else Add(FinalizerEnd, Name(f)), Guard(m)]
  }

  function RemoveRequest(m: Meta, f: string): seq<PatchOp> {
    [Replace(FinalizerList, Names(Without(m.finalizers, f))), Guard(m)]
  }

  function ReplaceRequest(m: Meta, toReplace: string, replaceWith: string): seq<PatchOp> {
    if replaceWith in m.finalizers then RemoveRequest(m, toReplace)
    else if toReplace !in m.finalizers then AddRequest(m, toReplace)
    else [Replace(FinalizerAt(IndexOf(m.finalizers, toReplace)), Name(replaceWith)), Guard(m)]
  }

  /** The request to add appends the name, on an empty list too. */
  lemma AddRequestEdits(p: Owned, w: World, m: Meta, f: string)
    requires m in w.history
    ensures Computed(w, AddRequest(m, f), m)
    ensures EditOf(m, AddRequest(m, f)) == Some(m.finalizers + [f]) && f in m.finalizers + [f]
    ensures MayAdd(p, w, f) ==> PatchFrom(p, w, AddRequest(m, f), m)
  {
    assert [f] == [] + [f];
    assert (m.finalizers + [f])[|m.finalizers|] == f;
  }

  /**
    And so it happens, whatever the one name is: a live object without finalizers gets it, AddFunc
    succeeds, the replace of the name by itself is sent, the object is deleted, and it is gone
    with no delete handled. The requests are those the updater sends for its copies.
   */
  lemma SameNameVanishes(f: string, m: Meta, generation: int)
    requires m.finalizers == [] && !m.deleting
    ensures var m1 := m.(version := m.version + 1, finalizers := [f]);
      var steps := [Patched(AddRequest(m, f)), AddSucceeded, Patched(ReplaceRequest(m1, f, f)), DeleteRequested(generation)];
      var start := World(Present(m), [m], false, false);
      && Run(start, steps[..1]).stored == Present(m1)
      && Run(start, steps).stored.Gone? && !Run(start, steps).handled
  {
    var m1 := m.(version := m.version + 1, finalizers := [f]);
    var add, replace := AddRequest(m, f), ReplaceRequest(m1, f, f);
    var steps := [Patched(add), AddSucceeded, Patched(replace), DeleteRequested(generation)];
    var start := World(Present(m), [m], false, false);
    GuardedApply(m, add, m);
    var w1 := Next(start, Patched(add));
    assert w1.stored == Present(m1);
    var w2 := Next(w1, AddSucceeded);
    assert replace == RemoveRequest(m1, f) && Without([f], f) == [];
    GuardedApply(m1, replace, m1);
    var w3 := Next(w2, Patched(replace));
    assert w3.stored.Present? && w3.stored.meta.finalizers == [];
    assert steps[..0] == [] && steps[..1][..0] == [] && steps[..1][0] == Patched(add);
    assert Run(start, steps[..1]) == w1;
    assert steps[..2][..1] == steps[..1] && Run(start, steps[..2]) == w2;
    assert steps[..3][..2] == steps[..2] && Run(start, steps[..3]) == w3;
    assert Run(start, steps) == Next(w3, DeleteRequested(generation));
  }

  /**
    What one successful edit means for the caller: its copy is a stored document,
    and either one accepted write turned `base` into it, or nothing was written.
   */
  ghost predicate Edited(w: World, before: Meta, base: Meta, after: Meta, wrote: bool, edited: seq<string>) {
    && after in w.history && base in w.history
    && before.version <= base.version
    && (if wrote then Follows(w, base, after) && after.finalizers == edited
        else after == base && edited == base.finalizers)
  }

  /** A removal: all but the name, if it was there. */
  ghost predicate RemovedFrom(w: World, before: Meta, base: Meta, after: Meta, wrote: bool, finalizer: string) {
    && wrote == (finalizer in base.finalizers)
    && Edited(w, before, base, after, wrote, if wrote then Without(base.finalizers, finalizer) else base.finalizers)
  }

  // ---- what the protocol asks of a caller: only of an edit that touches our own finalizers ----

  predicate IsFinal(p: Owned, f: string) {
    p.Pair? && f == p.final
  }

  predicate MayAdd(p: Owned, w: World, f: string) {
    IsFinal(p, f) ==> w.added
  }

  predicate MayRemove(p: Owned, w: World, f: string) {
    (IsFinal(p, f) ==> w.handled) && (f == p.wip ==> w.handled || FinalStored(p, w))
  }

  /** The two names may well be equal. */
  predicate MayReplace(p: Owned, w: World, toReplace: string, replaceWith: string) {
    && (IsFinal(p, toReplace) || IsFinal(p, replaceWith) ==> w.added)
    && (IsFinal(p, toReplace) ==> w.handled)
    && (toReplace == p.wip ==> IsFinal(p, replaceWith) || w.handled || FinalStored(p, w))
  }

  /** A licence does not run out. */
  lemma StillMay(p: Owned, w: World, w': World, f: string, g: string)
    requires Evolves(w, w')
    ensures MayAdd(p, w, f) ==> MayAdd(p, w', f)
    ensures MayRemove(p, w, f) ==> MayRemove(p, w', f)
    ensures MayReplace(p, w, f, g) ==> MayReplace(p, w', f, g)
  {
  }

  lemma StillLicensed(p: Owned, w: World, w': World, ops: seq<PatchOp>, base: Meta)
    requires Evolves(w, w') && Computed(w, ops, base)
    ensures Computed(w', ops, base) && (PatchFrom(p, w, ops, base) ==> PatchFrom(p, w', ops, base))
  {
  }

  /** Replacing at an index puts one name in, and takes out none but the one there. */
  lemma IndexedReplaceLicensed(p: Owned, w: World, fs: seq<string>, toReplace: string, replaceWith: string)
    requires MayReplace(p, w, toReplace, replaceWith) && toReplace in fs
    ensures Licensed(p, w, fs, fs[IndexOf(fs, toReplace) := replaceWith])
    ensures replaceWith in fs[IndexOf(fs, toReplace) := replaceWith]
  {
    var i := IndexOf(fs, toReplace);
    var r := fs[i := replaceWith];
    assert r[i] == replaceWith;
    forall f | f in fs && f != toReplace ensures f in r {
      var j :| 0 <= j < |fs| && fs[j] == f;
      assert r[j] == f;
    }
  }

  class Updater {
    const client: Cluster

    constructor (c: Cluster)
      ensures client == c
    {
      client := c;
    }

    /** The call's copy is some stored document. */
    ghost predicate Ready(obj: Object)
      reads this, client, obj
    {
      client.Valid() && obj.meta in client.world.history
    }

    /** Read the current document into the caller's copy. */
    method GetInto(obj: Object) returns (err: Option<Error>)
      requires Ready(obj)
      modifies client, obj
      ensures Ready(obj) && Evolves(old(client.world), client.world) && old(client.steps) <= client.steps
      ensures old(client.Lawful()) ==> client.Lawful()
      ensures err.None? ==> old(obj.meta).version <= obj.meta.version
      ensures err.None? && old(Outdated(client.world, obj.meta)) ==> old(obj.meta).version < obj.meta.version
      ensures err.Some? ==> obj.meta == old(obj.meta)
      ensures err != Some(Handler) && err != Some(Conflict)
    {
      client.Interfere();
      var failed: bool := *;
      if failed {
        return Some(Transport);
      }
      match client.world.stored
      case Gone => return Some(NotFound);
      case Present(m) =>
        StoredIsNewest(old(client.world), client.world, obj.meta);
        obj.meta := m;
        return None;
    }

    /**
      Send a patch. It may be lost before the server sees it, refused, or accepted;
      the reply to an accepted patch may be lost too.
     */
    method PatchInto(obj: Object, ops: seq<PatchOp>) returns (err: Option<Error>)
      requires Ready(obj) && Computed(client.world, ops, obj.meta)
      modifies client, obj
      ensures Ready(obj) && Evolves(old(client.world), client.world) && old(client.steps) <= client.steps
      ensures old(client.Lawful() && PatchFrom(client.pair, client.world, ops, obj.meta)) ==> client.Lawful()
      ensures err.None? ==> Patched(ops) in client.steps[|old(client.steps)|..]
      ensures err.Some? ==> obj.meta == old(obj.meta)
      ensures err.None? ==>
        && Follows(client.world, old(obj.meta), obj.meta)
        && old(obj.meta).version < obj.meta.version
        && Some(obj.meta.finalizers) == EditOf(old(obj.meta), ops)
        && (obj.meta.deleting ==> forall f :: f in obj.meta.finalizers ==> f in old(obj.meta).finalizers)
        && obj.meta.deleting == old(obj.meta).deleting
      ensures err != Some(Handler)
      ensures err == Some(Conflict) ==> Outdated(client.world, obj.meta)
    {
      client.Interfere();
      var lost: bool := *;
      if lost {
        return Some(Transport);
      }
      ghost var seen := client.world;
      var (_, reply) := Submit(client.world.stored, ops);
      StillLicensed(client.pair, old(client.world), seen, ops, obj.meta);
      PatchOutcome(seen, ops, obj.meta);
      client.Take(Patched(ops));
      assert client.steps[|client.steps| - 1] == Patched(ops);
      EvolvesTransitive(old(client.world), seen, client.world);
      match reply
      case Refused(e) => return Some(e);
      case Accepted(m) =>
        var replyLost: bool := *;
        if replyLost {
          return Some(Transport);
        }
        obj.meta := m;
        return None;
    }

    method DoAddFinalizer(obj: Object, finalizer: string) returns (err: Option<Error>, ghost wrote: bool)
      requires Ready(obj)
      modifies client, obj
      ensures Ready(obj) && Evolves(old(client.world), client.world) && old(client.steps) <= client.steps
      ensures old(client.Lawful() && MayAdd(client.pair, client.world, finalizer)) ==> client.Lawful()
      ensures err.Some? ==> obj.meta == old(obj.meta)
      ensures err.None? ==> finalizer in obj.meta.finalizers
      ensures err.None? ==> wrote == (finalizer !in old(obj.meta).finalizers)
      ensures err.None? ==> Edited(client.world, old(obj.meta), old(obj.meta), obj.meta, wrote,
                                   if wrote then old(obj.meta).finalizers + [finalizer] else old(obj.meta).finalizers)
      ensures err.None? && wrote ==> !old(obj.meta).deleting
      ensures err.None? && wrote ==> Patched(AddRequest(old(obj.meta), finalizer)) in client.steps[|old(client.steps)|..]
      ensures err != Some(Handler)
      ensures err == Some(Conflict) ==> Outdated(client.world, obj.meta)
    {
      var finalizers := obj.meta.finalizers;
      if finalizer in finalizers {
        return None, false;
      }
      var guard := Replace(ResourceVersion, Version(obj.meta.version));
      var req := [Add(FinalizerList, Names([finalizer])), guard];
      if |finalizers| > 0 {
        req := [Add(FinalizerEnd, Name(finalizer)), guard];
      }
      assert req == AddRequest(obj.meta, finalizer);
      AddRequestEdits(client.pair, client.world, obj.meta, finalizer);
      err := PatchInto(obj, req);
      return err, true;
    }

    method AddFinalizer(obj: Object, finalizer: string)
      returns (err: Option<Error>, ghost tries: nat, ghost base: Meta, ghost wrote: bool)
      requires Ready(obj)
      modifies client, obj
      ensures Ready(obj) && Evolves(old(client.world), client.world) && old(client.steps) <= client.steps
      ensures old(client.Lawful() && MayAdd(client.pair, client.world, finalizer)) ==> client.Lawful()
      ensures tries <= 4 && err != Some(Handler)
      ensures err == Some(Conflict) ==> tries == 4
      ensures 0 < tries && old(obj.meta).version + (tries - 1) <= base.version <= obj.meta.version
      ensures err.None? ==> finalizer in obj.meta.finalizers
      ensures err.None? ==> wrote == (finalizer !in base.finalizers)
      ensures err.None? ==> Edited(client.world, old(obj.meta), base, obj.meta, wrote,
                                   if wrote then base.finalizers + [finalizer] else base.finalizers)
    {
      base := obj.meta;
      err, wrote := DoAddFinalizer(obj, finalizer);
      tries := 1;
      var attempts := 0;
      while err == Some(Conflict) && attempts < 3
        invariant Ready(obj) && Evolves(old(client.world), client.world) && old(client.steps) <= client.steps
        invariant attempts <= 3 && tries == attempts + 1 && err != Some(Handler)
        invariant old(obj.meta).version + attempts <= base.version <= obj.meta.version
        invariant err == Some(Conflict) ==> Outdated(client.world, obj.meta) && obj.meta == base
        invariant old(client.Lawful() && MayAdd(client.pair, client.world, finalizer)) ==> client.Lawful()
        invariant err.None? ==> finalizer in obj.meta.finalizers
        invariant err.None? ==> wrote == (finalizer !in base.finalizers)
        invariant err.None? ==> Edited(client.world, old(obj.meta), base, obj.meta, wrote,
                                       if wrote then base.finalizers + [finalizer] else base.finalizers)
        decreases 3 - attempts
      {
        ghost var w0 := client.world;
        err := GetInto(obj);
        EvolvesTransitive(old(client.world), w0, client.world);
        if err.Some? {
          return;
        }
        ghost var w1 := client.world;
        StillMay(client.pair, old(client.world), w1, finalizer, "");
        base := obj.meta;
        err, wrote := DoAddFinalizer(obj, finalizer);
        EvolvesTransitive(old(client.world), w1, client.world);
        attempts := attempts + 1;
        tries := tries + 1;
      }
    }

    /** The loop of doRemoveFinalizer: the other names, and whether there was anything to remove. */
    static method FilterOut(all: seq<string>, finalizer: string) returns (rest: seq<string>, found: bool)
      ensures rest == Without(all, finalizer)
      ensures found <==> finalizer in all
    {
      rest, found := [], false;
      for i := 0 to |all|
        invariant rest == Without(all[..i], finalizer)
        invariant found <==> finalizer in all[..i]
      {
        assert all[..i + 1] == all[..i] + [all[i]];
        WithoutSnoc(all[..i], all[i], finalizer);
        if all[i] == finalizer {
          found := true;
          continue;
        }
        rest := rest + [all[i]];
      }
      assert all[..|all|] == all;
    }

    method DoRemoveFinalizer(obj: Object, finalizer: string) returns (err: Option<Error>, ghost wrote: bool)
      requires Ready(obj)
      modifies client, obj
      ensures Ready(obj) && Evolves(old(client.world), client.world) && old(client.steps) <= client.steps
      ensures old(client.Lawful() && MayRemove(client.pair, client.world, finalizer)) ==> client.Lawful()
      ensures err.Some? ==> obj.meta == old(obj.meta)
      ensures err.None? ==> finalizer !in obj.meta.finalizers
      ensures err.None? ==> RemovedFrom(client.world, old(obj.meta), old(obj.meta), obj.meta, wrote, finalizer)
      ensures err.None? && wrote ==> Patched(RemoveRequest(old(obj.meta), finalizer)) in client.steps[|old(client.steps)|..]
      ensures err != Some(Handler)
      ensures err == Some(Conflict) ==> Outdated(client.world, obj.meta)
    {
      var finalizers, found := FilterOut(obj.meta.finalizers, finalizer);
      if !found {
        return None, false;
      }
      var req := [Replace(FinalizerList, Names(finalizers)), Replace(ResourceVersion, Version(obj.meta.version))];
      assert EditOf(obj.meta, req) == Some(finalizers);
      err := PatchInto(obj, req);
      return err, true;
    }

    method RemoveFinalizer(obj: Object, finalizer: string)
      returns (err: Option<Error>, ghost tries: nat, ghost base: Meta, ghost wrote: bool)
      requires Ready(obj)
      modifies client, obj
      ensures Ready(obj) && Evolves(old(client.world), client.world) && old(client.steps) <= client.steps
      ensures old(client.Lawful() && MayRemove(client.pair, client.world, finalizer)) ==> client.Lawful()
      ensures tries <= 4 && err != Some(Handler)
      ensures err == Some(Conflict) ==> tries == 4
      ensures 0 < tries && old(obj.meta).version + (tries - 1) <= base.version <= obj.meta.version
      ensures err.None? ==> finalizer !in obj.meta.finalizers
      ensures err.None? ==> RemovedFrom(client.world, old(obj.meta), base, obj.meta, wrote, finalizer)
    {
      base := obj.meta;
      err, wrote := DoRemoveFinalizer(obj, finalizer);
      tries := 1;
      var attempts := 0;
      while err == Some(Conflict) && attempts < 3
        invariant Ready(obj) && Evolves(old(client.world), client.world) && old(client.steps) <= client.steps
        invariant attempts <= 3 && tries == attempts + 1 && err != Some(Handler)
        invariant old(obj.meta).version + attempts <= base.version <= obj.meta.version
        invariant err == Some(Conflict) ==> Outdated(client.world, obj.meta) && obj.meta == base
        invariant old(client.Lawful() && MayRemove(client.pair, client.world, finalizer)) ==> client.Lawful()
        invariant err.None? ==> RemovedFrom(client.world, old(obj.meta), base, obj.meta, wrote, finalizer)
        decreases 3 - attempts
      {
        ghost var w0 := client.world;
        err := GetInto(obj);
        EvolvesTransitive(old(client.world), w0, client.world);
        if err.Some? {
          return;
        }
        ghost var w1 := client.world;
        StillMay(client.pair, old(client.world), w1, finalizer, "");
        base := obj.meta;
        err, wrote := DoRemoveFinalizer(obj, finalizer);
        EvolvesTransitive(old(client.world), w1, client.world);
        attempts := attempts + 1;
        tries := tries + 1;
      }
    }

    method DoReplaceFinalizer(obj: Object, toReplace: string, replaceWith: string)
      returns (err: Option<Error>, ghost wrote: bool)
      requires Ready(obj)
      modifies client, obj
      ensures Ready(obj) && Evolves(old(client.world), client.world) && old(client.steps) <= client.steps
      ensures old(client.Lawful() && MayReplace(client.pair, client.world, toReplace, replaceWith)) ==> client.Lawful()
      ensures err.Some? ==> obj.meta == old(obj.meta)
      ensures err.None? ==> wrote == !(replaceWith in old(obj.meta).finalizers && toReplace !in old(obj.meta).finalizers)
      ensures err.None? ==> Edited(client.world, old(obj.meta), old(obj.meta), obj.meta, wrote,
                                   Replaced(old(obj.meta).finalizers, toReplace, replaceWith))
      ensures err.None? && toReplace !in old(obj.meta).finalizers && replaceWith !in old(obj.meta).finalizers ==>
        !old(obj.meta).deleting
      ensures err.None? && wrote ==>
        Patched(ReplaceRequest(old(obj.meta), toReplace, replaceWith)) in client.steps[|old(client.steps)|..]
      ensures err != Some(Handler)
      ensures err == Some(Conflict) ==> Outdated(client.world, obj.meta)
    {
      var finalizers := obj.meta.finalizers;
      if replaceWith in finalizers {
        if toReplace in finalizers {
          err, wrote := DoRemoveFinalizer(obj, toReplace);
          return;
        }
        return None, false;
      }
      if toReplace !in finalizers {
        err, wrote := DoAddFinalizer(obj, toReplace);
        return;
      }
      var req := [Replace(FinalizerAt(IndexOf(finalizers, toReplace)), Name(replaceWith)),
                  Replace(ResourceVersion, Version(obj.meta.version))];
      assert EditOf(obj.meta, req) == Some(finalizers[IndexOf(finalizers, toReplace) := replaceWith]);
      if MayReplace(client.pair, client.world, toReplace, replaceWith) {
        IndexedReplaceLicensed(client.pair, client.world, finalizers, toReplace, replaceWith);
      }
      err := PatchInto(obj, req);
      return err, true;
    }

    method ReplaceFinalizer(obj: Object, toReplace: string, replaceWith: string)
      returns (err: Option<Error>, ghost tries: nat, ghost base: Meta, ghost wrote: bool)
      requires Ready(obj)
      modifies client, obj
      ensures Ready(obj) && Evolves(old(client.world), client.world) && old(client.steps) <= client.steps
      ensures old(client.Lawful() && MayReplace(client.pair, client.world, toReplace, replaceWith)) ==> client.Lawful()
      ensures tries <= 4 && err != Some(Handler)
      ensures err == Some(Conflict) ==> tries == 4
      ensures 0 < tries && old(obj.meta).version + (tries - 1) <= base.version <= obj.meta.version
      ensures err.None? ==> wrote == !(replaceWith in base.finalizers && toReplace !in base.finalizers)
      ensures err.None? ==> Edited(client.world, old(obj.meta), base, obj.meta, wrote,
                                   Replaced(base.finalizers, toReplace, replaceWith))
      ensures err.None? && toReplace !in base.finalizers && replaceWith !in base.finalizers ==> !base.deleting
    {
      base := obj.meta;
      err, wrote := DoReplaceFinalizer(obj, toReplace, replaceWith);
      tries := 1;
      var attempts := 0;
      while err == Some(Conflict) && attempts < 3
        invariant Ready(obj) && Evolves(old(client.world), client.world) && old(client.steps) <= client.steps
        invariant attempts <= 3 && tries == attempts + 1 && err != Some(Handler)
        invariant old(obj.meta).version + attempts <= base.version <= obj.meta.version
        invariant err == Some(Conflict) ==> Outdated(client.world, obj.meta) && obj.meta == base
        invariant old(client.Lawful() && MayReplace(client.pair, client.world, toReplace, replaceWith)) ==> client.Lawful()
        invariant err.None? ==> wrote == !(replaceWith in base.finalizers && toReplace !in base.finalizers)
        invariant err.None? ==> Edited(client.world, old(obj.meta), base, obj.meta, wrote,
                                       Replaced(base.finalizers, toReplace, replaceWith))
        invariant err.None? && toReplace !in base.finalizers && replaceWith !in base.finalizers ==> !base.deleting
        decreases 3 - attempts
      {
        ghost var w0 := client.world;
        err := GetInto(obj);
        EvolvesTransitive(old(client.world), w0, client.world);
        if err.Some? {
          return;
        }
        ghost var w1 := client.world;
        StillMay(client.pair, old(client.world), w1, toReplace, replaceWith);
        base := obj.meta;
        err, wrote := DoReplaceFinalizer(obj, toReplace, replaceWith);
        EvolvesTransitive(old(client.world), w1, client.world);
        attempts := attempts + 1;
        tries := tries + 1;
      }
    }
  }

  /** The finalizer list a guarded patch computes from its own base. */
  function EditOf(base: Meta, ops: seq<PatchOp>): Option<seq<string>>
    requires |ops| > 0
  {
    match ApplyOp(base, ops[0]) { case None => None case Some(doc) => Some(doc.finalizers) }
  }

  /** An accepted guarded patch was computed from the very document it replaced, and made exactly its edit. */
  lemma PatchOutcome(w: World, ops: seq<PatchOp>, base: Meta)
    requires Ordered(w) && Computed(w, ops, base)
    ensures Submit(w.stored, ops).1 == Refused(Conflict) ==> Outdated(w, base)
    ensures Submit(w.stored, ops).1 != Refused(Handler)
    ensures var (_, reply) := Submit(w.stored, ops); reply.Accepted? ==>
      && w.stored == Present(base)
      && Follows(Next(w, Patched(ops)), base, reply.meta)
      && reply.meta in Next(w, Patched(ops)).history
      && reply.meta.version == base.version + 1
      && Some(reply.meta.finalizers) == EditOf(base, ops)
      && reply.meta.deleting == base.deleting
      && (base.deleting ==> forall f :: f in reply.meta.finalizers ==> f in base.finalizers)
  {
    var (_, reply) := Submit(w.stored, ops);
    if reply.Accepted? {
      AcceptedBase(w, ops, base);
      var n := |w.history|;
      var i :| 0 <= i < n && w.history[i] == base;
      assert i == n - 1;
      var h := Next(w, Patched(ops)).history;
      assert h[n - 1] == base && h[n] == reply.meta;
    } else if reply.error == Conflict {
      GuardedApply(w.stored.meta, ops, base);
      var i :| 0 <= i < |w.history| && w.history[i] == base;
      assert i < |w.history| - 1;
    }
  }
}
