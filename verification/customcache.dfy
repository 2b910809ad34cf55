/** processDeltas: a batch of deltas applied to the cache, each success reported to the event handlers. */
module CustomCache {
  import opened Common

  /** A resource object: its cache key and the rest. */
  datatype Object = Object(key: string, content: int)

  type Cache = map<string, Object>

  datatype DeltaType = Sync | Replaced | Added | Updated | Deleted | Unrecognized

  /** A delta, with what the store will do about it: fail the Get, fail the write. */
  datatype Delta = Delta(kind: DeltaType, obj: Object, getFails: bool, writeFails: bool)

  /** The calls made on a cache.ResourceEventHandler. */
  datatype Call = OnAdd(obj: Object, isInInitialList: bool) | OnUpdate(previous: Object, obj: Object) | OnDelete(obj: Object)

  predicate Upserts(d: Delta) {
    d.kind.Sync? || d.kind.Replaced? || d.kind.Added? || d.kind.Updated?
  }

  /** Processing a batch stops here: a delta of a known kind whose store write fails. */
  predicate Fails(d: Delta) {
    d.writeFails && (Upserts(d) || d.kind.Deleted?)
  }

  /** How many deltas of a batch take effect: those before the first failing one. */
  function Cut(batch: seq<Delta>): (n: nat)
    ensures n <= |batch| && (n < |batch| ==> batch[n].writeFails && !batch[n].kind.Unrecognized?)
    ensures forall i :: 0 <= i < n ==> !batch[i].writeFails || batch[i].kind.Unrecognized?
  {
    if batch == [] || Fails(batch[0]) then 0 else 1 + Cut(batch[1..])
  }

  /** A delta after which the object is in the cache, or is not, whatever the events said. */
  function Applied(c: Cache, d: Delta): Cache {
    if Upserts(d) then c[d.obj.key := d.obj] else if d.kind.Deleted? then c - {d.obj.key} else c
  }

  /** The call a delta that takes effect makes. A failing Get counts as absence. */
  function Reported(c: Cache, d: Delta, initial: bool): seq<Call> {
    if Upserts(d) then
      if !d.getFails && d.obj.key in c then [OnUpdate(c[d.obj.key], d.obj)] else [OnAdd(d.obj, initial)]
    else if d.kind.Deleted? then [OnDelete(d.obj)]
    else []
  }

  /** A delta that took effect, with its batch's isInInitialList. */
  datatype Input = Input(delta: Delta, initial: bool)

  function Inputs(ds: seq<Delta>, initial: bool): seq<Input> {
    seq(|ds|, i requires 0 <= i < |ds| => Input(ds[i], initial))
  }

  function After(c: Cache, ins: seq<Input>): Cache
    decreases |ins|
  {
    if ins == [] then c else After(Applied(c, ins[0].delta), ins[1..])
  }

  function Emitted(c: Cache, ins: seq<Input>): seq<Call>
    decreases |ins|
  {
    if ins == [] then [] else Reported(c, ins[0].delta, ins[0].initial) + Emitted(Applied(c, ins[0].delta), ins[1..])
  }

  // ---- a listener's view ----

  /** What a listener that only sees the calls does to its copy of the cache. */
  function Replayed(c: Cache, call: Call): Cache {
    match call
    case OnAdd(obj, _) => c[obj.key := obj]
    case OnUpdate(_, obj) => c[obj.key := obj]
    case OnDelete(obj) => c - {obj.key}
  }

  function Replay(c: Cache, calls: seq<Call>): Cache
    decreases |calls|
  {
    if calls == [] then c else Replay(Replayed(c, calls[0]), calls[1..])
  }

  /** A call that tells the truth about a cache it is about to change. */
  predicate Truthful(c: Cache, call: Call) {
    match call
    case OnAdd(obj, _) => obj.key !in c
    case OnUpdate(previous, obj) => obj.key in c && c[obj.key] == previous
    case OnDelete(_) => true
  }

  lemma {:induction false} AfterSnoc(c: Cache, ins: seq<Input>, x: Input)
    ensures After(c, ins + [x]) == Applied(After(c, ins), x.delta)
    ensures Emitted(c, ins + [x]) == Emitted(c, ins) + Reported(After(c, ins), x.delta, x.initial)
    decreases |ins|
  {
    if ins == [] {
      assert (ins + [x])[1..] == [];
    } else {
      assert (ins + [x])[1..] == ins[1..] + [x];
      AfterSnoc(Applied(c, ins[0].delta), ins[1..], x);
    }
  }

  lemma {:induction false} AfterAppend(c: Cache, a: seq<Input>, b: seq<Input>)
    ensures After(c, a + b) == After(After(c, a), b)
    ensures Emitted(c, a + b) == Emitted(c, a) + Emitted(After(c, a), b)
    decreases |a|
  {
    if a == [] {
      assert a + b == b;
    } else {
      assert (a + b)[1..] == a[1..] + b;
      AfterAppend(Applied(c, a[0].delta), a[1..], b);
    }
  }

  /**
    Main theorem. Whatever the store's Get failures, a listener that has replayed the
    first `n` calls on a copy of the initial cache holds exactly what the cache held
    after some prefix of the deltas that took effect.
   */
  lemma {:induction false} ReplayIsSnapshot(c: Cache, ins: seq<Input>, n: nat)
    requires n <= |Emitted(c, ins)|
    ensures exists m :: 0 <= m <= |ins| && Replay(c, Emitted(c, ins)[..n]) == After(c, ins[..m])
    decreases |ins|
  {
    if n == 0 {
      assert After(c, ins[..0]) == c;
    } else {
      var d, here := ins[0].delta, Reported(c, ins[0].delta, ins[0].initial);
      var rest := Emitted(Applied(c, d), ins[1..]);
      ReplayIsSnapshot(Applied(c, d), ins[1..], n - |here|);
      var m :| 0 <= m <= |ins[1..]| && Replay(Applied(c, d), rest[..n - |here|]) == After(Applied(c, d), ins[1..][..m]);
      ReplayHere(c, ins[0], rest, n);
      AfterHere(c, ins, m);
      assert Replay(c, Emitted(c, ins)[..n]) == After(c, ins[..m + 1]);
    }
  }

  /** One delta's own calls bring a copy of the cache to where the delta brings the cache. */
  lemma ReplayHere(c: Cache, x: Input, rest: seq<Call>, n: nat)
    requires |Reported(c, x.delta, x.initial)| <= n <= |Reported(c, x.delta, x.initial) + rest|
    ensures var here := Reported(c, x.delta, x.initial);
      Replay(c, (here + rest)[..n]) == Replay(Applied(c, x.delta), rest[..n - |here|])
  {
    var here := Reported(c, x.delta, x.initial);
    if |here| == 1 {
      assert (here + rest)[..n] == here + rest[..n - 1];
      assert (here + rest[..n - 1])[1..] == rest[..n - 1];
    } else {
      assert here + rest == rest;
    }
  }

  lemma AfterHere(c: Cache, ins: seq<Input>, m: nat)
    requires m < |ins|
    ensures After(c, ins[..m + 1]) == After(Applied(c, ins[0].delta), ins[1..][..m])
  {
    assert ins[..m + 1][1..] == ins[1..][..m];
  }

  /** Replaying everything gives the cache itself. */
  lemma {:induction false} ReplayAll(c: Cache, ins: seq<Input>)
    ensures Replay(c, Emitted(c, ins)) == After(c, ins)
    decreases |ins|
  {
    if ins != [] {
      var d := ins[0].delta;
      var here, rest := Reported(c, d, ins[0].initial), Emitted(Applied(c, d), ins[1..]);
      ReplayAll(Applied(c, d), ins[1..]);
      if |here| == 1 {
        assert (here + rest)[1..] == rest;
      } else {
        assert here + rest == rest;
      }
    }
  }

  /**
    Each call tells the truth about the listener's copy, with one exact exception:
    an OnAdd for a present key is sent precisely when the store's Get failed on it.
   */
  lemma ReportedTruthfulIff(c: Cache, d: Delta, initial: bool)
    requires Reported(c, d, initial) != []
    ensures Truthful(c, Reported(c, d, initial)[0]) <==> !(Upserts(d) && d.getFails && d.obj.key in c)
  {
  }

  /** A delta meets a failing Get of a key the cache does hold. */
  predicate Blinded(c: Cache, ins: seq<Input>)
    decreases |ins|
  {
    ins != [] && var d := ins[0].delta;
    (Upserts(d) && d.getFails && d.obj.key in c) || Blinded(Applied(c, d), ins[1..])
  }

  ghost predicate AllTruthful(c: Cache, calls: seq<Call>)
    decreases |calls|
  {
    calls != [] ==> Truthful(c, calls[0]) && AllTruthful(Replayed(c, calls[0]), calls[1..])
  }

  /** Over a whole run: OnAdd only for absent keys and OnUpdate with the true old value, exactly unless some Get was blinded. */
  lemma {:induction false} EmittedTruthfulIff(c: Cache, ins: seq<Input>)
    ensures AllTruthful(c, Emitted(c, ins)) <==> !Blinded(c, ins)
    decreases |ins|
  {
    if ins != [] {
      var d := ins[0].delta;
      var here, rest := Reported(c, d, ins[0].initial), Emitted(Applied(c, d), ins[1..]);
      EmittedTruthfulIff(Applied(c, d), ins[1..]);
      if |here| == 1 {
        assert (here + rest)[0] == here[0] && (here + rest)[1..] == rest;
        ReportedTruthfulIff(c, d, ins[0].initial);
      } else {
        assert here + rest == rest;
      }
    }
  }

  /** A concrete blinded run: a cached object is announced as an addition. */
  lemma BlindGetAnnouncesAgain()
    ensures var o := Object("a", 1);
      Emitted(map["a" := o], [Input(Delta(Updated, Object("a", 2), true, false), false)]) == [OnAdd(Object("a", 2), false)]
  {
  }

  // ---- what each call carries, and what the cache ends up with ----

  /** The deltas of a known type. */
  function Heard(ins: seq<Input>): seq<Input> {
    if ins == [] then [] else (if ins[0].delta.kind.Unrecognized? then [] else [ins[0]]) + Heard(ins[1..])
  }

  /** A deletion is told as one, all else as an addition or an update; each with the delta's object, an addition with its batch's flag. */
  predicate Carries(call: Call, x: Input) {
    match call
    case OnAdd(obj, isInInitialList) => !x.delta.kind.Deleted? && obj == x.delta.obj && isInInitialList == x.initial
    case OnUpdate(_, obj) => !x.delta.kind.Deleted? && obj == x.delta.obj
    case OnDelete(obj) => x.delta.kind.Deleted? && obj == x.delta.obj
  }

  /** Main theorem, the calls: one for each delta of a known type, in order, carrying just that delta. */
  lemma {:induction false} CallsCarry(c: Cache, ins: seq<Input>)
    ensures |Emitted(c, ins)| == |Heard(ins)|
    ensures forall n :: 0 <= n < |Heard(ins)| ==> Carries(Emitted(c, ins)[n], Heard(ins)[n])
    decreases |ins|
  {
    if ins != [] {
      CallsCarry(Applied(c, ins[0].delta), ins[1..]);
    }
  }

  /** The last delta of a known type about a key. */
  function LastOf(ins: seq<Input>, key: string): Option<Delta> {
    if ins == [] then None
    else
      var later := LastOf(ins[1..], key);
      if later.Some? then later
      else if !ins[0].delta.kind.Unrecognized? && ins[0].delta.obj.key == key then Some(ins[0].delta) else None
  }

  /** Main theorem, the cache: under each key stands what the last delta about it says, and without one what stood there before. */
  lemma {:induction false} CacheIsLast(c: Cache, ins: seq<Input>, key: string)
    ensures match LastOf(ins, key)
      case None => (key in After(c, ins) <==> key in c) && (key in c ==> After(c, ins)[key] == c[key])
      case Some(d) => (key in After(c, ins) <==> !d.kind.Deleted?) && (!d.kind.Deleted? ==> After(c, ins)[key] == d.obj)
    decreases |ins|
  {
    if ins != [] {
      CacheIsLast(Applied(c, ins[0].delta), ins[1..], key);
    }
  }

  // ---- the loop ----

  /** A cache.Store. Add and Update both set the object under its key; a call that fails changes nothing. */
  class Store {
    var items: Cache

    method Get(obj: Object, fails: bool) returns (found: Option<Object>, err: bool)
      ensures err == fails
      ensures found == if !fails && obj.key in items then Some(items[obj.key]) else None
    {
      if !fails && obj.key in items {
        return Some(items[obj.key]), false;
      }
      return None, fails;
    }

    method Add(obj: Object, fails: bool) returns (err: bool)
      modifies this
      ensures err == fails && items == if fails then old(items) else old(items)[obj.key := obj]
    {
      if !fails {
        items := items[obj.key := obj];
      }
      return fails;
    }

    method Update(obj: Object, fails: bool) returns (err: bool)
      modifies this
      ensures err == fails && items == if fails then old(items) else old(items)[obj.key := obj]
    {
      if !fails {
        items := items[obj.key := obj];
      }
      return fails;
    }

    method Delete(obj: Object, fails: bool) returns (err: bool)
      modifies this
      ensures err == fails && items == if fails then old(items) else old(items) - {obj.key}
    {
      if !fails {
        items := items - {obj.key};
      }
      return fails;
    }
  }

  /** A handler that keeps the calls it gets. */
  class Handler {
    var calls: seq<Call>

    method Handle(call: Call)
      modifies this
      ensures calls == old(calls) + [call]
    {
      calls := calls + [call];
    }
  }

  /** The loop over one batch: cache and calls are those of the deltas before the cut, and the error says whether there was one. */
  method ProcessDeltas(handler: Handler, store: Store, deltas: seq<Delta>, isInInitialList: bool) returns (err: bool)
    modifies handler, store
    ensures var ins := Inputs(deltas[..Cut(deltas)], isInInitialList);
      store.items == After(old(store.items), ins) && handler.calls == old(handler.calls) + Emitted(old(store.items), ins)
    ensures err <==> Cut(deltas) < |deltas|
  {
    ghost var c0, calls0 := store.items, handler.calls;
    for i := 0 to |deltas|
      invariant i <= Cut(deltas)
      invariant store.items == After(c0, Inputs(deltas[..i], isInInitialList))
      invariant handler.calls == calls0 + Emitted(c0, Inputs(deltas[..i], isInInitialList))
    {
      var d := deltas[i];
      InputsSnoc(c0, calls0, deltas, isInInitialList, i);
      match d.kind {
        case Sync | Replaced | Added | Updated =>
          var previous, getErr := store.Get(d.obj, d.getFails);
          if !getErr && previous.Some? {
            err := store.Update(d.obj, d.writeFails);
            if err {
              return;
            }
            handler.Handle(OnUpdate(previous.value, d.obj));
          } else {
            err := store.Add(d.obj, d.writeFails);
            if err {
              return;
            }
            handler.Handle(OnAdd(d.obj, isInInitialList));
          }
        case Deleted =>
          err := store.Delete(d.obj, d.writeFails);
          if err {
            return;
          }
          handler.Handle(OnDelete(d.obj));
        case Unrecognized =>
      }
    }
    return false;
  }

  lemma InputsSnoc(c: Cache, calls: seq<Call>, deltas: seq<Delta>, initial: bool, i: nat)
    requires i < |deltas|
    ensures var done, next := Inputs(deltas[..i], initial), Inputs(deltas[..i + 1], initial);
      && After(c, next) == Applied(After(c, done), deltas[i])
      && calls + Emitted(c, next) == (calls + Emitted(c, done)) + Reported(After(c, done), deltas[i], initial)
  {
    var done := Inputs(deltas[..i], initial);
    assert Inputs(deltas[..i + 1], initial) == done + [Input(deltas[i], initial)];
    AfterSnoc(c, done, Input(deltas[i], initial));
    var here := Reported(After(c, done), deltas[i], initial);
    assert calls + (Emitted(c, done) + here) == (calls + Emitted(c, done)) + here;
  }
}
