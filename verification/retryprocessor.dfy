/** The sharded retry processor: one heap per worker, together one flat multiset of pending retries. */
module RetryProcessors {
  import opened Common
  import opened RetryHeap

  /** All pending retries, whichever shard holds them. */
  ghost function Flat(qs: seq<seq<Retry>>): multiset<Retry> {
    if qs == [] then multiset{} else multiset(qs[0]) + Flat(qs[1..])
  }

  lemma {:induction false} FlatUpdate(qs: seq<seq<Retry>>, i: nat, q: seq<Retry>, r: Retry)
    requires i < |qs|
    ensures Flat(qs[i := q])[r] + multiset(qs[i])[r] == Flat(qs)[r] + multiset(q)[r]
  {
    if i == 0 {
      assert qs[i := q][1..] == qs[1..];
    } else {
      assert qs[i := q][1..] == qs[1..][i - 1 := q];
      FlatUpdate(qs[1..], i - 1, q, r);
    }
  }

  /** A retry that only one shard can hold occurs in the whole as often as there. */
  lemma {:induction false} FlatOnlyIn(qs: seq<seq<Retry>>, i: nat, r: Retry)
    requires i < |qs| && forall j :: 0 <= j < |qs| && j != i ==> r !in qs[j]
    ensures Flat(qs)[r] == multiset(qs[i])[r]
  {
    if i == 0 {
      FlatNowhere(qs[1..], r);
    } else {
      assert multiset(qs[0])[r] == 0;
      FlatOnlyIn(qs[1..], i - 1, r);
    }
  }

  lemma {:induction false} FlatNowhere(qs: seq<seq<Retry>>, r: Retry)
    requires forall j :: 0 <= j < |qs| ==> r !in qs[j]
    ensures Flat(qs)[r] == 0
  {
    if qs != [] {
      assert multiset(qs[0])[r] == 0;
      FlatNowhere(qs[1..], r);
    }
  }

  /** Two lists of queues that agree everywhere but at shard `i`. */
  lemma {:induction false} FlatExcept(qs: seq<seq<Retry>>, rs: seq<seq<Retry>>, i: nat, r: Retry)
    requires |qs| == |rs| && i < |qs| && forall j :: 0 <= j < |qs| && j != i ==> rs[j] == qs[j]
    ensures Flat(rs)[r] + multiset(qs[i])[r] == Flat(qs)[r] + multiset(rs[i])[r]
  {
    assert rs == qs[i := rs[i]];
    FlatUpdate(qs, i, rs[i], r);
  }

  // ---- what each locked region does to the pending retries, as a whole ----

  /** Enqueue: one more. */
  ghost predicate Enqueues(before: multiset<Retry>, req: Retry, after: multiset<Retry>) {
    after == before + multiset{req}
  }

  /** Dequeue and DequeueAll: exactly the key's matching ones go. */
  ghost predicate Dequeues(before: multiset<Retry>, key: string, matches: Retry -> bool, after: multiset<Retry>) {
    forall r :: (after[r] == if r.key == key && matches(r) then 0 else before[r])
  }

  /** Phase 1 of processReady: a worker takes exactly its shard's due ones. */
  ghost predicate Pops(shard: string -> nat, worker: nat, now: int, before: multiset<Retry>, ready: seq<Retry>, after: multiset<Retry>) {
    && (forall r :: (multiset(ready)[r] == if shard(r.key) == worker && r.retryAfter <= now then before[r] else 0))
    && after + multiset(ready) == before
  }

  /** Phase 3 of processReady: each retry comes in as often as results put it back. */
  ghost predicate Requeues(results: seq<Result>, policy: Policy, clock: seq<int>, before: multiset<Retry>, after: multiset<Retry>)
    requires |clock| == |results|
  {
    forall r :: after[r] == before[r] + TimesBack(results, policy, clock, r)
  }

  lemma RequeuesChildren(results: seq<Result>, policy: Policy, clock: seq<int>, before: multiset<Retry>, after: multiset<Retry>)
    requires |clock| == |results| && Requeues(results, policy, clock, before, after)
    ensures after == before + multiset(Children(results, policy, clock))
  {
    forall r ensures after[r] == (before + multiset(Children(results, policy, clock)))[r] {
      RequeuedExactly(results, policy, clock, r);
    }
  }

  /** The predicate of DequeueAll. */
  predicate Every(r: Retry) {
    true
  }

  class RetryProcessor {
    const workers: seq<RetryWorker>
    /** The hash of a key; any function will do. */
    const hash: string -> nat

    ghost predicate Valid()
      reads this, workers
    {
      && |workers| > 0
      && (forall i, j :: 0 <= i < j < |workers| ==> workers[i] != workers[j])
      && (forall i :: 0 <= i < |workers| ==> IsHeap(workers[i].queue))
      && (forall i, r :: 0 <= i < |workers| && r in workers[i].queue ==> Shard(r.key) == i)
    }

    function Shard(key: string): (i: nat)
      requires |workers| > 0
      ensures i < |workers|
    {
      hash(key) % |workers|
    }

    /** Every key's worker. */
    function Shards(): string -> nat
      requires |workers| > 0
    {
      (key: string) => hash(key) % |workers|
    }

    ghost function Queues(): (qs: seq<seq<Retry>>)
      reads workers
      ensures |qs| == |workers| && forall i :: 0 <= i < |qs| ==> qs[i] == workers[i].queue
    {
      seq(|workers|, i requires 0 <= i < |workers| reads workers => workers[i].queue)
    }

    ghost function Pending(): multiset<Retry>
      reads workers
    {
      Flat(Queues())
    }

    /** A pool size that is not positive means four workers. */
    constructor (workerPoolSize: int, h: string -> nat)
      ensures Valid() && Pending() == multiset{} && hash == h
      ensures |workers| == if workerPoolSize <= 0 then 4 else workerPoolSize
      ensures fresh(workers)
    {
      hash := h;
      var n: nat := if workerPoolSize <= 0 then 4 else workerPoolSize;
      var ws: seq<RetryWorker> := [];
      for i := 0 to n
        invariant |ws| == i && fresh(ws)
        invariant forall j :: 0 <= j < i ==> ws[j].queue == []
        invariant forall j, k :: 0 <= j < k < i ==> ws[j] != ws[k]
      {
        var w := new RetryWorker();
        ws := ws + [w];
      }
      workers := ws;
      new;
      forall r ensures Pending()[r] == 0 {
        FlatNowhere(Queues(), r);
      }
    }

    method Enqueue(req: Retry)
      requires Valid()
      modifies workers
      ensures Valid() && Enqueues(old(Pending()), req, Pending())
    {
      ghost var qs := Queues();
      var i := Shard(req.key);
      var w := workers[i];
      w.Push(req);
      forall r | r in w.queue ensures Shard(r.key) == i {
        assert r in multiset(w.queue);
      }
      forall r ensures Pending()[r] == (old(Pending()) + multiset{req})[r] {
        FlatExcept(qs, Queues(), i, r);
      }
    }

    /** Dequeue with a predicate; a nil predicate is DequeueAll. */
    method Dequeue(key: string, matches: Option<Retry -> bool>)
      requires Valid()
      modifies workers
      ensures Valid()
      ensures Dequeues(old(Pending()), key, if matches.None? then Every else matches.value, Pending())
    {
      match matches
      case None => DequeueAll(key);
      case Some(m) => DequeueFrom(key, m);
    }

    method DequeueAll(key: string)
      requires Valid()
      modifies workers
      ensures Valid() && Dequeues(old(Pending()), key, Every, Pending())
    {
      DequeueFrom(key, Every);
    }

    /** The filtering both variants do, under the lock of the key's worker. */
    method DequeueFrom(key: string, matches: Retry -> bool)
      requires Valid()
      modifies workers
      ensures Valid() && Dequeues(old(Pending()), key, matches, Pending())
    {
      ghost var qs := Queues();
      var i := Shard(key);
      var w := workers[i];
      w.Filter(key, matches);
      forall r ensures multiset(w.queue)[r] == if r.key == key && matches(r) then 0 else multiset(qs[i])[r] {
        KeptCount(qs[i], key, matches, r);
      }
      forall r | r in w.queue ensures Shard(r.key) == i {
        assert multiset(w.queue)[r] > 0;
        assert r in qs[i];
      }
      forall r ensures Pending()[r] == if r.key == key && matches(r) then 0 else Flat(qs)[r] {
        FlatExcept(qs, Queues(), i, r);
        if r.key == key {
          FlatOnlyIn(qs, i, r);
        }
      }
    }

    /** Phase 1 of one worker's processReady, seen from the whole: its shard's due retries leave, in due order. */
    method PopReady(i: nat, now: int) returns (ready: seq<Retry>)
      requires Valid() && i < |workers|
      modifies workers
      ensures Valid() && DueOrder(ready)
      ensures Pops(Shards(), i, now, old(Pending()), ready, Pending())
    {
      ghost var qs := Queues();
      var w := workers[i];
      ready := w.PopReady(now);
      forall r ensures multiset(ready)[r] == if Shard(r.key) == i && r.retryAfter <= now then Flat(qs)[r] else 0 {
        assert multiset(ready)[r] + multiset(w.queue)[r] == multiset(qs[i])[r];
        assert r in ready <==> multiset(ready)[r] > 0;
        assert r in w.queue <==> multiset(w.queue)[r] > 0;
        if Shard(r.key) == i {
          FlatOnlyIn(qs, i, r);
        } else {
          assert r !in qs[i];
        }
      }
      forall r | r in w.queue ensures Shard(r.key) == i {
        assert (multiset(ready) + multiset(w.queue))[r] > 0;
        assert r in qs[i];
      }
      forall r ensures (Pending() + multiset(ready))[r] == Flat(qs)[r] {
        FlatExcept(qs, Queues(), i, r);
        assert multiset(ready)[r] + multiset(w.queue)[r] == multiset(qs[i])[r];
      }
    }

    /** Phase 3 of one worker's processReady, seen from the whole. */
    method Requeue(i: nat, results: seq<Result>, policy: Policy, clock: seq<int>)
      requires Valid() && i < |workers| && |clock| == |results|
      requires forall k :: 0 <= k < |results| ==> Shard(results[k].req.key) == i
      modifies workers
      ensures Valid() && Requeues(results, policy, clock, old(Pending()), Pending())
    {
      ghost var qs := Queues();
      var w := workers[i];
      w.Requeue(results, policy, clock);
      forall r | r in w.queue ensures Shard(r.key) == i {
        assert multiset(w.queue)[r] > 0;
        if r !in qs[i] {
          ChildKeys(results, policy, clock, r);
        }
      }
      forall r ensures Pending()[r] == Flat(qs)[r] + TimesBack(results, policy, clock, r) {
        FlatExcept(qs, Queues(), i, r);
      }
    }

    /** Len: the number of pending retries over all workers. */
    method Len() returns (total: nat)
      requires Valid()
      ensures total == |Pending()|
    {
      total := 0;
      for i := 0 to |workers|
        invariant total == |Flat(Queues()[..i])|
      {
        total := total + |workers[i].queue|;
        FlatSnoc(Queues()[..i], Queues()[i]);
        assert Queues()[..i + 1] == Queues()[..i] + [Queues()[i]];
      }
      assert Queues()[..|workers|] == Queues();
    }
  }

  /** A re-queued retry keeps the key, and the lineage, of the one it replaces. */
  lemma {:induction false} ChildKeys(results: seq<Result>, policy: Policy, clock: seq<int>, r: Retry)
    requires |results| == |clock| && r in Children(results, policy, clock)
    ensures exists k :: 0 <= k < |results| && results[k].req.key == r.key && results[k].req.func == r.func
  {
    if r in Children(results[1..], policy, clock[1..]) {
      ChildKeys(results[1..], policy, clock[1..], r);
      var k :| 0 <= k < |results[1..]| && results[1..][k].req.key == r.key && results[1..][k].req.func == r.func;
      assert results[k + 1].req.key == r.key;
    } else {
      assert Child(results[0], policy, clock[0]) == Some(r);
    }
  }

  lemma {:induction false} FlatSnoc(qs: seq<seq<Retry>>, q: seq<Retry>)
    ensures Flat(qs + [q]) == Flat(qs) + multiset(q)
  {
    if qs == [] {
      assert qs + [q] == [q];
    } else {
      assert (qs + [q])[1..] == qs[1..] + [q];
      FlatSnoc(qs[1..], q);
    }
  }
}
