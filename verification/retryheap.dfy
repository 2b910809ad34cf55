/** One retry worker: the min-heap of pending retries with container/heap's sifts, and the three locked regions that use it. */
module RetryHeap {
  import opened Common

  datatype Action = Create | Update | Delete | Resync

  /**
    A pending retry. `func` is the identity of its RetryFunc closure: every Enqueue
    brings a new one and every re-queued retry keeps its own, so it names the
    lineage of a retry.
   */
  datatype Retry = Retry(key: string, retryAfter: int, func: nat, attempt: int, action: Action,
                         generation: int, lastError: Option<int>)

  predicate Less(q: seq<Retry>, i: nat, j: nat)
    requires i < |q| && j < |q|
  {
    q[i].retryAfter < q[j].retryAfter
  }

  function Parent(i: nat): nat
    requires i > 0
  {
    (i - 1) / 2
  }

  /** Heap order on the first `n` entries, for every parent at or after `from`. */
  ghost predicate HeapFrom(q: seq<Retry>, from: int, n: nat) {
    n <= |q| && forall i :: 0 < i < n && Parent(i) >= from ==> q[Parent(i)].retryAfter <= q[i].retryAfter
  }

  ghost predicate IsHeap(q: seq<Retry>) {
    HeapFrom(q, 0, |q|)
  }

  /** The root of a heap is due first. */
  lemma {:induction false} RootIsMinimal(q: seq<Retry>, n: nat, i: nat)
    requires HeapFrom(q, 0, n) && i < n
    ensures q[0].retryAfter <= q[i].retryAfter
    decreases i
  {
    if i > 0 {
      RootIsMinimal(q, n, Parent(i));
    }
  }

  function Swapped(q: seq<Retry>, i: nat, j: nat): (r: seq<Retry>)
    requires i < |q| && j < |q|
    ensures multiset(r) == multiset(q)
    ensures |r| == |q|
  {
    q[i := q[j]][j := q[i]]
  }

  /** Heap order everywhere except that entry `j` may be smaller than its parent. */
  ghost predicate RisingFrom(q: seq<Retry>, j: nat) {
    && j < |q|
    && (forall i :: 0 < i < |q| && i != j ==> q[Parent(i)].retryAfter <= q[i].retryAfter)
    && (j > 0 ==> forall i :: 0 < i < |q| && Parent(i) == j ==> q[Parent(j)].retryAfter <= q[i].retryAfter)
  }

  lemma RiseStep(q: seq<Retry>, j: nat)
    requires RisingFrom(q, j) && j > 0 && Less(q, j, Parent(j))
    ensures RisingFrom(Swapped(q, Parent(j), j), Parent(j))
  {
    var p, r := Parent(j), Swapped(q, Parent(j), j);
    forall i | 0 < i < |q| && i != p ensures r[Parent(i)].retryAfter <= r[i].retryAfter {
      assert Parent(i) < i;
    }
    if p > 0 {
      forall i | 0 < i < |q| && Parent(i) == p ensures r[Parent(p)].retryAfter <= r[i].retryAfter {
        assert q[Parent(p)].retryAfter <= q[p].retryAfter;
        assert Parent(p) < p < i;
      }
    }
  }

  /** Heap order at and below `start`, except that entry `i` may be larger than its children. */
  ghost predicate SinkingFrom(q: seq<Retry>, start: nat, i: nat, n: nat) {
    && start <= i <= n <= |q|
    && (forall k :: 0 < k < n && Parent(k) >= start && Parent(k) != i ==> q[Parent(k)].retryAfter <= q[k].retryAfter)
    && (i > start ==> Parent(i) >= start && forall k :: 0 < k < n && Parent(k) == i ==> q[Parent(i)].retryAfter <= q[k].retryAfter)
  }

  /** `j` is a smallest child of `i`. */
  ghost predicate SmallestChild(q: seq<Retry>, i: nat, n: nat, j: nat) {
    && n <= |q| && 0 < j < n && Parent(j) == i
    && forall k :: 0 < k < n && Parent(k) == i ==> q[j].retryAfter <= q[k].retryAfter
  }

  lemma SinkStep(q: seq<Retry>, start: nat, i: nat, n: nat, j: nat)
    requires SinkingFrom(q, start, i, n) && SmallestChild(q, i, n, j) && Less(q, j, i)
    ensures SinkingFrom(Swapped(q, i, j), start, j, n)
    ensures Swapped(q, i, j)[n..] == q[n..]
  {
    var r := Swapped(q, i, j);
    forall k | 0 < k < n && Parent(k) >= start && Parent(k) != j ensures r[Parent(k)].retryAfter <= r[k].retryAfter {
      assert Parent(k) < k;
    }
    forall k | 0 < k < n && Parent(k) == j ensures r[Parent(j)].retryAfter <= r[k].retryAfter {
      assert q[Parent(k)].retryAfter <= q[k].retryAfter && i < j < k;
    }
  }

  /** A shard's worker. Every method is one region run under its mutex. */
  class RetryWorker {
    var queue: seq<Retry>

    constructor ()
      ensures queue == []
    {
      queue := [];
    }

    method Up(start: nat)
      requires RisingFrom(queue, start)
      modifies this
      ensures IsHeap(queue) && multiset(queue) == old(multiset(queue))
    {
      var j := start;
      while j > 0 && Less(queue, j, Parent(j))
        invariant RisingFrom(queue, j) && multiset(queue) == old(multiset(queue))
        decreases j
      {
        RiseStep(queue, j);
        queue := Swapped(queue, Parent(j), j);
        j := Parent(j);
      }
    }

    method Down(start: nat, n: nat)
      requires SinkingFrom(queue, start, start, n)
      modifies this
      ensures multiset(queue) == old(multiset(queue)) && |queue| == |old(queue)| && queue[n..] == old(queue)[n..]
      ensures HeapFrom(queue, start, n)
    {
      var i := start;
      while 2 * i + 1 < n
        invariant SinkingFrom(queue, start, i, n)
        invariant multiset(queue) == old(multiset(queue)) && |queue| == |old(queue)| && queue[n..] == old(queue)[n..]
        decreases n - i
      {
        var j := 2 * i + 1;
        if j + 1 < n && Less(queue, j + 1, j) {
          j := j + 1;
        }
        if !Less(queue, j, i) {
          return;
        }
        SinkStep(queue, start, i, n, j);
        queue := Swapped(queue, i, j);
        i := j;
      }
    }

    method Init()
      modifies this
      ensures IsHeap(queue) && multiset(queue) == old(multiset(queue))
    {
      var n := |queue|;
      var i := n / 2;
      while i > 0
        invariant |queue| == n && i <= n / 2 && multiset(queue) == old(multiset(queue))
        invariant HeapFrom(queue, i, n)
      {
        i := i - 1;
        Down(i, n);
      }
    }

    method Push(x: Retry)
      requires IsHeap(queue)
      modifies this
      ensures IsHeap(queue) && multiset(queue) == old(multiset(queue)) + multiset{x}
    {
      queue := queue + [x];
      Up(|queue| - 1);
    }

    method Pop() returns (x: Retry)
      requires IsHeap(queue) && |queue| > 0
      modifies this
      ensures IsHeap(queue) && old(multiset(queue)) == multiset(queue) + multiset{x}
      ensures x == old(queue)[0]
      ensures forall r :: r in old(queue) ==> x.retryAfter <= r.retryAfter
    {
      ghost var before := queue;
      RootFirst(before);
      var n := |queue| - 1;
      queue := Swapped(queue, 0, n);
      ghost var swapped := queue;
      Down(0, n);
      x := queue[n];
      assert x == queue[n..][0] == swapped[n..][0] == before[0];
      PrefixHeap(queue, n);
      queue := queue[..n];
    }

    /** Phase 1 of processReady: pop everything due at `now`. */
    method PopReady(now: int) returns (ready: seq<Retry>)
      requires IsHeap(queue)
      modifies this
      ensures IsHeap(queue) && multiset(ready) + multiset(queue) == old(multiset(queue))
      ensures forall r :: r in ready ==> r.retryAfter <= now
      ensures forall r :: r in queue ==> r.retryAfter > now
      ensures DueOrder(ready)
    {
      ready := [];
      while |queue| > 0 && queue[0].retryAfter <= now
        invariant IsHeap(queue) && multiset(ready) + multiset(queue) == old(multiset(queue))
        invariant forall r :: r in ready ==> r.retryAfter <= now
        invariant forall i, r :: 0 <= i < |ready| && r in queue ==> ready[i].retryAfter <= r.retryAfter
        invariant DueOrder(ready)
        decreases |queue|
      {
        ghost var before, popped := queue, ready;
        var req := Pop();
        OneTaken(before, queue, req);
        ready := ready + [req];
      }
      RootFirstIfAny(queue);
    }

    /** Dequeue and DequeueAll on the worker: keep what does not match, and re-heapify only if something went. */
    method Filter(key: string, matches: Retry -> bool)
      requires IsHeap(queue)
      modifies this
      ensures IsHeap(queue) && multiset(queue) == multiset(Kept(old(queue), key, matches))
    {
      var filtered: seq<Retry> := [];
      for i := 0 to |queue|
        modifies {}
        invariant filtered == Kept(queue[..i], key, matches)
      {
        assert queue[..i + 1] == queue[..i] + [queue[i]];
        KeptSnoc(queue[..i], queue[i], key, matches);
        if queue[i].key == key && matches(queue[i]) {
          continue;
        }
        filtered := filtered + [queue[i]];
      }
      assert queue[..|queue|] == queue;
      if |filtered| != |queue| {
        queue := filtered;
        Init();
      } else {
        KeptAll(queue, key, matches);
      }
    }

    /** One turn of phase 3: the retry that takes the executed one's place, if any, is pushed. */
    method RequeueOne(res: Result, policy: Policy, now: int)
      requires IsHeap(queue)
      modifies this
      ensures IsHeap(queue) && multiset(queue) == old(multiset(queue)) + Bag(Child(res, policy, now))
      ensures forall r :: multiset(queue)[r] == old(multiset(queue))[r] + if PutsBack(res, policy, now, r) then 1 else 0
    {
      AllBack(res, policy, now);
      ghost var back := Bag(Child(res, policy, now));
      if res.requeue.Some? {
        // an explicit requeue keeps the attempt count
        Push(res.req.(retryAfter := now + res.requeue.value, lastError := res.err));
        return;
      }
      if res.err.Some? && policy.Some? {
        var decision := policy.value(res.err.value, res.req.attempt + 1);
        if decision.Some? {
          Push(res.req.(retryAfter := now + decision.value, attempt := res.req.attempt + 1, lastError := res.err));
          return;
        }
      }
      assert back == multiset{};
    }

    /** Phase 3 of processReady: push back what asked for it or what the policy retries, reading the clock each time. */
    method Requeue(results: seq<Result>, policy: Policy, clock: seq<int>)
      requires IsHeap(queue) && |clock| == |results|
      modifies this
      ensures IsHeap(queue) && multiset(queue) == old(multiset(queue)) + multiset(Children(results, policy, clock))
      ensures forall r :: multiset(queue)[r] == old(multiset(queue))[r] + TimesBack(results, policy, clock, r)
    {
      for i := 0 to |results|
        invariant IsHeap(queue)
        invariant multiset(queue) == old(multiset(queue)) + multiset(Children(results[..i], policy, clock[..i]))
      {
        ghost var done := multiset(Children(results[..i], policy, clock[..i]));
        ghost var pushed := Bag(Child(results[i], policy, clock[i]));
        ChildrenNext(results, policy, clock, i);
        RequeueOne(results[i], policy, clock[i]);
        BagsAssociate(old(multiset(queue)), done, pushed);
      }
      assert results[..|results|] == results && clock[..|clock|] == clock;
      forall r ensures multiset(queue)[r] == old(multiset(queue))[r] + TimesBack(results, policy, clock, r) {
        RequeuedExactly(results, policy, clock, r);
      }
    }
  }

  /** What executing a retry returned: an explicit requeue delay and an error, either of which may be absent. */
  datatype Result = Result(req: Retry, requeue: Option<int>, err: Option<int>)

  /** A retry policy maps an error and an attempt number to the delay before another attempt, if any. */
  type Policy = Option<(int, int) -> Option<int>>

  /** ExponentialBackoffRetryPolicy: no more than `maxAttempts`, doubling the delay; `delay` gives initialDelay * 2^attempt as Go computes it. */
  function Backoff(maxAttempts: int, delay: int -> int): Policy {
    Some((err: int, attempt: int) => if attempt > maxAttempts then None else Some(delay(attempt)))
  }

  /** maxAttempts + 1 for each picked closure among the first `n`. */
  function Budget(maxAttempts: nat, of: nat -> bool, n: nat): nat {
    if n == 0 then 0 else Budget(maxAttempts, of, n - 1) + if of(n - 1) then maxAttempts + 1 else 0
  }

  lemma {:induction false} BudgetOfOne(maxAttempts: nat, f: nat, n: nat)
    ensures Budget(maxAttempts, g => g == f, n) == if f < n then maxAttempts + 1 else 0
  {
    if n > 0 {
      BudgetOfOne(maxAttempts, f, n - 1);
    }
  }

  lemma {:induction false} BudgetOfAll(maxAttempts: nat, n: nat)
    ensures Budget(maxAttempts, g => true, n) == (maxAttempts + 1) * n
  {
    if n > 0 {
      BudgetOfAll(maxAttempts, n - 1);
      assert (maxAttempts + 1) * (n - 1) + (maxAttempts + 1) == (maxAttempts + 1) * n;
    }
  }

  ghost predicate DueOrder(s: seq<Retry>) {
    forall i, j :: 0 <= i < j < |s| ==> s[i].retryAfter <= s[j].retryAfter
  }

  function Kept(q: seq<Retry>, key: string, matches: Retry -> bool): (r: seq<Retry>)
    ensures |r| <= |q|
  {
    if q == [] then []
    else
      var rest := Kept(q[1..], key, matches);
      if q[0].key == key && matches(q[0]) then rest else [q[0]] + rest
  }

  lemma {:induction false} KeptSnoc(q: seq<Retry>, x: Retry, key: string, matches: Retry -> bool)
    ensures Kept(q + [x], key, matches) == if x.key == key && matches(x) then Kept(q, key, matches) else Kept(q, key, matches) + [x]
  {
    if q == [] {
      assert q + [x] == [x] && [x][1..] == [];
    } else {
      assert (q + [x])[1..] == q[1..] + [x];
      KeptSnoc(q[1..], x, key, matches);
      var rest := Kept(q[1..], key, matches);
      assert [q[0]] + (rest + [x]) == ([q[0]] + rest) + [x];
    }
  }

  lemma {:induction false} KeptAll(q: seq<Retry>, key: string, matches: Retry -> bool)
    requires |Kept(q, key, matches)| == |q|
    ensures Kept(q, key, matches) == q
  {
    if q != [] {
      KeptAll(q[1..], key, matches);
    }
  }

  /** Filtering loses exactly the matching retries, each with all its occurrences. */
  lemma {:induction false} KeptCount(q: seq<Retry>, key: string, matches: Retry -> bool, r: Retry)
    ensures multiset(Kept(q, key, matches))[r] == if r.key == key && matches(r) then 0 else multiset(q)[r]
  {
    if q != [] {
      KeptCount(q[1..], key, matches, r);
      assert q == [q[0]] + q[1..];
    }
  }

  /** The retry that takes the place of an executed one, if any. */
  function Child(res: Result, policy: Policy, now: int): Option<Retry> {
    if res.requeue.Some? then Some(res.req.(retryAfter := now + res.requeue.value, lastError := res.err))
    else if res.err.Some? && policy.Some? then
      match policy.value(res.err.value, res.req.attempt + 1)
      case None => None
      case Some(after) => Some(res.req.(retryAfter := now + after, attempt := res.req.attempt + 1, lastError := res.err))
    else None
  }

  ghost function Bag(x: Option<Retry>): multiset<Retry> {
    if x.None? then multiset{} else multiset{x.value}
  }

  function Children(results: seq<Result>, policy: Policy, clock: seq<int>): seq<Retry>
    requires |results| == |clock|
  {
    if results == [] then []
    else
      (match Child(results[0], policy, clock[0]) case None => [] case Some(c) => [c])
      + Children(results[1..], policy, clock[1..])
  }

  /**
    `r` takes the place of the executed retry: the same retry, carrying the error just returned, due
    exactly its delay after the clock reading. An explicit delay keeps the attempt, the policy's counts one more.
   */
  predicate PutsBack(res: Result, policy: Policy, now: int, r: Retry) {
    var was := res.req;
    && r.key == was.key && r.func == was.func && r.action == was.action && r.generation == was.generation
    && r.lastError == res.err
    && if res.requeue.Some? then r.attempt == was.attempt && r.retryAfter - now == res.requeue.value
       else res.err.Some? && policy.Some? && r.attempt == was.attempt + 1
            && policy.value(res.err.value, r.attempt) == Some(r.retryAfter - now)
  }

  /** How many of the results put `r` back. */
  function TimesBack(results: seq<Result>, policy: Policy, clock: seq<int>, r: Retry): nat
    requires |results| == |clock|
  {
    if results == [] then 0
    else (if PutsBack(results[0], policy, clock[0], r) then 1 else 0) + TimesBack(results[1..], policy, clock[1..], r)
  }

  /** Phase 3 pushes each retry exactly as often as results put it back. */
  lemma {:induction false} RequeuedExactly(results: seq<Result>, policy: Policy, clock: seq<int>, r: Retry)
    requires |results| == |clock|
    ensures multiset(Children(results, policy, clock))[r] == TimesBack(results, policy, clock, r)
  {
    if results != [] {
      RequeuedExactly(results[1..], policy, clock[1..], r);
      OneBack(results[0], policy, clock[0], r);
    }
  }

  lemma AllBack(res: Result, policy: Policy, now: int)
    ensures forall r :: Bag(Child(res, policy, now))[r] == if PutsBack(res, policy, now, r) then 1 else 0
  {
    forall r ensures Bag(Child(res, policy, now))[r] == if PutsBack(res, policy, now, r) then 1 else 0 {
      OneBack(res, policy, now, r);
    }
  }

  lemma OneBack(res: Result, policy: Policy, now: int, r: Retry)
    ensures Bag(Child(res, policy, now))[r] == if PutsBack(res, policy, now, r) then 1 else 0
  {
    if PutsBack(res, policy, now, r) {
      assert Child(res, policy, now) == Some(r);
    }
  }

  lemma {:induction false} ChildrenSnoc(results: seq<Result>, res: Result, policy: Policy, clock: seq<int>, now: int)
    requires |results| == |clock|
    ensures Children(results + [res], policy, clock + [now]) ==
      Children(results, policy, clock) + match Child(res, policy, now) { case None => [] case Some(c) => [c] }
  {
    if results == [] {
      assert results + [res] == [res] && clock + [now] == [now];
    } else {
      assert (results + [res])[1..] == results[1..] + [res];
      assert (clock + [now])[1..] == clock[1..] + [now];
      ChildrenSnoc(results[1..], res, policy, clock[1..], now);
    }
  }

  lemma ChildrenNext(results: seq<Result>, policy: Policy, clock: seq<int>, i: nat)
    requires |results| == |clock| && i < |results|
    ensures var child := Child(results[i], policy, clock[i]);
      multiset(Children(results[..i + 1], policy, clock[..i + 1])) ==
      multiset(Children(results[..i], policy, clock[..i])) + Bag(child)
  {
    ChildrenSnoc(results[..i], results[i], policy, clock[..i], clock[i]);
    assert results[..i + 1] == results[..i] + [results[i]] && clock[..i + 1] == clock[..i] + [clock[i]];
  }

  lemma OneTaken(before: seq<Retry>, after: seq<Retry>, x: Retry)
    requires multiset(before) == multiset(after) + multiset{x}
    ensures |before| == |after| + 1
    ensures forall r :: r in after ==> r in before
  {
    assert |multiset(before)| == |multiset(after)| + 1;
    forall r | r in after ensures r in before {
      assert r in multiset(after);
      assert r in multiset(before);
    }
  }

  lemma BagsAssociate(a: multiset<Retry>, b: multiset<Retry>, c: multiset<Retry>)
    ensures (a + b) + c == a + (b + c)
  {
  }

  lemma RootFirstIfAny(q: seq<Retry>)
    requires IsHeap(q)
    ensures |q| > 0 ==> forall r :: r in q ==> q[0].retryAfter <= r.retryAfter
  {
    if |q| > 0 {
      RootFirst(q);
    }
  }

  /** Swapping the root to the end leaves a heap in front of it but for its new root. */
  lemma RootFirst(q: seq<Retry>)
    requires IsHeap(q) && |q| > 0
    ensures SinkingFrom(Swapped(q, 0, |q| - 1), 0, 0, |q| - 1)
    ensures Swapped(q, 0, |q| - 1)[|q| - 1] == q[0]
    ensures forall r :: r in q ==> q[0].retryAfter <= r.retryAfter
  {
    forall i: nat | i < |q| ensures q[0].retryAfter <= q[i].retryAfter {
      RootIsMinimal(q, |q|, i);
    }
  }

  lemma PrefixHeap(q: seq<Retry>, n: nat)
    requires HeapFrom(q, 0, n) && |q| == n + 1
    ensures IsHeap(q[..n]) && multiset(q) == multiset(q[..n]) + multiset{q[n]}
  {
    assert q == q[..n] + [q[n]];
  }
}
