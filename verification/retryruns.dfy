/**
  The retry processor as a step relation: locked regions of any number of
  goroutines interleave, and retries a worker has popped run unlocked.
 */
module RetryRuns {
  import opened Common
  import opened RetryHeap
  import opened RetryProcessors

  /**
    `inflight[i]` is what worker i has popped and not yet re-queued; `nextFunc`
    counts the closures created, which is the number of failures enqueued.
   */
  datatype State = State(pending: multiset<Retry>, inflight: seq<seq<Retry>>, nextFunc: nat)

  datatype Event =
    | Enqueued(req: Retry)
    | Dequeued(key: string, matches: Retry -> bool)
    | Popped(worker: nat, now: int, ready: seq<Retry>)
    | Executed(worker: nat, results: seq<Result>, clock: seq<int>)

  /** One locked region. What it does to the pending retries is what the processor's method of that region ensures. */
  ghost predicate Step(shard: string -> nat, policy: Policy, s: State, e: Event, s': State) {
    match e
    case Enqueued(req) =>
      // every caller enqueues a new closure at attempt 0
      && req.func == s.nextFunc && req.attempt == 0
      && Enqueues(s.pending, req, s'.pending)
      && s' == s.(pending := s'.pending, nextFunc := s.nextFunc + 1)
    case Dequeued(key, matches) =>
      s' == s.(pending := s'.pending) && Dequeues(s.pending, key, matches, s'.pending)
    case Popped(w, now, ready) =>
      && w < |s.inflight| && s.inflight[w] == []
      && Pops(shard, w, now, s.pending, ready, s'.pending)
      && s' == s.(pending := s'.pending, inflight := s.inflight[w := ready])
    case Executed(w, results, clock) =>
      && w < |s.inflight| && |results| == |clock| && Requests(results) == s.inflight[w]
      && Requeues(results, policy, clock, s.pending, s'.pending)
      && s' == s.(pending := s'.pending, inflight := s.inflight[w := []])
  }

  function Requests(results: seq<Result>): (reqs: seq<Retry>)
    ensures |reqs| == |results|
  {
    if results == [] then [] else [results[0].req] + Requests(results[1..])
  }

  ghost predicate Initial(s: State) {
    s.pending == multiset{} && s.nextFunc == 0
    && forall i :: 0 <= i < |s.inflight| ==> s.inflight[i] == []
  }

  /** A run: states and the events between them. */
  ghost predicate IsRun(shard: string -> nat, policy: Policy, states: seq<State>, events: seq<Event>) {
    && |states| == |events| + 1 && Initial(states[0])
    && forall k {:trigger events[k]} :: 0 <= k < |events| ==> Step(shard, policy, states[k], events[k], states[k + 1])
  }

  /** Every retry that may still be executed: pending or popped. */
  ghost function Live(s: State): multiset<Retry> {
    s.pending + Flat(s.inflight)
  }

  // ---- sums over retries ----

  type Weight = Retry -> int

  ghost function Sum(w: Weight, m: multiset<Retry>): int
    decreases |m|
  {
    if m == multiset{} then 0 else var x :| x in m; w(x) + Sum(w, m - multiset{x})
  }

  lemma {:induction false} SumInsert(w: Weight, m: multiset<Retry>, x: Retry)
    ensures Sum(w, m + multiset{x}) == Sum(w, m) + w(x)
    decreases |m|
  {
    var n := m + multiset{x};
    var y :| y in n && Sum(w, n) == w(y) + Sum(w, n - multiset{y});
    if y == x {
      assert n - multiset{x} == m;
    } else {
      assert n - multiset{y} == (m - multiset{y}) + multiset{x};
      SumInsert(w, m - multiset{y}, x);
      SumInsert(w, m - multiset{y}, y);
      assert (m - multiset{y}) + multiset{y} == m;
    }
  }

  lemma {:induction false} SumUnion(w: Weight, m: multiset<Retry>, n: multiset<Retry>)
    ensures Sum(w, m + n) == Sum(w, m) + Sum(w, n)
    decreases |n|
  {
    if n == multiset{} {
      assert m + n == m;
    } else {
      var x :| x in n;
      var rest := n - multiset{x};
      assert n == rest + multiset{x};
      assert m + n == (m + rest) + multiset{x};
      SumUnion(w, m, rest);
      SumInsert(w, m + rest, x);
      SumInsert(w, rest, x);
    }
  }

  /** A weight that is never negative on `m` makes sub-multisets weigh less, and single members too. */
  lemma {:induction false} SumAtLeast(w: Weight, m: multiset<Retry>)
    requires forall r :: r in m ==> w(r) >= 0
    ensures Sum(w, m) >= 0
    decreases |m|
  {
    if m != multiset{} {
      var x :| x in m && Sum(w, m) == w(x) + Sum(w, m - multiset{x});
      SumAtLeast(w, m - multiset{x});
    }
  }

  lemma SumMember(w: Weight, m: multiset<Retry>, x: Retry)
    requires x in m && forall r :: r in m ==> w(r) >= 0
    ensures Sum(w, m) >= w(x)
  {
    var rest := m - multiset{x};
    assert m == rest + multiset{x};
    SumInsert(w, rest, x);
    assert forall r :: r in rest ==> r in m;
    SumAtLeast(w, rest);
  }

  lemma SumCons(w: Weight, x: Retry, s: seq<Retry>)
    ensures Sum(w, multiset([x] + s)) == w(x) + Sum(w, multiset(s))
  {
    assert multiset([x] + s) == multiset(s) + multiset{x};
    SumInsert(w, multiset(s), x);
  }

  /** What popping, and executing, do to the flat multiset of live retries. */
  lemma FlatReplace(qs: seq<seq<Retry>>, i: nat, q: seq<Retry>)
    requires i < |qs|
    ensures Flat(qs[i := q]) + multiset(qs[i]) == Flat(qs) + multiset(q)
  {
    forall r ensures (Flat(qs[i := q]) + multiset(qs[i]))[r] == (Flat(qs) + multiset(q))[r] {
      FlatUpdate(qs, i, q, r);
    }
  }

  lemma ExecutedLive(shard: string -> nat, policy: Policy, s: State, e: Event, s': State)
    requires e.Executed? && Step(shard, policy, s, e, s')
    ensures Live(s') + multiset(Requests(e.results)) == Live(s) + multiset(Children(e.results, policy, e.clock))
  {
    RequeuesChildren(e.results, policy, e.clock, s.pending, s'.pending);
    FlatReplace(s.inflight, e.worker, []);
    assert Flat(s'.inflight) + multiset(s.inflight[e.worker]) == Flat(s.inflight);
    var kids := multiset(Children(e.results, policy, e.clock));
    assert (s.pending + kids + Flat(s'.inflight)) + multiset(s.inflight[e.worker])
        == (s.pending + kids) + (Flat(s'.inflight) + multiset(s.inflight[e.worker]));
  }

  lemma PoppedLive(shard: string -> nat, policy: Policy, s: State, e: Event, s': State)
    requires e.Popped? && Step(shard, policy, s, e, s')
    ensures Live(s') == Live(s)
  {
    FlatReplace(s.inflight, e.worker, e.ready);
    assert Flat(s'.inflight) == Flat(s.inflight) + multiset(e.ready);
  }

  // ---- lineage: a dequeued retry never comes back ----

  /** Retry function `f`, queued under `key`, may still be executed. */
  ghost predicate IsLive(s: State, f: nat, key: string) {
    exists r :: r in Live(s) && r.func == f && r.key == key
  }

  /** No step revives a closure: what is live was live, or is the one enqueued now. */
  lemma StepRevivesNothing(shard: string -> nat, policy: Policy, s: State, e: Event, s': State, f: nat, key: string)
    requires Step(shard, policy, s, e, s') && IsLive(s', f, key)
    ensures IsLive(s, f, key) || f == s.nextFunc < s'.nextFunc
    ensures s.nextFunc <= s'.nextFunc
  {
    var r :| r in Live(s') && r.func == f && r.key == key;
    match e
    case Enqueued(req) =>
      assert Live(s') == Live(s) + multiset{req};
    case Dequeued(k, matches) =>
      assert r in s'.pending || r in Flat(s'.inflight);
      assert r in Live(s);
    case Popped(w, now, ready) =>
      PoppedLive(shard, policy, s, e, s');
    case Executed(w, results, clock) =>
      ExecutedLive(shard, policy, s, e, s');
      assert r in Live(s) + multiset(Children(results, policy, clock));
      if r !in Live(s) {
        ChildKeys(results, policy, clock, r);
        var k :| 0 <= k < |results| && results[k].req.key == r.key && results[k].req.func == r.func;
        RequestAt(results, k);
        InflightIsLive(s, w, results[k].req);
      }
  }

  lemma {:induction false} RequestAt(results: seq<Result>, k: nat)
    requires k < |results|
    ensures Requests(results)[k] == results[k].req
  {
    if k > 0 {
      RequestAt(results[1..], k - 1);
    }
  }

  lemma InflightIsLive(s: State, w: nat, r: Retry)
    requires w < |s.inflight| && r in s.inflight[w]
    ensures r in Live(s) && r in Flat(s.inflight)
  {
    FlatReplace(s.inflight, w, []);
    assert multiset(s.inflight[w])[r] > 0;
    assert (Flat(s.inflight) + multiset([]))[r] > 0;
  }

  lemma {:induction false} DeadStaysDead(shard: string -> nat, policy: Policy, states: seq<State>, events: seq<Event>,
                                         i: nat, j: nat, f: nat, key: string)
    requires IsRun(shard, policy, states, events) && i <= j < |states|
    requires !IsLive(states[i], f, key) && f < states[i].nextFunc
    ensures !IsLive(states[j], f, key) && states[i].nextFunc <= states[j].nextFunc
    decreases j
  {
    if i < j {
      DeadStaysDead(shard, policy, states, events, i, j - 1, f, key);
      StepKeepsDead(shard, policy, states[j - 1], events[j - 1], states[j], f, key);
    }
  }

  lemma StepKeepsDead(shard: string -> nat, policy: Policy, s: State, e: Event, s': State, f: nat, key: string)
    requires Step(shard, policy, s, e, s') && !IsLive(s, f, key) && f < s.nextFunc
    ensures !IsLive(s', f, key) && s.nextFunc <= s'.nextFunc
  {
    if IsLive(s', f, key) {
      StepRevivesNothing(shard, policy, s, e, s', f, key);
      assert false;
    }
    FuncsGrow(shard, policy, s, e, s');
  }

  lemma FuncsGrow(shard: string -> nat, policy: Policy, s: State, e: Event, s': State)
    requires Step(shard, policy, s, e, s')
    ensures s'.nextFunc == s.nextFunc + if e.Enqueued? then 1 else 0
  {
  }

  /**
    Main theorem. After Dequeue (or DequeueAll, whose predicate is always true),
    every retry for that key queued or in flight at any later time descends from one
    in flight at that step, from a pending one the predicate spared, or from a later Enqueue.
   */
  lemma AfterDequeue(shard: string -> nat, policy: Policy, states: seq<State>, events: seq<Event>, k: nat, j: nat, r: Retry)
    requires IsRun(shard, policy, states, events) && k < j < |states|
    requires events[k].Dequeued? && r.key == events[k].key && r in Live(states[j])
    ensures
      || r.func >= states[k].nextFunc
      || (exists q :: q in Flat(states[k].inflight) && q.func == r.func && q.key == r.key)
      || (exists q :: q in states[k].pending && q.func == r.func && q.key == r.key && !events[k].matches(q))
  {
    assert Step(shard, policy, states[k], events[k], states[k + 1]);
    if r.func < states[k].nextFunc {
      if !IsLive(states[k + 1], r.func, r.key) {
        DeadStaysDead(shard, policy, states, events, k + 1, j, r.func, r.key);
        assert false;
      }
      var q :| q in Live(states[k + 1]) && q.func == r.func && q.key == r.key;
      assert q in states[k + 1].pending || q in Flat(states[k].inflight);
      if q in states[k + 1].pending {
        assert states[k + 1].pending[q] > 0;
        assert q in states[k].pending && !events[k].matches(q);
      }
    }
  }

  // ---- each closure is live at most once ----

  function CountOf(f: nat): Weight {
    (r: Retry) => if r.func == f then 1 else 0
  }

  /** Every closure created so far is carried by at most one live retry, and no other exists. */
  ghost predicate OnePerFunc(s: State) {
    forall f: nat :: Sum(CountOf(f), Live(s)) <= if f < s.nextFunc then 1 else 0
  }

  /** What one execution costs. */
  type Cost = Result -> int

  function Costs(cost: Cost, results: seq<Result>): int {
    if results == [] then 0 else cost(results[0]) + Costs(cost, results[1..])
  }

  function NoCost(): Cost {
    (res: Result) => 0
  }

  /** Re-queued retries weigh no more than the executed ones, less what the executions cost. */
  lemma {:induction false} ChildrenLighter(w: Weight, cost: Cost, results: seq<Result>, policy: Policy, clock: seq<int>)
    requires |results| == |clock|
    requires forall i :: 0 <= i < |results| ==> NoHeavier(w, cost, results[i], policy, clock[i])
    ensures Sum(w, multiset(Children(results, policy, clock))) + Costs(cost, results) <= Sum(w, multiset(Requests(results)))
  {
    if results != [] {
      var rest := Children(results[1..], policy, clock[1..]);
      ChildrenLighter(w, cost, results[1..], policy, clock[1..]);
      SumCons(w, results[0].req, Requests(results[1..]));
      assert NoHeavier(w, cost, results[0], policy, clock[0]);
      match Child(results[0], policy, clock[0])
      case None =>
        assert Children(results, policy, clock) == rest;
      case Some(c) =>
        assert Children(results, policy, clock) == [c] + rest;
        SumCons(w, c, rest);
    }
  }

  /** The replacement of one executed retry, or its absence, weighs no more than the retry less the cost. */
  predicate NoHeavier(w: Weight, cost: Cost, res: Result, policy: Policy, now: int) {
    match Child(res, policy, now)
    case None => cost(res) <= w(res.req)
    case Some(c) => w(c) + cost(res) <= w(res.req)
  }

  /** What executing one worker's popped retries does to any such sum over the live ones. */
  lemma ExecutedSum(w: Weight, cost: Cost, shard: string -> nat, policy: Policy, s: State, e: Event, s': State)
    requires e.Executed? && Step(shard, policy, s, e, s')
    requires forall i :: 0 <= i < |e.results| ==> NoHeavier(w, cost, e.results[i], policy, e.clock[i])
    ensures Sum(w, Live(s')) + Costs(cost, e.results) <= Sum(w, Live(s))
  {
    ExecutedLive(shard, policy, s, e, s');
    SumUnion(w, Live(s'), multiset(Requests(e.results)));
    SumUnion(w, Live(s), multiset(Children(e.results, policy, e.clock)));
    ChildrenLighter(w, cost, e.results, policy, e.clock);
  }

  /** Removing retries lowers any sum of non-negative weights. */
  lemma SumDequeued(w: Weight, s: State, key: string, matches: Retry -> bool, s': State)
    requires forall r :: r in s.pending ==> w(r) >= 0
    requires s' == s.(pending := s'.pending)
    requires Dequeues(s.pending, key, matches, s'.pending)
    ensures Sum(w, Live(s')) <= Sum(w, Live(s))
  {
    var gone := s.pending - s'.pending;
    assert s.pending == s'.pending + gone;
    SumUnion(w, s'.pending, gone);
    SumAtLeast(w, gone);
    SumUnion(w, s'.pending, Flat(s.inflight));
    SumUnion(w, s.pending, Flat(s.inflight));
  }

  lemma CarrierOfOne(f: nat, res: Result, policy: Policy, now: int)
    ensures NoHeavier(CountOf(f), NoCost(), res, policy, now)
  {
  }

  lemma {:induction false} NothingCosts(results: seq<Result>)
    ensures Costs(NoCost(), results) == 0
  {
    if results != [] {
      NothingCosts(results[1..]);
    }
  }

  lemma CarriersNeverRise(f: nat, shard: string -> nat, policy: Policy, s: State, e: Event, s': State)
    requires Step(shard, policy, s, e, s')
    ensures Sum(CountOf(f), Live(s')) <= Sum(CountOf(f), Live(s)) + if e.Enqueued? && f == s.nextFunc then 1 else 0
  {
    var w := CountOf(f);
    match e
    case Enqueued(req) =>
      assert Live(s') == Live(s) + multiset{req};
      SumInsert(w, Live(s), req);
    case Dequeued(key, matches) =>
      SumDequeued(w, s, key, matches, s');
    case Popped(_, _, _) =>
      PoppedLive(shard, policy, s, e, s');
    case Executed(_, results, clock) =>
      forall i | 0 <= i < |results| ensures NoHeavier(w, NoCost(), results[i], policy, clock[i]) {
        CarrierOfOne(f, results[i], policy, clock[i]);
      }
      ExecutedSum(w, NoCost(), shard, policy, s, e, s');
      NothingCosts(results);
  }

  lemma StepKeepsOnePerFunc(shard: string -> nat, policy: Policy, s: State, e: Event, s': State)
    requires OnePerFunc(s) && Step(shard, policy, s, e, s')
    ensures OnePerFunc(s')
  {
    FuncsGrow(shard, policy, s, e, s');
    forall f: nat ensures Sum(CountOf(f), Live(s')) <= if f < s'.nextFunc then 1 else 0 {
      CarriersNeverRise(f, shard, policy, s, e, s');
    }
  }

  lemma {:induction false} RunKeepsOnePerFunc(shard: string -> nat, policy: Policy, states: seq<State>, events: seq<Event>, k: nat)
    requires IsRun(shard, policy, states, events) && k < |states|
    ensures OnePerFunc(states[k])
  {
    if k == 0 {
      NothingInflight(states[0].inflight);
      assert Live(states[0]) == multiset{};
    } else {
      RunKeepsOnePerFunc(shard, policy, states, events, k - 1);
      StepKeepsOnePerFunc(shard, policy, states[k - 1], events[k - 1], states[k]);
    }
  }

  lemma {:induction false} NothingInflight(qs: seq<seq<Retry>>)
    requires forall i :: 0 <= i < |qs| ==> qs[i] == []
    ensures Flat(qs) == multiset{}
  {
    if qs != [] {
      NothingInflight(qs[1..]);
      assert multiset(qs[0]) == multiset{};
    }
  }

  /** Two live retries with one closure are one retry. */
  lemma LiveOnce(s: State, a: Retry, b: Retry)
    requires OnePerFunc(s) && a in Live(s) && b in Live(s) && a.func == b.func
    ensures a == b && Live(s)[a] == 1
  {
    var w := CountOf(a.func);
    var rest := Live(s) - multiset{a};
    assert Live(s) == rest + multiset{a};
    SumInsert(w, rest, a);
    assert a != b ==> b in rest;
    if b in rest {
      SumMember(w, rest, b);
      assert false;
    }
  }

  /** Corollary: a pending retry that a Dequeue matched is never live again. */
  lemma DequeuedNeverRuns(shard: string -> nat, policy: Policy, states: seq<State>, events: seq<Event>, k: nat, j: nat, r: Retry)
    requires IsRun(shard, policy, states, events) && k < j < |states|
    requires events[k].Dequeued? && r in states[k].pending && r.key == events[k].key && events[k].matches(r)
    ensures !IsLive(states[j], r.func, r.key)
  {
    var s, s' := states[k], states[k + 1];
    assert Step(shard, policy, s, events[k], s');
    RunKeepsOnePerFunc(shard, policy, states, events, k);
    assert r in Live(s) && s'.pending[r] == 0;
    LiveOnce(s, r, r);
    assert Flat(s.inflight)[r] == 0;
    assert r !in Live(s');
    if IsLive(s', r.func, r.key) {
      var q :| q in Live(s') && q.func == r.func && q.key == r.key;
      assert s'.pending[q] <= s.pending[q];
      LiveOnce(s, r, q);
      assert false;
    }
    LiveFuncsKnown(s, r);
    DeadStaysDead(shard, policy, states, events, k + 1, j, r.func, r.key);
  }

  lemma LiveFuncsKnown(s: State, r: Retry)
    requires OnePerFunc(s) && r in Live(s)
    ensures r.func < s.nextFunc
  {
    SumMember(CountOf(r.func), Live(s), r);
  }

  // ---- nothing runs before it is due ----

  /** The one retry that carries closure `f`, if any does, is `c`, and no worker has popped it. */
  ghost predicate WaitsAs(s: State, f: nat, c: Retry) {
    f < s.nextFunc && forall r :: r in Live(s) && r.func == f ==> r == c && r !in Flat(s.inflight)
  }

  lemma StepKeepsWaiting(shard: string -> nat, policy: Policy, s: State, e: Event, s': State, f: nat, c: Retry)
    requires Step(shard, policy, s, e, s') && WaitsAs(s, f, c)
    requires e.Popped? ==> forall r :: r in e.ready ==> r.func != f
    ensures WaitsAs(s', f, c)
  {
    match e
    case Enqueued(req) =>
      assert Live(s') == Live(s) + multiset{req};
    case Dequeued(_, _) =>
      assert forall r :: s'.pending[r] <= s.pending[r];
      assert forall r :: r in Live(s') ==> r in Live(s);
    case Popped(w, _, ready) =>
      PoppedLive(shard, policy, s, e, s');
      FlatReplace(s.inflight, w, ready);
      assert Flat(s'.inflight) == Flat(s.inflight) + multiset(ready);
    case Executed(w, results, clock) =>
      ExecutedLive(shard, policy, s, e, s');
      FlatReplace(s.inflight, w, []);
      forall r | r in Live(s') && r.func == f ensures r in Live(s) {
        assert r in Live(s) + multiset(Children(results, policy, clock));
        if r !in Live(s) {
          ChildOfWaiting(s, w, results, policy, clock, r, f, c);
        }
      }
      assert Flat(s'.inflight) + multiset(s.inflight[w]) == Flat(s.inflight);
  }

  /** Executing puts back no closure that waits. */
  lemma ChildOfWaiting(s: State, w: nat, results: seq<Result>, policy: Policy, clock: seq<int>, r: Retry, f: nat, c: Retry)
    requires w < |s.inflight| && |results| == |clock| && Requests(results) == s.inflight[w]
    requires r in Children(results, policy, clock) && WaitsAs(s, f, c)
    ensures r.func != f
  {
    ChildKeys(results, policy, clock, r);
    var k :| 0 <= k < |results| && results[k].req.key == r.key && results[k].req.func == r.func;
    RequestAt(results, k);
    InflightIsLive(s, w, results[k].req);
  }

  lemma {:induction false} RunKeepsWaiting(shard: string -> nat, policy: Policy, states: seq<State>, events: seq<Event>,
                                           i: nat, j: nat, f: nat, c: Retry)
    requires IsRun(shard, policy, states, events) && i <= j < |states| && WaitsAs(states[i], f, c)
    requires forall m :: i <= m < j && events[m].Popped? ==> forall r :: r in events[m].ready ==> r.func != f
    ensures WaitsAs(states[j], f, c)
    decreases j
  {
    if i < j {
      RunKeepsWaiting(shard, policy, states, events, i, j - 1, f, c);
      var e := events[j - 1];
      StepKeepsWaiting(shard, policy, states[j - 1], e, states[j], f, c);
    }
  }

  lemma {:induction false} TimesBackAt(results: seq<Result>, policy: Policy, clock: seq<int>, i: nat, r: Retry)
    requires |results| == |clock| && i < |results| && PutsBack(results[i], policy, clock[i], r)
    ensures TimesBack(results, policy, clock, r) > 0
  {
    if i > 0 {
      TimesBackAt(results[1..], policy, clock[1..], i - 1, r);
    }
  }

  /** A retry that is enqueued, or put back, waits. */
  lemma ArrivesWaiting(shard: string -> nat, policy: Policy, states: seq<State>, events: seq<Event>, k: nat, c: Retry)
    requires IsRun(shard, policy, states, events) && k < |events| && Arrives(policy, events[k], c)
    ensures WaitsAs(states[k + 1], c.func, c)
  {
    var e, s, s' := events[k], states[k], states[k + 1];
    assert Step(shard, policy, s, e, s');
    RunKeepsOnePerFunc(shard, policy, states, events, k + 1);
    if e.Executed? {
      var i :| 0 <= i < |e.results| && PutsBack(e.results[i], policy, e.clock[i], c);
      TimesBackAt(e.results, policy, e.clock, i, c);
    }
    assert c in s'.pending;
    LiveFuncsKnown(s', c);
    forall r | r in Live(s') && r.func == c.func ensures r == c && r !in Flat(s'.inflight) {
      LiveOnce(s', c, r);
    }
  }

  /** The event brings in `c`: an Enqueue, or an execution whose result puts it back. */
  ghost predicate Arrives(policy: Policy, e: Event, c: Retry) {
    match e
    case Enqueued(req) => req == c
    case Executed(_, results, clock) =>
      |results| == |clock| && exists i :: 0 <= i < |results| && PutsBack(results[i], policy, clock[i], c)
    case _ => false
  }

  /**
    Main theorem. The next time a closure is popped after its retry has come in, that very retry
    is, and not before its time: for one put back, not before its delay after the clock reading.
   */
  lemma NotBeforeDue(shard: string -> nat, policy: Policy, states: seq<State>, events: seq<Event>, k: nat, j: nat, c: Retry, r: Retry)
    requires IsRun(shard, policy, states, events) && k < j < |events| && Arrives(policy, events[k], c)
    requires events[j].Popped? && r in events[j].ready && r.func == c.func
    requires forall m :: k < m < j && events[m].Popped? ==> forall q :: q in events[m].ready ==> q.func != c.func
    ensures r == c && c.retryAfter <= events[j].now
  {
    ArrivesWaiting(shard, policy, states, events, k, c);
    RunKeepsWaiting(shard, policy, states, events, k + 1, j, c.func, c);
    assert Step(shard, policy, states[j], events[j], states[j + 1]);
    assert multiset(events[j].ready)[r] > 0;
  }

  /** With exponential backoff: a failure at attempt `a` is not executed again before the delay of attempt `a` + 1 is over. */
  lemma BackoffWaits(maxAttempts: int, delay: int -> int, shard: string -> nat, states: seq<State>, events: seq<Event>,
                     k: nat, i: nat, j: nat, r: Retry)
    requires IsRun(shard, Backoff(maxAttempts, delay), states, events) && k < j < |events|
    requires events[k].Executed? && i < |events[k].results|
    requires var res := events[k].results[i]; res.requeue.None? && res.err.Some? && res.req.attempt < maxAttempts
    requires events[j].Popped? && r in events[j].ready && r.func == events[k].results[i].req.func
    requires forall m :: k < m < j && events[m].Popped? ==> forall q :: q in events[m].ready ==> q.func != r.func
    ensures var was := events[k].results[i].req;
      r.attempt == was.attempt + 1 && events[j].now >= events[k].clock[i] + delay(was.attempt + 1)
  {
    assert Step(shard, Backoff(maxAttempts, delay), states[k], events[k], states[k + 1]);
    var res, now := events[k].results[i], events[k].clock[i];
    var c := res.req.(retryAfter := now + delay(res.req.attempt + 1), attempt := res.req.attempt + 1, lastError := res.err);
    assert PutsBack(res, Backoff(maxAttempts, delay), now, c);
    NotBeforeDue(shard, Backoff(maxAttempts, delay), states, events, k, j, c, r);
  }

  // ---- bounded backoff: every failure has a budget of its own, and the population drains ----

  /** Which closures are looked at. */
  type Pick = nat -> bool

  /** Whether an execution is one of a picked closure, and how many are over a run. */
  function RunOf(of: Pick): Cost {
    (res: Result) => if of(res.req.func) then 1 else 0
  }

  function RunsOf(events: seq<Event>, of: Pick): int {
    if events == [] then 0
    else
      var last := events[|events| - 1];
      RunsOf(events[..|events| - 1], of) + if last.Executed? then Costs(RunOf(of), last.results) else 0
  }

  /** How often a retry that carries a picked closure can still be executed. */
  function LeftOf(maxAttempts: nat, of: Pick): Weight {
    (r: Retry) => if of(r.func) then maxAttempts + 1 - r.attempt else 0
  }

  ghost predicate Within(maxAttempts: nat, of: Pick, s: State) {
    forall r :: r in Live(s) && of(r.func) ==> r.attempt <= maxAttempts
  }

  /** No picked closure asks for an explicit requeue. */
  ghost predicate NeverAsks(results: seq<Result>, of: Pick) {
    forall i :: 0 <= i < |results| && of(results[i].req.func) ==> results[i].requeue.None?
  }

  ghost predicate NeverAskIn(events: seq<Event>, of: Pick) {
    forall k :: 0 <= k < |events| && events[k].Executed? ==> NeverAsks(events[k].results, of)
  }

  lemma {:induction false} ChildrenWithin(maxAttempts: nat, delay: int -> int, of: Pick, results: seq<Result>, clock: seq<int>, r: Retry)
    requires |results| == |clock| && NeverAsks(results, of) && of(r.func)
    requires r in Children(results, Backoff(maxAttempts, delay), clock)
    ensures r.attempt <= maxAttempts
  {
    if r in Children(results[1..], Backoff(maxAttempts, delay), clock[1..]) {
      ChildrenWithin(maxAttempts, delay, of, results[1..], clock[1..], r);
    }
  }

  lemma ExecutedWithin(maxAttempts: nat, delay: int -> int, of: Pick, shard: string -> nat, s: State, e: Event, s': State)
    requires Within(maxAttempts, of, s) && Step(shard, Backoff(maxAttempts, delay), s, e, s')
    requires e.Executed? && NeverAsks(e.results, of)
    ensures Within(maxAttempts, of, s')
  {
    var policy := Backoff(maxAttempts, delay);
    ExecutedLive(shard, policy, s, e, s');
    forall r | r in Live(s') && of(r.func) ensures r.attempt <= maxAttempts {
      assert r in Live(s) + multiset(Children(e.results, policy, e.clock));
      if r !in Live(s) {
        ChildrenWithin(maxAttempts, delay, of, e.results, e.clock, r);
      }
    }
  }

  lemma CostOfOne(maxAttempts: nat, delay: int -> int, of: Pick, res: Result, now: int)
    requires of(res.req.func) ==> res.requeue.None? && res.req.attempt <= maxAttempts
    ensures NoHeavier(LeftOf(maxAttempts, of), RunOf(of), res, Backoff(maxAttempts, delay), now)
  {
  }

  lemma ExecutedLeft(maxAttempts: nat, delay: int -> int, of: Pick, shard: string -> nat, s: State, e: Event, s': State)
    requires Within(maxAttempts, of, s) && Step(shard, Backoff(maxAttempts, delay), s, e, s')
    requires e.Executed? && NeverAsks(e.results, of)
    ensures Sum(LeftOf(maxAttempts, of), Live(s')) + Costs(RunOf(of), e.results) <= Sum(LeftOf(maxAttempts, of), Live(s))
  {
    var w, policy := LeftOf(maxAttempts, of), Backoff(maxAttempts, delay);
    forall i | 0 <= i < |e.results| ensures NoHeavier(w, RunOf(of), e.results[i], policy, e.clock[i]) {
      RequestAt(e.results, i);
      InflightIsLive(s, e.worker, e.results[i].req);
      CostOfOne(maxAttempts, delay, of, e.results[i], e.clock[i]);
    }
    ExecutedSum(w, RunOf(of), shard, policy, s, e, s');
  }

  /** One step: each execution of picked closures uses up one of what is left to them, and only their own Enqueues give them anything. */
  lemma StepLeft(maxAttempts: nat, delay: int -> int, of: Pick, shard: string -> nat, s: State, e: Event, s': State)
    requires Within(maxAttempts, of, s) && Step(shard, Backoff(maxAttempts, delay), s, e, s')
    requires e.Executed? ==> NeverAsks(e.results, of)
    ensures Within(maxAttempts, of, s')
    ensures Sum(LeftOf(maxAttempts, of), Live(s')) + (if e.Executed? then Costs(RunOf(of), e.results) else 0)
      <= Sum(LeftOf(maxAttempts, of), Live(s)) + if e.Enqueued? && of(s.nextFunc) then maxAttempts + 1 else 0
  {
    var w, policy := LeftOf(maxAttempts, of), Backoff(maxAttempts, delay);
    match e
    case Enqueued(req) =>
      assert Live(s') == Live(s) + multiset{req};
      SumInsert(w, Live(s), req);
    case Dequeued(key, matches) =>
      forall r | r in Live(s') ensures r in Live(s) {
        assert s'.pending[r] <= s.pending[r];
      }
      SumDequeued(w, s, key, matches, s');
    case Popped(_, _, _) =>
      PoppedLive(shard, policy, s, e, s');
    case Executed(_, _, _) =>
      ExecutedWithin(maxAttempts, delay, of, shard, s, e, s');
      ExecutedLeft(maxAttempts, delay, of, shard, s, e, s');
  }

  lemma {:induction false} RunLeft(maxAttempts: nat, delay: int -> int, of: Pick, shard: string -> nat,
                                   states: seq<State>, events: seq<Event>, k: nat)
    requires IsRun(shard, Backoff(maxAttempts, delay), states, events) && NeverAskIn(events, of) && k < |states|
    ensures Within(maxAttempts, of, states[k])
    ensures RunsOf(events[..k], of) + Sum(LeftOf(maxAttempts, of), Live(states[k])) <= Budget(maxAttempts, of, states[k].nextFunc)
  {
    if k == 0 {
      NothingInflight(states[0].inflight);
      assert Live(states[0]) == multiset{};
    } else {
      RunLeft(maxAttempts, delay, of, shard, states, events, k - 1);
      var e := events[k - 1];
      assert events[..k][..k - 1] == events[..k - 1];
      StepLeft(maxAttempts, delay, of, shard, states[k - 1], e, states[k]);
      FuncsGrow(shard, Backoff(maxAttempts, delay), states[k - 1], e, states[k]);
    }
  }

  /**
    Main theorem. With the exponential policy each enqueued failure that never asks for
    an explicit requeue is executed at most maxAttempts + 1 times over any run, however
    the others fare; and while a retry for it is alive, at most as often as its attempt count.
   */
  lemma EachRetriedAtMost(maxAttempts: nat, delay: int -> int, f: nat, shard: string -> nat,
                          states: seq<State>, events: seq<Event>, k: nat)
    requires IsRun(shard, Backoff(maxAttempts, delay), states, events) && NeverAskIn(events, g => g == f) && k < |states|
    ensures RunsOf(events[..k], g => g == f) <= if f < states[k].nextFunc then maxAttempts + 1 else 0
    ensures forall r :: r in Live(states[k]) && r.func == f ==> RunsOf(events[..k], g => g == f) <= r.attempt <= maxAttempts
  {
    var of: Pick := g => g == f;
    var w, live := LeftOf(maxAttempts, of), Live(states[k]);
    RunLeft(maxAttempts, delay, of, shard, states, events, k);
    BudgetOfOne(maxAttempts, f, states[k].nextFunc);
    SumAtLeast(w, live);
    forall r | r in live && r.func == f ensures RunsOf(events[..k], of) <= r.attempt <= maxAttempts {
      SumMember(w, live, r);
    }
  }

  /** All failures together: executions plus the retries still alive, so a run that stops enqueuing runs out of retries. */
  lemma ExecutionsBounded(maxAttempts: nat, delay: int -> int, shard: string -> nat,
                          states: seq<State>, events: seq<Event>, k: nat)
    requires IsRun(shard, Backoff(maxAttempts, delay), states, events) && NeverAskIn(events, g => true) && k < |states|
    ensures RunsOf(events[..k], g => true) + |Live(states[k])| <= (maxAttempts + 1) * states[k].nextFunc
  {
    var of: Pick := g => true;
    RunLeft(maxAttempts, delay, of, shard, states, events, k);
    BudgetOfAll(maxAttempts, states[k].nextFunc);
    PopulationOwes(maxAttempts, Live(states[k]));
  }

  lemma {:induction false} PopulationOwes(maxAttempts: nat, m: multiset<Retry>)
    requires forall r :: r in m ==> r.attempt <= maxAttempts
    ensures |m| <= Sum(LeftOf(maxAttempts, g => true), m)
    decreases |m|
  {
    var w := LeftOf(maxAttempts, g => true);
    if m != multiset{} {
      var x :| x in m && Sum(w, m) == w(x) + Sum(w, m - multiset{x});
      PopulationOwes(maxAttempts, m - multiset{x});
    }
  }

  // ---- and no failure gets less than its budget ----

  /** The picked closures fail at every execution. */
  ghost predicate AlwaysFails(results: seq<Result>, of: Pick) {
    forall i :: 0 <= i < |results| && of(results[i].req.func) ==> results[i].requeue.None? && results[i].err.Some?
  }

  /** They do in this event, and it dequeues no retry of theirs. */
  ghost predicate Spares(s: State, e: Event, of: Pick) {
    && (e.Executed? ==> AlwaysFails(e.results, of))
    && (e.Dequeued? ==> forall r :: r in s.pending && r.key == e.key && e.matches(r) ==> !of(r.func))
  }

  ghost predicate Undisturbed(states: seq<State>, events: seq<Event>, of: Pick, k: nat)
    requires k < |states| == |events| + 1
  {
    forall m {:trigger events[m]} :: 0 <= m < k ==> Spares(states[m], events[m], of)
  }

  function Owed(maxAttempts: nat, of: Pick): Weight {
    (r: Retry) => if of(r.func) then r.attempt - maxAttempts - 1 else 0
  }

  function Paid(of: Pick): Cost {
    (res: Result) => if of(res.req.func) then -1 else 0
  }

  lemma {:induction false} OwedIsLeft(maxAttempts: nat, of: Pick, m: multiset<Retry>)
    ensures Sum(Owed(maxAttempts, of), m) == -Sum(LeftOf(maxAttempts, of), m)
    decreases |m|
  {
    if m != multiset{} {
      var w := LeftOf(maxAttempts, of);
      var x :| x in m && Sum(w, m) == w(x) + Sum(w, m - multiset{x});
      assert m == (m - multiset{x}) + multiset{x};
      OwedIsLeft(maxAttempts, of, m - multiset{x});
      SumInsert(Owed(maxAttempts, of), m - multiset{x}, x);
    }
  }

  lemma {:induction false} PaidIsRuns(of: Pick, results: seq<Result>)
    ensures Costs(Paid(of), results) == -Costs(RunOf(of), results)
  {
    if results != [] {
      PaidIsRuns(of, results[1..]);
    }
  }

  lemma {:induction false} SumOfNone(w: Weight, m: multiset<Retry>)
    requires forall r :: r in m ==> w(r) == 0
    ensures Sum(w, m) == 0
    decreases |m|
  {
    if m != multiset{} {
      var x :| x in m && Sum(w, m) == w(x) + Sum(w, m - multiset{x});
      SumOfNone(w, m - multiset{x});
    }
  }

  /** Dequeuing only retries that weigh nothing changes no sum. */
  lemma SumSpared(w: Weight, s: State, key: string, matches: Retry -> bool, s': State)
    requires s' == s.(pending := s'.pending) && Dequeues(s.pending, key, matches, s'.pending)
    requires forall r :: r in s.pending && r.key == key && matches(r) ==> w(r) == 0
    ensures Sum(w, Live(s')) == Sum(w, Live(s))
  {
    var gone := s.pending - s'.pending;
    assert s.pending == s'.pending + gone;
    forall r | r in gone ensures w(r) == 0 {
      assert s'.pending[r] < s.pending[r];
    }
    SumUnion(w, s'.pending, gone);
    SumOfNone(w, gone);
    SumUnion(w, s'.pending, Flat(s.inflight));
    SumUnion(w, s.pending, Flat(s.inflight));
  }

  /** One step: nothing but its executions takes a picked closure's remaining attempts away. */
  lemma StepOwes(maxAttempts: nat, delay: int -> int, of: Pick, shard: string -> nat, s: State, e: Event, s': State)
    requires Within(maxAttempts, of, s) && Step(shard, Backoff(maxAttempts, delay), s, e, s')
    requires Spares(s, e, of)
    ensures Sum(LeftOf(maxAttempts, of), Live(s')) + (if e.Executed? then Costs(RunOf(of), e.results) else 0)
      >= Sum(LeftOf(maxAttempts, of), Live(s)) + if e.Enqueued? && of(s.nextFunc) then maxAttempts + 1 else 0
  {
    var w, policy := LeftOf(maxAttempts, of), Backoff(maxAttempts, delay);
    match e
    case Enqueued(req) =>
      assert Live(s') == Live(s) + multiset{req};
      SumInsert(w, Live(s), req);
    case Dequeued(key, matches) =>
      SumSpared(w, s, key, matches, s');
    case Popped(_, _, _) =>
      PoppedLive(shard, policy, s, e, s');
    case Executed(_, _, _) =>
      ExecutedOwes(maxAttempts, delay, of, shard, s, e, s');
  }

  lemma OwedOfOne(maxAttempts: nat, delay: int -> int, of: Pick, res: Result, now: int)
    requires of(res.req.func) ==> res.requeue.None? && res.err.Some? && res.req.attempt <= maxAttempts
    ensures NoHeavier(Owed(maxAttempts, of), Paid(of), res, Backoff(maxAttempts, delay), now)
  {
  }

  lemma ExecutedOwes(maxAttempts: nat, delay: int -> int, of: Pick, shard: string -> nat, s: State, e: Event, s': State)
    requires Within(maxAttempts, of, s) && Step(shard, Backoff(maxAttempts, delay), s, e, s')
    requires e.Executed? && AlwaysFails(e.results, of)
    ensures Sum(LeftOf(maxAttempts, of), Live(s')) + Costs(RunOf(of), e.results) >= Sum(LeftOf(maxAttempts, of), Live(s))
  {
    var policy := Backoff(maxAttempts, delay);
    forall i | 0 <= i < |e.results| ensures NoHeavier(Owed(maxAttempts, of), Paid(of), e.results[i], policy, e.clock[i]) {
      RequestAt(e.results, i);
      InflightIsLive(s, e.worker, e.results[i].req);
      OwedOfOne(maxAttempts, delay, of, e.results[i], e.clock[i]);
    }
    ExecutedSum(Owed(maxAttempts, of), Paid(of), shard, policy, s, e, s');
    OwedIsLeft(maxAttempts, of, Live(s));
    OwedIsLeft(maxAttempts, of, Live(s'));
    PaidIsRuns(of, e.results);
  }

  lemma {:induction false} RunOwes(maxAttempts: nat, delay: int -> int, of: Pick, shard: string -> nat,
                                   states: seq<State>, events: seq<Event>, k: nat)
    requires IsRun(shard, Backoff(maxAttempts, delay), states, events) && k < |states|
    requires NeverAskIn(events, of) && Undisturbed(states, events, of, k)
    ensures RunsOf(events[..k], of) + Sum(LeftOf(maxAttempts, of), Live(states[k])) >= Budget(maxAttempts, of, states[k].nextFunc)
  {
    if k == 0 {
      NothingInflight(states[0].inflight);
      assert Live(states[0]) == multiset{};
    } else {
      RunOwes(maxAttempts, delay, of, shard, states, events, k - 1);
      RunLeft(maxAttempts, delay, of, shard, states, events, k - 1);
      var e := events[k - 1];
      assert events[..k][..k - 1] == events[..k - 1];
      StepOwes(maxAttempts, delay, of, shard, states[k - 1], e, states[k]);
      FuncsGrow(shard, Backoff(maxAttempts, delay), states[k - 1], e, states[k]);
    }
  }

  /**
    Main theorem, exact. A failure that fails every time, and that nobody dequeues, is executed
    exactly maxAttempts + 1 times once no retry for it is left; and before that, exactly as often
    as the attempt count of its retry says.
   */
  lemma RetriedExactly(maxAttempts: nat, delay: int -> int, f: nat, shard: string -> nat,
                       states: seq<State>, events: seq<Event>, k: nat)
    requires IsRun(shard, Backoff(maxAttempts, delay), states, events) && k < |states| && f < states[k].nextFunc
    requires NeverAskIn(events, g => g == f) && Undisturbed(states, events, g => g == f, k)
    ensures (forall r :: r in Live(states[k]) ==> r.func != f) ==> RunsOf(events[..k], g => g == f) == maxAttempts + 1
    ensures forall r :: r in Live(states[k]) && r.func == f ==> RunsOf(events[..k], g => g == f) == r.attempt
  {
    var of: Pick := g => g == f;
    var w, live := LeftOf(maxAttempts, of), Live(states[k]);
    EachRetriedAtMost(maxAttempts, delay, f, shard, states, events, k);
    RunOwes(maxAttempts, delay, of, shard, states, events, k);
    BudgetOfOne(maxAttempts, f, states[k].nextFunc);
    if forall r :: r in live ==> r.func != f {
      SumOfNone(w, live);
    }
    forall r | r in live && r.func == f ensures RunsOf(events[..k], of) == r.attempt {
      RunKeepsOnePerFunc(shard, Backoff(maxAttempts, delay), states, events, k);
      var rest := live - multiset{r};
      assert live == rest + multiset{r};
      LiveOnce(states[k], r, r);
      forall q | q in rest ensures w(q) == 0 {
        if q.func == f {
          LiveOnce(states[k], r, q);
        }
      }
      SumInsert(w, rest, r);
      SumOfNone(w, rest);
    }
  }
}
