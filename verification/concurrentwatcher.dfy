/** concurrentWatcher: events sharded by object over buffered queues, one worker goroutine per queue. */
module ConcurrentWatcher {
  import opened Common
  import opened EventQueue

  /** A resource object reference: nil, or an object whose kind, namespace and name spell `id`. */
  datatype Object = Nil | Object(id: string, payload: int)

  /** A call of one of the three watcher methods. */
  datatype Call = Add(obj: Object) | Update(src: Object, tgt: Object) | Delete(obj: Object)

  datatype Action = ActionCreate | ActionUpdate | ActionDelete

  /** What travels through the queues: eventInfo, whose unset source is nil. */
  datatype Event = Event(action: Action, target: Object, source: Object)

  /** The event Add, Update and Delete push. */
  function EventOf(c: Call): Event {
    match c
    case Add(obj) => Event(ActionCreate, obj, Nil)
    case Update(src, tgt) => Event(ActionUpdate, tgt, src)
    case Delete(obj) => Event(ActionDelete, obj, Nil)
  }

  /** The call handleEvent makes for an event. */
  function CallOf(e: Event): Call {
    match e.action
    case ActionCreate => Add(e.target)
    case ActionUpdate => Update(e.source, e.target)
    case ActionDelete => Delete(e.target)
  }

  /** The object a call is sharded by: for an update, the old one. */
  function Subject(c: Call): Object {
    if c.Update? then c.src else c.obj
  }

  function Id(c: Call): string {
    if Subject(c).Nil? then "" else Subject(c).id
  }

  /** A call survives the trip through a queue unchanged. */
  lemma CallRoundTrip(c: Call)
    ensures CallOf(EventOf(c)) == c
  {
  }

  /** A worker goroutine: at its select, holding an event it has received, or returned. */
  datatype Worker = Waiting | Handling(event: Event) | Exited

  datatype Shard = Shard(loop: Loop<Event>, worker: Worker, stopped: bool, running: bool)

  /** `calls` are the calls made on the wrapped watcher, `accepted` those made on the concurrent one whose push was taken, both in global order. */
  datatype State = State(shards: seq<Shard>, accepted: seq<Call>, calls: seq<Call>)

  datatype Step =
    | Push(call: Call)
    | Deliver(shard: nat)
    | Handle(shard: nat)
    | Exit(shard: nat)
    | Stop(shard: nat)
    | Finish(shard: nat)

  /** The worker of an object: its hash modulo the pool size. */
  function ShardOf(hash: string -> nat, id: string, size: nat): (i: nat)
    requires size > 0
    ensures i < size
  {
    hash(id) % size
  }

  /** Two objects share a worker exactly if their hashes agree modulo the pool size. */
  lemma SameWorkerIff(hash: string -> nat, a: string, b: string, size: nat)
    requires size > 0
    ensures ShardOf(hash, a, size) == ShardOf(hash, b, size) <==> hash(a) % size == hash(b) % size
  {
  }

  predicate Enabled(hash: string -> nat, s: State, step: Step) {
    match step
    case Push(c) =>
      |s.shards| > 0 && Subject(c).Object? && var q := s.shards[ShardOf(hash, Id(c), |s.shards|)]; q.running || q.stopped
    case Deliver(i) =>
      i < |s.shards| && s.shards[i].running && s.shards[i].loop.open && s.shards[i].loop.event.Some? && s.shards[i].worker.Waiting?
    case Handle(i) => i < |s.shards| && s.shards[i].worker.Handling?
    case Exit(i) => i < |s.shards| && s.shards[i].worker.Waiting?
    case Stop(i) => i < |s.shards| && s.shards[i].worker.Exited? && !s.shards[i].stopped
    case Finish(i) => i < |s.shards| && s.shards[i].stopped && s.shards[i].running
  }

  /** A push to a stopped queue is dropped; otherwise the queue's loop takes the event. */
  function Next(hash: string -> nat, s: State, step: Step): State
    requires Enabled(hash, s, step)
  {
    match step
    case Push(c) =>
      var i := ShardOf(hash, Id(c), |s.shards|);
      var q := s.shards[i];
      if q.stopped then s
      else s.(shards := s.shards[i := q.(loop := Receive(q.loop, Some(EventOf(c))))], accepted := s.accepted + [c])
    case Deliver(i) =>
      var q := s.shards[i];
      s.(shards := s.shards[i := q.(loop := Emit(q.loop), worker := Handling(q.loop.event.value))])
    case Handle(i) =>
      var q := s.shards[i];
      s.(shards := s.shards[i := q.(worker := Waiting)], calls := s.calls + [CallOf(q.worker.event)])
    case Exit(i) => s.(shards := s.shards[i := s.shards[i].(worker := Exited)])
    case Stop(i) => s.(shards := s.shards[i := s.shards[i].(stopped := true)])
    case Finish(i) => s.(shards := s.shards[i := s.shards[i].(running := false)])
  }

  ghost predicate Initial(s: State) {
    && |s.shards| > 0 && s.accepted == [] && s.calls == []
    && forall i :: 0 <= i < |s.shards| ==> s.shards[i] == Shard(Start(), Waiting, false, true)
  }

  ghost predicate IsRun(hash: string -> nat, states: seq<State>, steps: seq<Step>) {
    && |states| == |steps| + 1 && Initial(states[0])
    && forall k {:trigger steps[k]} :: 0 <= k < |steps| ==>
         Enabled(hash, states[k], steps[k]) && states[k + 1] == Next(hash, states[k], steps[k])
  }

  // ---- sub-sequences of calls ----

  function Where(s: seq<Call>, keep: Call -> bool): seq<Call> {
    if s == [] then [] else
      var rest := Where(s[1..], keep);
      if keep(s[0]) then [s[0]] + rest else rest
  }

  lemma {:induction false} WhereAppend(s: seq<Call>, t: seq<Call>, keep: Call -> bool)
    ensures Where(s + t, keep) == Where(s, keep) + Where(t, keep)
  {
    if s == [] {
      assert s + t == t;
    } else {
      assert (s + t)[1..] == s[1..] + t;
      WhereAppend(s[1..], t, keep);
      var a, b := Where(s[1..], keep), Where(t, keep);
      assert [s[0]] + (a + b) == ([s[0]] + a) + b;
    }
  }

  /** Picking one object's events out of its shard's is picking them out of all. */
  lemma {:induction false} WhereNarrower(s: seq<Call>, keep: Call -> bool, narrower: Call -> bool)
    requires forall e :: narrower(e) ==> keep(e)
    ensures Where(Where(s, keep), narrower) == Where(s, narrower)
  {
    if s != [] {
      WhereNarrower(s[1..], keep, narrower);
      assert ([s[0]] + Where(s[1..], keep))[1..] == Where(s[1..], keep);
    }
  }

  function InShard(hash: string -> nat, size: nat, i: nat): Call -> bool
    requires size > 0
  {
    (c: Call) => ShardOf(hash, Id(c), size) == i
  }

  function Of(id: string): Call -> bool {
    (c: Call) => Id(c) == id
  }

  function Calls(events: seq<Event>): seq<Call> {
    seq(|events|, i requires 0 <= i < |events| => CallOf(events[i]))
  }

  /** What a shard has accepted and not yet made a call for: the event in hand, then the queue's contents. */
  function Backlog(q: Shard): seq<Call>
    requires forall i :: 0 <= i < |Contents(q.loop)| ==> Contents(q.loop)[i].Some?
  {
    (if q.worker.Handling? then [CallOf(q.worker.event)] else []) + Calls(Owed(Contents(q.loop)))
  }

  /** A shard, whose events are those `keep` picks, against all events accepted and all calls made. */
  ghost predicate ShardInv(q: Shard, keep: Call -> bool, accepted: seq<Call>, calls: seq<Call>) {
    && Holds(q, keep)
    && (q.stopped ==> q.worker.Exited?)
    && (q.stopped || q.running)
    && (!q.worker.Exited? ==> Where(accepted, keep) == Where(calls, keep) + Backlog(q))
    && Where(calls, keep) <= Where(accepted, keep)
  }

  ghost predicate Inv(hash: string -> nat, s: State) {
    var n := |s.shards|;
    n > 0 && forall i :: 0 <= i < n ==> ShardInv(s.shards[i], InShard(hash, n, i), s.accepted, s.calls)
  }

  /** What a shard holds is its own, in a settled queue. */
  ghost predicate Holds(q: Shard, keep: Call -> bool) {
    && Settled(q.loop)
    && (forall j :: 0 <= j < |Contents(q.loop)| ==> Contents(q.loop)[j].Some? && keep(CallOf(Contents(q.loop)[j].value)))
    && (q.worker.Handling? ==> keep(CallOf(q.worker.event)))
  }

  lemma AcceptBacklog(q: Shard, keep: Call -> bool, c: Call)
    requires Holds(q, keep) && keep(c)
    ensures Holds(q.(loop := Receive(q.loop, Some(EventOf(c)))), keep)
    ensures Backlog(q.(loop := Receive(q.loop, Some(EventOf(c))))) == Backlog(q) + [c]
  {
    var e := EventOf(c);
    CallRoundTrip(c);
    ReceiveOwed(q.loop, e);
  }

  lemma AcceptHere(q: Shard, keep: Call -> bool, accepted: seq<Call>, calls: seq<Call>, c: Call)
    requires ShardInv(q, keep, accepted, calls) && keep(c) && !q.stopped
    ensures ShardInv(q.(loop := Receive(q.loop, Some(EventOf(c)))), keep, accepted + [c], calls)
  {
    AcceptBacklog(q, keep, c);
    WhereAppend(accepted, [c], keep);
    assert Where([c], keep) == [c];
    assert Where(calls, keep) + (Backlog(q) + [c]) == (Where(calls, keep) + Backlog(q)) + [c];
  }

  lemma AcceptElsewhere(q: Shard, keep: Call -> bool, accepted: seq<Call>, calls: seq<Call>, c: Call)
    requires ShardInv(q, keep, accepted, calls) && !keep(c)
    ensures ShardInv(q, keep, accepted + [c], calls)
  {
    WhereAppend(accepted, [c], keep);
    assert Where(accepted + [c], keep) == Where(accepted, keep);
  }

  lemma DeliverHere(q: Shard, keep: Call -> bool, accepted: seq<Call>, calls: seq<Call>)
    requires ShardInv(q, keep, accepted, calls) && q.loop.open && q.loop.event.Some? && q.worker.Waiting?
    ensures ShardInv(q.(loop := Emit(q.loop), worker := Handling(q.loop.event.value)), keep, accepted, calls)
  {
    SettledKept(q.loop, None);
    assert Contents(q.loop)[1..] == Contents(Emit(q.loop));
    var e, rest := q.loop.event.value, Owed(Contents(Emit(q.loop)));
    assert Owed(Contents(q.loop)) == [e] + rest;
    assert Calls([e] + rest) == [CallOf(e)] + Calls(rest);
  }

  lemma CallHere(q: Shard, keep: Call -> bool, accepted: seq<Call>, calls: seq<Call>)
    requires ShardInv(q, keep, accepted, calls) && q.worker.Handling?
    ensures ShardInv(q.(worker := Waiting), keep, accepted, calls + [CallOf(q.worker.event)])
  {
    var c := CallOf(q.worker.event);
    WhereAppend(calls, [c], keep);
    assert Where([c], keep) == [c];
    var owed := Calls(Owed(Contents(q.loop)));
    assert Where(calls, keep) + ([c] + owed) == (Where(calls, keep) + [c]) + owed;
  }

  lemma CallElsewhere(q: Shard, keep: Call -> bool, accepted: seq<Call>, calls: seq<Call>, c: Call)
    requires ShardInv(q, keep, accepted, calls) && !keep(c)
    ensures ShardInv(q, keep, accepted, calls + [c])
  {
    WhereAppend(calls, [c], keep);
    assert Where(calls + [c], keep) == Where(calls, keep);
  }

  lemma {:induction false} ShardKept(hash: string -> nat, s: State, step: Step, i: nat)
    requires Inv(hash, s) && Enabled(hash, s, step) && i < |s.shards|
    ensures var s' := Next(hash, s, step);
      |s'.shards| == |s.shards| && ShardInv(s'.shards[i], InShard(hash, |s.shards|, i), s'.accepted, s'.calls)
  {
    var n := |s.shards|;
    var q, keep := s.shards[i], InShard(hash, n, i);
    assert ShardInv(q, keep, s.accepted, s.calls);
    match step
    case Push(c) =>
      if !s.shards[ShardOf(hash, Id(c), n)].stopped {
        if keep(c) {
          AcceptHere(q, keep, s.accepted, s.calls, c);
        } else {
          AcceptElsewhere(q, keep, s.accepted, s.calls, c);
        }
      }
    case Deliver(k) =>
      if i == k {
        DeliverHere(q, keep, s.accepted, s.calls);
      }
    case Handle(k) =>
      if i == k {
        CallHere(q, keep, s.accepted, s.calls);
      } else {
        assert ShardInv(s.shards[k], InShard(hash, n, k), s.accepted, s.calls);
        CallElsewhere(q, keep, s.accepted, s.calls, CallOf(s.shards[k].worker.event));
      }
    case Exit(_) =>
    case Stop(_) =>
    case Finish(_) =>
  }

  lemma {:induction false} StepKeepsInv(hash: string -> nat, s: State, step: Step)
    requires Inv(hash, s) && Enabled(hash, s, step)
    ensures Inv(hash, Next(hash, s, step))
  {
    forall i: nat | i < |s.shards| {
      ShardKept(hash, s, step, i);
    }
  }

  lemma {:induction false} RunKeepsInv(hash: string -> nat, states: seq<State>, steps: seq<Step>, k: nat)
    requires IsRun(hash, states, steps) && k < |states|
    ensures Inv(hash, states[k])
  {
    if k > 0 {
      RunKeepsInv(hash, states, steps, k - 1);
      var step := steps[k - 1];
      StepKeepsInv(hash, states[k - 1], step);
    }
  }

  /**
    Main theorem. Whatever pushes, workers and shutdowns interleave, the calls made
    on the wrapped watcher for one object are a prefix, in order and with the same
    arguments, of the calls accepted for it.
   */
  lemma CallsInOrder(hash: string -> nat, states: seq<State>, steps: seq<Step>, k: nat, id: string)
    requires IsRun(hash, states, steps) && k < |states|
    ensures Where(states[k].calls, Of(id)) <= Where(states[k].accepted, Of(id))
  {
    RunKeepsInv(hash, states, steps, k);
    var s := states[k];
    var i := ShardOf(hash, id, |s.shards|);
    var keep := InShard(hash, |s.shards|, i);
    assert ShardInv(s.shards[i], keep, s.accepted, s.calls);
    WhereNarrower(s.calls, keep, Of(id));
    WhereNarrower(s.accepted, keep, Of(id));
    var rest := Where(s.accepted, keep)[|Where(s.calls, keep)|..];
    assert Where(s.accepted, keep) == Where(s.calls, keep) + rest;
    WhereAppend(Where(s.calls, keep), rest, Of(id));
  }

  /** Nothing is lost either: when an object's worker waits on an empty queue, every accepted call for it has been made. */
  lemma DrainedMeansAll(hash: string -> nat, states: seq<State>, steps: seq<Step>, k: nat, id: string)
    requires IsRun(hash, states, steps) && k < |states| && |states[k].shards| > 0
    requires var q := states[k].shards[ShardOf(hash, id, |states[k].shards|)];
      q.worker.Waiting? && !q.loop.open
    ensures Where(states[k].calls, Of(id)) == Where(states[k].accepted, Of(id))
  {
    RunKeepsInv(hash, states, steps, k);
    var s := states[k];
    var i := ShardOf(hash, id, |s.shards|);
    var keep := InShard(hash, |s.shards|, i);
    assert ShardInv(s.shards[i], keep, s.accepted, s.calls);
    assert Contents(s.shards[i].loop) == [];
    assert Where(s.accepted, keep) == Where(s.calls, keep);
    WhereNarrower(s.calls, keep, Of(id));
    WhereNarrower(s.accepted, keep, Of(id));
  }

  // ---- every accepted call gets its turn ----

  /**
    Main theorem, progress: a worker that has not exited and owes calls can take its next step, which
    brings the oldest of them into its hand or makes it.
   */
  lemma OldestServed(hash: string -> nat, states: seq<State>, steps: seq<Step>, k: nat, i: nat)
    requires IsRun(hash, states, steps) && k < |states| && i < |states[k].shards| && !states[k].shards[i].worker.Exited?
    ensures var s, q := states[k], states[k].shards[i];
      Settled(q.loop) && (forall j :: 0 <= j < |Contents(q.loop)| ==> Contents(q.loop)[j].Some?) &&
      (Backlog(q) != [] ==>
        if q.worker.Handling? then
          Enabled(hash, s, Handle(i)) && Next(hash, s, Handle(i)).calls == s.calls + [Backlog(q)[0]]
        else
          Enabled(hash, s, Step.Deliver(i)) && Next(hash, s, Step.Deliver(i)).shards[i].worker.Handling?
          && CallOf(Next(hash, s, Step.Deliver(i)).shards[i].worker.event) == Backlog(q)[0])
  {
    RunKeepsInv(hash, states, steps, k);
    var q := states[k].shards[i];
    assert ShardInv(q, InShard(hash, |states[k].shards|, i), states[k].accepted, states[k].calls);
  }

  // ---- which calls are accepted ----

  /** The calls pushed before their queue was stopped, told from the steps alone. */
  function InTime(hash: string -> nat, size: nat, steps: seq<Step>): seq<Call>
    requires size > 0
  {
    if steps == [] then []
    else
      var init, last := steps[..|steps| - 1], steps[|steps| - 1];
      InTime(hash, size, init) + if last.Push? && Step.Stop(ShardOf(hash, Id(last.call), size)) !in init then [last.call] else []
  }

  /** Main theorem: every call pushed before its object's queue is stopped is accepted, and no other. */
  lemma {:induction false} AcceptedExactly(hash: string -> nat, states: seq<State>, steps: seq<Step>, k: nat)
    requires IsRun(hash, states, steps) && k < |states|
    ensures |states[k].shards| == |states[0].shards| > 0
    ensures forall i :: 0 <= i < |states[k].shards| ==> (states[k].shards[i].stopped <==> Step.Stop(i) in steps[..k])
    ensures states[k].accepted == InTime(hash, |states[0].shards|, steps[..k])
  {
    if k > 0 {
      AcceptedExactly(hash, states, steps, k - 1);
      var step := steps[k - 1];
      assert steps[..k] == steps[..k - 1] + [step] && steps[..k][..k - 1] == steps[..k - 1];
      StepAccepts(hash, states[k - 1], step, steps[..k - 1]);
    }
  }

  lemma StepAccepts(hash: string -> nat, s: State, step: Step, past: seq<Step>)
    requires Enabled(hash, s, step) && |s.shards| > 0
    requires forall i :: 0 <= i < |s.shards| ==> (s.shards[i].stopped <==> Step.Stop(i) in past)
    ensures var s' := Next(hash, s, step);
      && |s'.shards| == |s.shards|
      && (forall i :: 0 <= i < |s.shards| ==> (s'.shards[i].stopped <==> Step.Stop(i) in past + [step]))
      && s'.accepted == s.accepted + if step.Push? && Step.Stop(ShardOf(hash, Id(step.call), |s.shards|)) !in past then [step.call] else []
  {
    assert forall x :: x in past + [step] <==> x in past || x == step;
  }
}
