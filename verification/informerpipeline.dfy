/** The informer end to end: deltas into the cache, events through distribute into one buffered queue per listener, calls on its handler. */
module InformerPipeline {
  import opened Common
  import opened CustomCache
  import EventQueue

  /** The event structs that travel through the queues. */
  datatype Notice =
    | AddNotice(obj: Object, isInInitialList: bool)
    | UpdateNotice(obj: Object, previous: Object)
    | DeleteNotice(obj: Object)

  /** What the informer's OnAdd, OnUpdate and OnDelete distribute. */
  function NoticeOf(c: Call): Notice {
    match c
    case OnAdd(obj, initial) => AddNotice(obj, initial)
    case OnUpdate(previous, obj) => UpdateNotice(obj, previous)
    case OnDelete(obj) => DeleteNotice(obj)
  }

  /** What a listener calls on its handler for a notice. */
  function CallOf(n: Notice): Call {
    match n
    case AddNotice(obj, initial) => OnAdd(obj, initial)
    case UpdateNotice(obj, previous) => OnUpdate(previous, obj)
    case DeleteNotice(obj) => OnDelete(obj)
  }

  function Notices(calls: seq<Call>): seq<Notice> {
    seq(|calls|, i requires 0 <= i < |calls| => NoticeOf(calls[i]))
  }

  function Calls(notices: seq<Notice>): seq<Call> {
    seq(|notices|, i requires 0 <= i < |notices| => CallOf(notices[i]))
  }

  /** Handlers get the very calls the informer got: nothing is swapped on the way. */
  lemma CallsOfPrefix(notices: seq<Notice>, calls: seq<Call>)
    requires notices <= Notices(calls)
    ensures Calls(notices) == calls[..|notices|]
  {
  }

  datatype Listener = Listener(loop: EventQueue.Loop<Notice>, running: bool, stopped: bool,
                               accepted: seq<Notice>, delivered: seq<Notice>)

  /** distribute: not running, waiting for the processor to start, or looping over the listeners still due. */
  datatype Outbox = Idle | Blocked(notice: Notice) | Sending(notice: Notice, due: seq<bool>)

  /** `started` is the processor's flag, `open` whether its started channel has been closed. */
  datatype State = State(cache: Cache, ins: seq<Input>, emitted: seq<Notice>, outbox: Outbox,
                         listeners: seq<Listener>, started: bool, open: bool)

  datatype Step =
    | AddListener
    | Start
    | Process(input: Input)
    | Begin
    | Push(listener: nat)
    | End
    | Deliver(listener: nat)
    | Shutdown
    | Stop(listener: nat)

  /** What locks, channels and the refusal of late listeners allow; deltas are processed one at a time. */
  predicate Enabled(s: State, step: Step) {
    match step
    case AddListener => !s.started
    case Start => !s.started && !s.open
    case Process(x) => s.outbox.Idle? && !Fails(x.delta)
    case Begin => s.open && s.outbox.Blocked?
    case Push(i) =>
      s.outbox.Sending? && i < |s.outbox.due| && s.outbox.due[i] && i < |s.listeners| && (s.listeners[i].stopped || s.listeners[i].running)
    case End => s.outbox.Sending? && true !in s.outbox.due
    case Deliver(i) =>
      i < |s.listeners| && s.listeners[i].running && s.listeners[i].loop.open && s.listeners[i].loop.event.Some?
    case Shutdown => s.started
    case Stop(i) => s.open && !s.started && i < |s.listeners| && !s.listeners[i].stopped
  }

  function Accept(l: Listener, n: Notice): Listener {
    if l.stopped then l else l.(loop := EventQueue.Receive(l.loop, Some(n)), accepted := l.accepted + [n])
  }

  function Next(s: State, step: Step): State
    requires Enabled(s, step)
  {
    match step
    case AddListener => s.(listeners := s.listeners + [Listener(EventQueue.Start(), false, false, [], [])])
    case Start =>
      s.(started := true, open := true,
         listeners := seq(|s.listeners|, i requires 0 <= i < |s.listeners| => s.listeners[i].(running := true)))
    case Process(x) =>
      var reported := Reported(s.cache, x.delta, x.initial);
      s.(cache := Applied(s.cache, x.delta), ins := s.ins + [x], emitted := s.emitted + Notices(reported),
         outbox := if reported == [] then Idle else Blocked(NoticeOf(reported[0])))
    case Begin => s.(outbox := Sending(s.outbox.notice, seq(|s.listeners|, i => true)))
    case Push(i) =>
      s.(listeners := s.listeners[i := Accept(s.listeners[i], s.outbox.notice)],
         outbox := Sending(s.outbox.notice, s.outbox.due[i := false]))
    case End => s.(outbox := Idle)
    case Deliver(i) =>
      var l := s.listeners[i];
      s.(listeners := s.listeners[i := l.(loop := EventQueue.Emit(l.loop), delivered := l.delivered + [l.loop.event.value])])
    case Shutdown => s.(started := false)
    case Stop(i) => s.(listeners := s.listeners[i := s.listeners[i].(stopped := true)])
  }

  ghost predicate Initial(c: Cache, s: State) {
    s == State(c, [], [], Idle, [], false, false)
  }

  ghost predicate IsRun(c: Cache, states: seq<State>, steps: seq<Step>) {
    && |states| == |steps| + 1 && Initial(c, states[0])
    && forall k {:trigger steps[k]} :: 0 <= k < |steps| ==> Enabled(states[k], steps[k]) && states[k + 1] == Next(states[k], steps[k])
  }

  // ---- what every step keeps ----

  /** Listener `i` has yet to be offered the last notice emitted. */
  predicate Due(o: Outbox, i: nat) {
    o.Blocked? || (o.Sending? && i < |o.due| && o.due[i])
  }

  ghost predicate ListenerInv(l: Listener, emitted: seq<Notice>, due: bool, open: bool) {
    && EventQueue.Accounted(l.loop, l.delivered, l.accepted)
    && l.accepted <= emitted
    && (due ==> |emitted| > 0)
    && (l.running && !l.stopped ==> l.accepted == if due then emitted[..|emitted| - 1] else emitted)
    && (!l.running ==> l.accepted == [])
    && (l.running ==> open)
  }

  ghost predicate OutboxInv(s: State) {
    && (!s.outbox.Idle? ==> |s.emitted| > 0 && s.emitted[|s.emitted| - 1] == s.outbox.notice)
    && (!s.open ==> !s.outbox.Sending? && |s.emitted| == if s.outbox.Idle? then 0 else 1)
    && (s.started ==> s.open)
    && (s.outbox.Sending? ==> |s.outbox.due| <= |s.listeners|)
  }

  ghost predicate Inv(c: Cache, s: State) {
    && s.cache == After(c, s.ins) && s.emitted == Notices(Emitted(c, s.ins))
    && OutboxInv(s)
    && forall i :: 0 <= i < |s.listeners| ==> ListenerInv(s.listeners[i], s.emitted, Due(s.outbox, i), s.open)
  }

  lemma AcceptKeeps(l: Listener, emitted: seq<Notice>, open: bool)
    requires ListenerInv(l, emitted, true, open) && (l.stopped || l.running)
    ensures ListenerInv(Accept(l, emitted[|emitted| - 1]), emitted, false, open)
  {
    var n := emitted[|emitted| - 1];
    if !l.stopped {
      EventQueue.ReceiveAccounted(l.loop, l.delivered, l.accepted, n);
      assert emitted == emitted[..|emitted| - 1] + [n];
    }
  }

  lemma DeliverKeeps(l: Listener, emitted: seq<Notice>, due: bool, open: bool)
    requires ListenerInv(l, emitted, due, open) && l.loop.open && l.loop.event.Some?
    ensures ListenerInv(l.(loop := EventQueue.Emit(l.loop), delivered := l.delivered + [l.loop.event.value]), emitted, due, open)
  {
    EventQueue.EmitAccounted(l.loop, l.delivered, l.accepted);
  }

  lemma EmittedGrows(c: Cache, ins: seq<Input>, x: Input)
    ensures After(c, ins + [x]) == Applied(After(c, ins), x.delta)
    ensures Notices(Emitted(c, ins + [x])) == Notices(Emitted(c, ins)) + Notices(Reported(After(c, ins), x.delta, x.initial))
  {
    AfterSnoc(c, ins, x);
  }

  lemma ProcessKeeps(c: Cache, s: State, x: Input)
    requires Inv(c, s) && Enabled(s, Process(x))
    ensures Inv(c, Next(s, Process(x)))
  {
    var s', reported := Next(s, Process(x)), Reported(s.cache, x.delta, x.initial);
    EmittedGrows(c, s.ins, x);
    forall i | 0 <= i < |s.listeners| ensures ListenerInv(s'.listeners[i], s'.emitted, Due(s'.outbox, i), s'.open) {
    }
  }

  lemma StepKeepsInv(c: Cache, s: State, step: Step)
    requires Inv(c, s) && Enabled(s, step)
    ensures Inv(c, Next(s, step))
  {
    var s' := Next(s, step);
    if step.Process? {
      ProcessKeeps(c, s, step.input);
    } else {
      forall i | 0 <= i < |s'.listeners| ensures ListenerInv(s'.listeners[i], s'.emitted, Due(s'.outbox, i), s'.open) {
        if i < |s.listeners| {
          ListenerKept(s, step, i);
        }
      }
    }
  }

  lemma {:induction false} ListenerKept(s: State, step: Step, i: nat)
    requires Enabled(s, step) && OutboxInv(s) && i < |s.listeners| && !step.Process?
    requires ListenerInv(s.listeners[i], s.emitted, Due(s.outbox, i), s.open)
    ensures var s' := Next(s, step); ListenerInv(s'.listeners[i], s'.emitted, Due(s'.outbox, i), s'.open)
  {
    match step
    case Push(j) =>
      if i == j {
        AcceptKeeps(s.listeners[i], s.emitted, s.open);
      }
    case Deliver(j) =>
      if i == j {
        DeliverKeeps(s.listeners[i], s.emitted, Due(s.outbox, i), s.open);
      }
    case _ =>
  }

  lemma {:induction false} RunKeepsInv(c: Cache, states: seq<State>, steps: seq<Step>, k: nat)
    requires IsRun(c, states, steps) && k < |states|
    ensures Inv(c, states[k])
  {
    if k > 0 {
      RunKeepsInv(c, states, steps, k - 1);
      var step := steps[k - 1];
      StepKeepsInv(c, states[k - 1], step);
    }
  }

  lemma {:induction false} TruthfulPrefix(c: Cache, calls: seq<Call>, n: nat)
    requires n <= |calls| && AllTruthful(c, calls)
    ensures AllTruthful(c, calls[..n])
    decreases n
  {
    if n > 0 {
      TruthfulPrefix(Replayed(c, calls[0]), calls[1..], n - 1);
      assert calls[..n][1..] == calls[1..][..n - 1];
    }
  }

  /**
    Main theorem. At every moment of every run, any listener that replays the calls
    its handler got on a copy of the initial cache holds what the cache held after
    some prefix of the deltas; and if no Get was blinded, every one of those calls
    told the truth about that copy.
   */
  lemma ListenerMirrorsCache(c: Cache, states: seq<State>, steps: seq<Step>, k: nat, i: nat)
    requires IsRun(c, states, steps) && k < |states| && i < |states[k].listeners|
    ensures var calls := Calls(states[k].listeners[i].delivered);
      && (exists m :: 0 <= m <= |states[k].ins| && Replay(c, calls) == After(c, states[k].ins[..m]))
      && (!Blinded(c, states[k].ins) ==> AllTruthful(c, calls))
  {
    RunKeepsInv(c, states, steps, k);
    var s := states[k];
    var l := s.listeners[i];
    CallsOfPrefix(l.delivered, Emitted(c, s.ins));
    ReplayIsSnapshot(c, s.ins, |l.delivered|);
    EmittedTruthfulIff(c, s.ins);
    if !Blinded(c, s.ins) {
      TruthfulPrefix(c, Emitted(c, s.ins), |l.delivered|);
    }
  }

  /** A running listener with an empty queue, when nothing is being distributed, has caught up with the cache. */
  lemma QuietListenerCaughtUp(c: Cache, states: seq<State>, steps: seq<Step>, k: nat, i: nat)
    requires IsRun(c, states, steps) && k < |states| && i < |states[k].listeners| && states[k].outbox.Idle?
    requires var l := states[k].listeners[i]; l.running && !l.stopped && !l.loop.open
    ensures Replay(c, Calls(states[k].listeners[i].delivered)) == states[k].cache
  {
    RunKeepsInv(c, states, steps, k);
    var s := states[k];
    var l := s.listeners[i];
    assert EventQueue.Contents(l.loop) == [];
    assert l.delivered == s.emitted;
    var emitted := Emitted(c, s.ins);
    CallsOfPrefix(l.delivered, emitted);
    assert emitted[..|emitted|] == emitted;
    ReplayAll(c, s.ins);
  }

  // ---- progress ----

  /** A listener registered before the start runs from then on, and is stopped only by its own stop. */
  lemma {:induction false} RunningSinceStart(c: Cache, states: seq<State>, steps: seq<Step>, m: nat, k: nat, i: nat)
    requires IsRun(c, states, steps) && m < k < |states| && steps[m] == Start && i < |states[m].listeners|
    ensures i < |states[k].listeners| && states[k].listeners[i].running
    ensures states[k].listeners[i].stopped <==> states[m].listeners[i].stopped || Stop(i) in steps[m..k]
    decreases k
  {
    var step := steps[k - 1];
    assert steps[m..k] == steps[m..k - 1] + [step];
    if m < k - 1 {
      RunningSinceStart(c, states, steps, m, k - 1, i);
    }
  }

  /** After the shutdown the processor never starts again, and every listener that is left can be stopped. */
  lemma {:induction false} ShutdownStops(c: Cache, states: seq<State>, steps: seq<Step>, m: nat, k: nat, i: nat)
    requires IsRun(c, states, steps) && m < k < |states| && steps[m] == Shutdown
    ensures !states[k].started && states[k].open
    ensures i < |states[k].listeners| && !states[k].listeners[i].stopped ==> Enabled(states[k], Stop(i))
    decreases k
  {
    RunKeepsInv(c, states, steps, k - 1);
    var step := steps[k - 1];
    if m < k - 1 {
      ShutdownStops(c, states, steps, m, k - 1, i);
    }
  }

  /** What a listener has accepted and not delivered it can deliver, the oldest first. */
  lemma DeliversOldest(c: Cache, states: seq<State>, steps: seq<Step>, k: nat, i: nat)
    requires IsRun(c, states, steps) && k < |states| && i < |states[k].listeners|
    ensures var s, l := states[k], states[k].listeners[i];
      l.running && |l.delivered| < |l.accepted| ==>
        Enabled(s, Deliver(i)) && Next(s, Deliver(i)).listeners[i].delivered == l.accepted[..|l.delivered| + 1]
  {
    RunKeepsInv(c, states, steps, k);
    var l := states[k].listeners[i];
    assert ListenerInv(l, states[k].emitted, Due(states[k].outbox, i), states[k].open);
    EventQueue.OwedLength(EventQueue.Contents(l.loop));
  }

  function DueCount(due: seq<bool>): nat {
    if due == [] then 0 else (if due[0] then 1 else 0) + DueCount(due[1..])
  }

  lemma {:induction false} DueServed(due: seq<bool>, i: nat)
    requires i < |due| && due[i]
    ensures DueCount(due[i := false]) + 1 == DueCount(due)
  {
    if i == 0 {
      assert due[i := false][1..] == due[1..];
    } else {
      assert due[i := false][1..] == due[1..][i - 1 := false];
      DueServed(due[1..], i - 1);
    }
  }

  lemma {:induction false} AllDue(due: seq<bool>)
    requires forall i :: 0 <= i < |due| ==> due[i]
    ensures DueCount(due) == |due|
  {
    if due != [] {
      AllDue(due[1..]);
    }
  }

  /** What is left of distributing one notice. */
  function ToDistribute(s: State): nat {
    match s.outbox
    case Idle => 0
    case Blocked(_) => 2 + |s.listeners|
    case Sending(_, due) => 1 + DueCount(due)
  }

  /** Once the processor has started, distributing a notice never gets stuck, and each of its steps brings it nearer to its end. */
  lemma DistributionMoves(c: Cache, states: seq<State>, steps: seq<Step>, k: nat)
    requires IsRun(c, states, steps) && k < |states| && states[k].open && !states[k].outbox.Idle?
    requires forall i :: 0 <= i < |states[k].listeners| ==> states[k].listeners[i].running || states[k].listeners[i].stopped
    ensures var s := states[k];
      exists step: Step :: (step.Begin? || step.Push? || step.End?) && Enabled(s, step) && ToDistribute(Next(s, step)) < ToDistribute(s)
  {
    RunKeepsInv(c, states, steps, k);
    var s := states[k];
    if s.outbox.Blocked? {
      assert Enabled(s, Begin);
      AllDue(seq(|s.listeners|, i => true));
      assert ToDistribute(Next(s, Begin)) < ToDistribute(s);
    } else if true in s.outbox.due {
      var i :| 0 <= i < |s.outbox.due| && s.outbox.due[i];
      DueServed(s.outbox.due, i);
      assert Enabled(s, Push(i)) && ToDistribute(Next(s, Push(i))) < ToDistribute(s);
    } else {
      assert Enabled(s, End) && ToDistribute(Next(s, End)) < ToDistribute(s);
    }
  }
}
