/** bufferedQueue: a select loop between an incoming channel, one pending event and a growing ring, and its push/stop locking. */
module EventQueue {
  import opened Common

  /**
    The variables of the run loop. `event` is Go's `any`, None being nil; the output
    arm of the select is enabled while `open` (nextCh is not nil).
   */
  datatype Loop<E> = Loop(event: Option<E>, open: bool, ring: seq<Option<E>>)

  function Start<E>(): Loop<E> {
    Loop(None, false, [])
  }

  /** The incoming arm: the event becomes the pending one if the slot looks empty, else it goes to the ring. */
  function Receive<E>(l: Loop<E>, e: Option<E>): Loop<E> {
    if l.event.None? then l.(event := e, open := true) else l.(ring := l.ring + [e])
  }

  /** The output arm, after its event has been sent: read one from the ring, or disable the arm. */
  function Emit<E>(l: Loop<E>): Loop<E> {
    if l.ring == [] then Loop(None, false, []) else Loop(l.ring[0], l.open, l.ring[1..])
  }

  /** What the loop still owes its consumer, in order. */
  function Contents<E>(l: Loop<E>): seq<Option<E>> {
    (if l.open then [l.event] else []) + l.ring
  }

  /** The output is enabled exactly when an event is pending, and nothing waits behind an empty slot. */
  predicate Settled<E>(l: Loop<E>) {
    (l.open <==> l.event.Some?) && (!l.open ==> l.ring == []) && forall i :: 0 <= i < |l.ring| ==> l.ring[i].Some?
  }

  /**
    Receiving an event adds it at the end exactly when the slot is not holding a
    delivered-next nil: a nil event that is pending is overwritten and lost.
   */
  lemma ReceiveAppendsIff<E>(l: Loop<E>, e: Option<E>)
    requires !l.open ==> l.event.None? && l.ring == []
    ensures Contents(Receive(l, e)) == Contents(l) + [e] <==> !(l.open && l.event.None?)
  {
  }

  lemma SettledKept<E>(l: Loop<E>, e: Option<E>)
    requires Settled(l)
    ensures e.Some? ==> Settled(Receive(l, e)) && Contents(Receive(l, e)) == Contents(l) + [e]
    ensures l.open ==> Settled(Emit(l)) && Contents(l) == [l.event] + Contents(Emit(l))
  {
  }

  /** A nil event pushed before another one is dropped. */
  lemma NilEventLost()
    ensures Contents(Receive(Receive(Start<int>(), None), Some(7))) == [Some(7)]
  {
  }

  /** What the channels offer the loop at one turn. */
  datatype Offer<E> = Incoming(e: Option<E>) | ConsumerReady | Closed

  /** The events received from an offer sequence, up to the closing. */
  function Accepted<E>(offers: seq<Offer<E>>): seq<Option<E>> {
    if offers == [] || offers[0].Closed? then []
    else (if offers[0].Incoming? then [offers[0].e] else []) + Accepted(offers[1..])
  }

  lemma {:induction false} AcceptedSnoc<E>(offers: seq<Offer<E>>, o: Offer<E>)
    requires Closed !in offers
    ensures Accepted(offers + [o]) == Accepted(offers) + if o.Incoming? then [o.e] else []
  {
    if offers == [] {
      assert offers + [o] == [o] && [o][1..] == [];
    } else {
      assert (offers + [o])[1..] == offers[1..] + [o];
      AcceptedSnoc(offers[1..], o);
    }
  }

  /** One turn of the select; after the closing nothing happens any more. */
  function Turn<E>(st: (seq<Option<E>>, Loop<E>, bool), o: Offer<E>): (seq<Option<E>>, Loop<E>, bool) {
    var (delivered, l, closed) := st;
    if closed then st
    else match o
         case Incoming(e) => (delivered, Receive(l, e), false)
         case ConsumerReady => if l.open then (delivered + [l.event], Emit(l), false) else st
         case Closed => (delivered, l, true)
  }

  function Turns<E>(offers: seq<Offer<E>>): (seq<Option<E>>, Loop<E>, bool) {
    if offers == [] then ([], Start(), false) else Turn(Turns(offers[..|offers| - 1]), offers[|offers| - 1])
  }

  predicate NoNil<E>(offers: seq<Offer<E>>) {
    forall k :: 0 <= k < |offers| && offers[k].Incoming? ==> offers[k].e.Some?
  }

  /** While no nil is pushed, what has been delivered and what is still held are what was received, in order. */
  ghost predicate Faithful<E>(offers: seq<Offer<E>>) {
    var (delivered, l, closed) := Turns(offers);
    Settled(l) && delivered + Contents(l) == Accepted(offers) && (closed <==> Closed in offers)
  }

  lemma {:induction false} TurnsFaithful<E>(offers: seq<Offer<E>>)
    requires NoNil(offers)
    ensures Faithful(offers)
  {
    if offers != [] {
      var init, o := offers[..|offers| - 1], offers[|offers| - 1];
      assert offers == init + [o];
      TurnsFaithful(init);
      var (delivered, l, closed) := Turns(init);
      if Closed in init {
        AcceptedAfterClose(init, o);
      } else {
        AcceptedSnoc(init, o);
        SettledKept(l, if o.Incoming? then o.e else None);
        if o.ConsumerReady? && l.open {
          assert delivered + ([l.event] + Contents(Emit(l))) == (delivered + [l.event]) + Contents(Emit(l));
        } else if o.Incoming? {
          assert delivered + (Contents(l) + [o.e]) == (delivered + Contents(l)) + [o.e];
        }
      }
    }
  }

  /** How many events were received while a nil event was the pending one. */
  function Overwrites<E>(offers: seq<Offer<E>>): nat {
    if offers == [] then 0
    else
      var init, o := offers[..|offers| - 1], offers[|offers| - 1];
      var (_, l, closed) := Turns(init);
      Overwrites(init) + if !closed && o.Incoming? && l.open && l.event.None? then 1 else 0
  }

  /** A consumer that is ready gets the oldest event held, if there is one. */
  lemma ServedInTurn<E>(offers: seq<Offer<E>>)
    requires Closed !in offers
    ensures var (delivered, l, _) := Turns(offers);
      Turns(offers + [ConsumerReady]).0 == delivered + if Contents(l) == [] then [] else [Contents(l)[0]]
  {
    TurnsLose(offers);
    assert (offers + [ConsumerReady])[..|offers|] == offers;
  }

  /** Each of them costs one event, and nothing else does. */
  lemma {:induction false} TurnsLose<E>(offers: seq<Offer<E>>)
    ensures var (delivered, l, closed) := Turns(offers);
      && (!l.open ==> l.event.None? && l.ring == []) && (closed <==> Closed in offers)
      && |delivered + Contents(l)| + Overwrites(offers) == |Accepted(offers)|
      && (Overwrites(offers) == 0 ==> delivered + Contents(l) == Accepted(offers))
  {
    if offers != [] {
      var init, o := offers[..|offers| - 1], offers[|offers| - 1];
      assert offers == init + [o];
      TurnsLose(init);
      var (delivered, l, closed) := Turns(init);
      if Closed in init {
        AcceptedAfterClose(init, o);
      } else {
        AcceptedSnoc(init, o);
        TurnLoses(delivered, l, o);
        if o.ConsumerReady? && l.open {
          assert delivered + ([l.event] + Contents(Emit(l))) == (delivered + [l.event]) + Contents(Emit(l));
        }
      }
    }
  }

  /** An incoming event is added at the end, or takes a pending nil's place. */
  lemma TurnLoses<E>(delivered: seq<Option<E>>, l: Loop<E>, o: Offer<E>)
    requires !l.open ==> l.event.None? && l.ring == []
    ensures o.Incoming? ==>
      if l.open && l.event.None? then |Contents(Receive(l, o.e))| == |Contents(l)|
      else delivered + Contents(Receive(l, o.e)) == (delivered + Contents(l)) + [o.e]
    ensures var (_, next, _) := Turn((delivered, l, false), o); !next.open ==> next.event.None? && next.ring == []
  {
    if o.Incoming? && !(l.open && l.event.None?) {
      ReceiveAppendsIff(l, o.e);
      assert delivered + (Contents(l) + [o.e]) == (delivered + Contents(l)) + [o.e];
    }
  }

  /** Over a whole run: what is delivered and held is what was received, in order, exactly if no event met a pending nil. */
  lemma FaithfulIff<E>(offers: seq<Offer<E>>)
    ensures Turns(offers).0 + Contents(Turns(offers).1) == Accepted(offers) <==> Overwrites(offers) == 0
  {
    TurnsLose(offers);
  }

  lemma {:induction false} AcceptedAfterClose<E>(offers: seq<Offer<E>>, o: Offer<E>)
    requires Closed in offers
    ensures Accepted(offers + [o]) == Accepted(offers)
  {
    assert (offers + [o])[0] == offers[0];
    if !offers[0].Closed? {
      assert (offers + [o])[1..] == offers[1..] + [o];
      AcceptedAfterClose(offers[1..], o);
    }
  }

  /** The run loop on a given schedule of ready channels; a consumer that is ready is served only while the arm is enabled. */
  method RunLoop<E>(offers: seq<Offer<E>>) returns (delivered: seq<Option<E>>, rest: Loop<E>, closed: bool)
    ensures (delivered, rest, closed) == Turns(offers)
    ensures NoNil(offers) ==> Settled(rest) && delivered + Contents(rest) == Accepted(offers) && (closed <==> Closed in offers)
  {
    delivered, closed := [], false;
    var event: Option<E>, open, ring: seq<Option<E>> := None, false, [];
    for i := 0 to |offers|
      invariant (delivered, Loop(event, open, ring), false) == Turns(offers[..i])
    {
      assert offers[..i + 1][..i] == offers[..i];
      match offers[i] {
        case ConsumerReady =>
          if open {
            delivered := delivered + [event];
            if ring == [] {
              event, open := None, false;
            } else {
              event, ring := ring[0], ring[1..];
            }
          }
        case Incoming(e) =>
          if event.None? {
            event, open := e, true;
          } else {
            ring := ring + [e];
          }
        case Closed =>
          ClosedStays(offers, i);
          if NoNil(offers) {
            TurnsFaithful(offers);
          }
          return delivered, Loop(event, open, ring), true;
      }
    }
    assert offers[..|offers|] == offers;
    if NoNil(offers) {
      TurnsFaithful(offers);
    }
    return delivered, Loop(event, open, ring), false;
  }

  lemma {:induction false} ClosedStays<E>(offers: seq<Offer<E>>, i: nat)
    requires i < |offers| && Turns(offers[..i + 1]).2
    ensures Turns(offers) == Turns(offers[..i + 1])
  {
    if i + 1 < |offers| {
      var init := offers[..|offers| - 1];
      assert init[..i + 1] == offers[..i + 1];
      ClosedStays(init, i);
    } else {
      assert offers[..i + 1] == offers;
    }
  }

  // ---- push and stop under the read-write lock ----

  /** A pusher goroutine: outside, or past the stopped check with the read lock held and a send to make. */
  datatype Pusher<E> = Idle | Sending(e: E)

  datatype Queue<E> = Queue(loop: Loop<E>, running: bool, stopped: bool, inputClosed: bool, outputClosed: bool,
                            pushers: seq<Pusher<E>>, accepted: seq<E>, delivered: seq<E>)

  datatype QStep<E> =
    | Check(pusher: nat, e: E)
    | Send(pusher: nat)
    | Deliver
    | Stop
    | Finish

  /** Enabledness is what the locks and channels allow. Stopping needs the write lock, so no pusher may be inside. */
  ghost predicate QEnabled<E>(q: Queue<E>, s: QStep<E>) {
    match s
    case Check(i, _) => i < |q.pushers| && q.pushers[i].Idle?
    case Send(i) => i < |q.pushers| && q.pushers[i].Sending? && q.running
    case Deliver => q.running && q.loop.open && q.loop.event.Some?
    case Stop => !q.stopped && forall i :: 0 <= i < |q.pushers| ==> q.pushers[i].Idle?
    case Finish => q.running && q.inputClosed
  }

  ghost function QNext<E>(q: Queue<E>, s: QStep<E>): Queue<E>
    requires QEnabled(q, s)
  {
    match s
    case Check(i, e) => if q.stopped then q else q.(pushers := q.pushers[i := Sending(e)])
    case Send(i) =>
      var e := q.pushers[i].e;
      q.(pushers := q.pushers[i := Idle], loop := Receive(q.loop, Some(e)), accepted := q.accepted + [e])
    case Deliver => q.(loop := Emit(q.loop), delivered := q.delivered + [q.loop.event.value])
    case Stop => q.(stopped := true, inputClosed := true)
    case Finish => q.(running := false, outputClosed := true)
  }

  /** The pending events as plain events. */
  function Owed<E>(contents: seq<Option<E>>): seq<E>
    requires forall i :: 0 <= i < |contents| ==> contents[i].Some?
  {
    if contents == [] then [] else [contents[0].value] + Owed(contents[1..])
  }

  /** Delivered events, then what the loop holds, are the accepted events in order. */
  ghost predicate Accounted<E>(l: Loop<E>, delivered: seq<E>, accepted: seq<E>) {
    && Settled(l)
    && (forall i :: 0 <= i < |Contents(l)| ==> Contents(l)[i].Some?)
    && delivered + Owed(Contents(l)) == accepted
  }

  ghost predicate QInv<E>(q: Queue<E>) {
    && Accounted(q.loop, q.delivered, q.accepted)
    && (q.inputClosed <==> q.stopped)
    && (q.stopped ==> forall i :: 0 <= i < |q.pushers| ==> q.pushers[i].Idle?)
    && (q.outputClosed <==> !q.running)
    && (!q.running ==> q.inputClosed)
  }

  ghost predicate QInitial<E>(q: Queue<E>) {
    && q.loop == Start() && q.running && !q.stopped && !q.inputClosed && !q.outputClosed
    && q.accepted == [] && q.delivered == []
    && forall i :: 0 <= i < |q.pushers| ==> q.pushers[i].Idle?
  }

  lemma {:induction false} OwedSnoc<E>(c: seq<Option<E>>, e: E)
    requires forall i :: 0 <= i < |c| ==> c[i].Some?
    ensures Owed(c + [Some(e)]) == Owed(c) + [e]
  {
    if c == [] {
      assert c + [Some(e)] == [Some(e)];
    } else {
      assert (c + [Some(e)])[1..] == c[1..] + [Some(e)];
      OwedSnoc(c[1..], e);
    }
  }

  /** A pushed event is owed after everything owed before. */
  lemma ReceiveOwed<E>(l: Loop<E>, e: E)
    requires Settled(l) && forall i :: 0 <= i < |Contents(l)| ==> Contents(l)[i].Some?
    ensures Contents(Receive(l, Some(e))) == Contents(l) + [Some(e)]
    ensures Owed(Contents(Receive(l, Some(e)))) == Owed(Contents(l)) + [e]
  {
    SettledKept(l, Some(e));
    OwedSnoc(Contents(l), e);
  }

  lemma ReceiveAccounted<E>(l: Loop<E>, delivered: seq<E>, accepted: seq<E>, e: E)
    requires Accounted(l, delivered, accepted)
    ensures Accounted(Receive(l, Some(e)), delivered, accepted + [e])
  {
    SettledKept(l, Some(e));
    ReceiveOwed(l, e);
    assert delivered + (Owed(Contents(l)) + [e]) == (delivered + Owed(Contents(l))) + [e];
  }

  lemma EmitAccounted<E>(l: Loop<E>, delivered: seq<E>, accepted: seq<E>)
    requires Accounted(l, delivered, accepted) && l.open && l.event.Some?
    ensures Accounted(Emit(l), delivered + [l.event.value], accepted)
  {
    SettledKept(l, None);
    assert Contents(l)[1..] == Contents(Emit(l));
    var rest := Owed(Contents(Emit(l)));
    assert delivered + ([l.event.value] + rest) == (delivered + [l.event.value]) + rest;
  }

  lemma QStepKeepsInv<E>(q: Queue<E>, s: QStep<E>)
    requires QInv(q) && QEnabled(q, s)
    ensures QInv(QNext(q, s))
    ensures s.Send? ==> !q.inputClosed
  {
    match s
    case Check(i, e) =>
    case Send(i) => ReceiveAccounted(q.loop, q.delivered, q.accepted, q.pushers[i].e);
    case Deliver => EmitAccounted(q.loop, q.delivered, q.accepted);
    case Stop =>
    case Finish =>
  }

  /** A run of the queue from `q`. */
  ghost predicate QRun<E>(states: seq<Queue<E>>, steps: seq<QStep<E>>) {
    && |states| == |steps| + 1 && QInitial(states[0])
    && forall k {:trigger steps[k]} :: 0 <= k < |steps| ==> QEnabled(states[k], steps[k]) && states[k + 1] == QNext(states[k], steps[k])
  }

  lemma {:induction false} QRunKeepsInv<E>(states: seq<Queue<E>>, steps: seq<QStep<E>>, k: nat)
    requires QRun(states, steps) && k < |states|
    ensures QInv(states[k])
  {
    if k > 0 {
      QRunKeepsInv(states, steps, k - 1);
      var s := steps[k - 1];
      QStepKeepsInv(states[k - 1], s);
    }
  }

  /**
    Main theorem. In every reachable state delivered, pending and ringed events are
    the accepted ones in order, the output is enabled exactly when one is pending,
    and no push is about to send on the closed channel.
   */
  lemma QueueFaithful<E>(states: seq<Queue<E>>, steps: seq<QStep<E>>, k: nat)
    requires QRun(states, steps) && k < |states|
    ensures Accounted(states[k].loop, states[k].delivered, states[k].accepted)
    ensures |states[k].accepted| == |states[k].delivered| + |Contents(states[k].loop)|
    ensures forall i :: 0 <= i < |states[k].pushers| && states[k].pushers[i].Sending? ==> !states[k].inputClosed
    ensures k < |steps| && steps[k].Send? ==> !states[k].inputClosed
    ensures states[k].running && |states[k].delivered| < |states[k].accepted| ==> QEnabled(states[k], QStep<E>.Deliver)
    ensures k < |steps| && steps[k].Deliver? ==> states[k + 1].delivered == states[k].accepted[..|states[k].delivered| + 1]
  {
    QRunKeepsInv(states, steps, k);
    OwedLength(Contents(states[k].loop));
    if k < |steps| {
      var s := steps[k];
      QStepKeepsInv(states[k], s);
    }
  }

  lemma {:induction false} StoppedMeansStop<E>(states: seq<Queue<E>>, steps: seq<QStep<E>>, k: nat)
    requires QRun(states, steps) && k < |states|
    ensures states[k].stopped <==> Stop in steps[..k]
  {
    if k > 0 {
      StoppedMeansStop(states, steps, k - 1);
      var s := steps[k - 1];
      assert steps[..k] == steps[..k - 1] + [s];
    }
  }

  /** A pusher past the stopped check stays there until it sends, and can. */
  lemma {:induction false} StillSending<E>(states: seq<Queue<E>>, steps: seq<QStep<E>>, k: nat, j: nat, i: nat, e: E)
    requires QRun(states, steps) && k <= j < |states|
    requires i < |states[k].pushers| && states[k].pushers[i] == Sending(e) && Send(i) !in steps[k..j]
    ensures i < |states[j].pushers| && states[j].pushers[i] == Sending(e) && QEnabled(states[j], QStep<E>.Send(i))
    decreases j
  {
    QRunKeepsInv(states, steps, j);
    if k < j {
      assert steps[k..j] == steps[k..j - 1] + [steps[j - 1]];
      StillSending(states, steps, k, j - 1, i, e);
      var s := steps[j - 1];
    }
  }

  /**
    Main theorem, the pushes. A push that comes before the stop is never lost: from its check on it
    can always send, and when it does its event is accepted. One that comes after changes nothing.
   */
  lemma PushAcceptedIff<E>(states: seq<Queue<E>>, steps: seq<QStep<E>>, k: nat, j: nat, i: nat, e: E)
    requires QRun(states, steps) && k < j < |states| && steps[k] == Check(i, e) && Send(i) !in steps[k + 1..j]
    ensures Stop in steps[..k] ==> states[k + 1] == states[k]
    ensures Stop !in steps[..k] ==> QEnabled(states[j], QStep<E>.Send(i))
    ensures Stop !in steps[..k] && j < |steps| && steps[j] == Send(i) ==> states[j + 1].accepted == states[j].accepted + [e]
  {
    StoppedMeansStop(states, steps, k);
    assert QEnabled(states[k], steps[k]) && states[k + 1] == QNext(states[k], steps[k]);
    if Stop !in steps[..k] {
      StillSending(states, steps, k + 1, j, i, e);
      if j < |steps| && steps[j] == Send(i) {
        assert states[j + 1] == QNext(states[j], steps[j]);
      }
    }
  }

  lemma {:induction false} OwedLength<E>(c: seq<Option<E>>)
    requires forall i :: 0 <= i < |c| ==> c[i].Some?
    ensures |Owed(c)| == |c|
  {
    if c != [] {
      OwedLength(c[1..]);
    }
  }
}
