/** The controller's own retry list for one key: the ticker that runs what is due, and what bounds the runs. */
module LegacyRetry {
  import opened Common
  import opened ListMaps
  import opened RetryHeap

  /**
    A queued retry. `func` is the identity of its closure, which a retried entry keeps;
    `err` is what the first attempt returned, and is not carried on by the ticker.
   */
  datatype Info = Info(retryAfter: int, attempt: int, func: nat, action: Action, generation: int, err: Option<int>)

  /** What a retry's function returns: an explicit delay and an error. */
  datatype Outcome = Outcome(requeue: Option<int>, err: Option<int>)

  // ---- one tick ----

  predicate Due(info: Info, t: int) {
    info.retryAfter < t
  }

  /** What a retry that was run leaves behind: an explicit delay keeps the attempt, a failure counts one more. */
  function Again(info: Info, t: int, o: Outcome, policy: Policy): Option<Info> {
    if o.requeue.Some? then Some(info.(retryAfter := t + o.requeue.value, err := None))
    else if o.err.Some? && policy.Some? then
      match policy.value(o.err.value, info.attempt + 1)
      case None => None
      case Some(after) => Some(info.(attempt := info.attempt + 1, retryAfter := t + after, err := None))
    else None
  }

  /** The entries of a list that are not due, in order. */
  function Waiting(list: seq<Info>, t: int): seq<Info> {
    if list == [] then []
    else
      var rest := Waiting(list[1..], t);
      if Due(list[0], t) then rest else [list[0]] + rest
  }

  /** The closures of those that are, in order. */
  function Run(list: seq<Info>, t: int): seq<nat> {
    if list == [] then []
    else
      var rest := Run(list[1..], t);
      if Due(list[0], t) then [list[0].func] + rest else rest
  }

  /** `outcomes` answers, by position, what running each entry would return. */
  function Added(list: seq<Info>, t: int, outcomes: seq<Outcome>, policy: Policy): seq<Info>
    requires |outcomes| == |list|
  {
    if list == [] then []
    else
      var rest := Added(list[1..], t, outcomes[1..], policy);
      if !Due(list[0], t) then rest
      else match Again(list[0], t, outcomes[0], policy) case None => rest case Some(info) => [info] + rest
  }

  lemma {:induction false} TickSnoc(list: seq<Info>, x: Info, t: int, outcomes: seq<Outcome>, o: Outcome, policy: Policy)
    requires |outcomes| == |list|
    ensures Waiting(list + [x], t) == Waiting(list, t) + if Due(x, t) then [] else [x]
    ensures Added(list + [x], t, outcomes + [o], policy) == Added(list, t, outcomes, policy) +
      (if Due(x, t) && Again(x, t, o, policy).Some? then [Again(x, t, o, policy).value] else [])
  {
    if list == [] {
      assert list + [x] == [x] && outcomes + [o] == [o];
    } else {
      assert (list + [x])[1..] == list[1..] + [x] && (outcomes + [o])[1..] == outcomes[1..] + [o];
      TickSnoc(list[1..], x, t, outcomes[1..], o, policy);
      assert outcomes + [o] == [outcomes[0]] + (outcomes[1..] + [o]);
    }
  }

  lemma {:induction false} RunSnoc(list: seq<Info>, x: Info, t: int)
    ensures Run(list + [x], t) == Run(list, t) + if Due(x, t) then [x.func] else []
  {
    if list == [] {
      assert list + [x] == [x];
    } else {
      assert (list + [x])[1..] == list[1..] + [x];
      RunSnoc(list[1..], x, t);
    }
  }

  /** The positions of the due ones among the first `n` entries. */
  function DueAt(list: seq<Info>, t: int, n: nat): seq<nat>
    requires n <= |list|
  {
    if n == 0 then [] else DueAt(list, t, n - 1) + if Due(list[n - 1], t) then [n - 1] else []
  }

  /** They are exactly the due ones, each once and in order, and theirs are the closures run. */
  lemma {:induction false} DueAtExactly(list: seq<Info>, t: int, n: nat)
    requires n <= |list|
    ensures forall i, j :: 0 <= i < j < |DueAt(list, t, n)| ==> DueAt(list, t, n)[i] < DueAt(list, t, n)[j]
    ensures forall i: nat :: i in DueAt(list, t, n) <==> i < n && list[i].retryAfter < t
    ensures |Run(list[..n], t)| == |DueAt(list, t, n)|
    ensures forall j :: 0 <= j < |DueAt(list, t, n)| ==>
      DueAt(list, t, n)[j] < n && list[DueAt(list, t, n)[j]].func == Run(list[..n], t)[j]
  {
    if n > 0 {
      DueAtExactly(list, t, n - 1);
      assert list[..n] == list[..n - 1] + [list[n - 1]];
      RunSnoc(list[..n - 1], list[n - 1], t);
    }
  }

  /** The positions of those that are not due. */
  function StaysAt(list: seq<Info>, t: int, n: nat): seq<nat>
    requires n <= |list|
  {
    if n == 0 then [] else StaysAt(list, t, n - 1) + if list[n - 1].retryAfter < t then [] else [n - 1]
  }

  /** What stays is exactly those entries, unchanged and in order. */
  lemma {:induction false} WaitingExactly(list: seq<Info>, t: int, n: nat)
    requires n <= |list|
    ensures var at, waiting := StaysAt(list, t, n), Waiting(list[..n], t);
      && |waiting| == |at| && (forall j :: 0 <= j < |at| ==> at[j] < n && waiting[j] == list[at[j]])
      && (forall i, j :: 0 <= i < j < |at| ==> at[i] < at[j])
      && (forall i: nat :: i in at <==> i < n && t <= list[i].retryAfter)
  {
    if n > 0 {
      WaitingExactly(list, t, n - 1);
      assert list[..n] == list[..n - 1] + [list[n - 1]];
      WaitingSnoc(list[..n - 1], list[n - 1], t);
    }
  }

  /** The delay after which an entry that was run is to be run again, if it is: the explicit one, else the policy's for the next attempt. */
  function Delay(info: Info, o: Outcome, policy: Policy): Option<int> {
    if o.requeue.Some? then o.requeue
    else if o.err.Some? && policy.Some? then policy.value(o.err.value, info.attempt + 1)
    else None
  }

  /** The positions of the due ones that are to be run again. */
  function BackAt(list: seq<Info>, t: int, outcomes: seq<Outcome>, policy: Policy, n: nat): seq<nat>
    requires n <= |list| == |outcomes|
  {
    if n == 0 then []
    else
      BackAt(list, t, outcomes, policy, n - 1)
      + if list[n - 1].retryAfter < t && Delay(list[n - 1], outcomes[n - 1], policy).Some? then [n - 1] else []
  }

  /** `x` is the entry again: due its delay after the tick, one attempt later unless the delay was explicit, without its error. */
  predicate ComesBack(info: Info, t: int, o: Outcome, policy: Policy, x: Info) {
    && x.func == info.func && x.action == info.action && x.generation == info.generation && x.err.None?
    && x.attempt == info.attempt + (if o.requeue.Some? then 0 else 1)
    && Delay(info, o, policy) == Some(x.retryAfter - t)
  }

  lemma AgainComesBack(info: Info, t: int, o: Outcome, policy: Policy)
    ensures var again := Again(info, t, o, policy);
      (again.Some? <==> Delay(info, o, policy).Some?) && (again.Some? ==> ComesBack(info, t, o, policy, again.value))
  {
  }

  /** What is collected is exactly those entries again, in order. */
  lemma {:induction false} AddedExactly(list: seq<Info>, t: int, outcomes: seq<Outcome>, policy: Policy, n: nat)
    requires n <= |list| == |outcomes|
    ensures |Added(list[..n], t, outcomes[..n], policy)| == |BackAt(list, t, outcomes, policy, n)|
    ensures var at, added := BackAt(list, t, outcomes, policy, n), Added(list[..n], t, outcomes[..n], policy);
      forall j :: 0 <= j < |at| ==> at[j] < n && ComesBack(list[at[j]], t, outcomes[at[j]], policy, added[j])
  {
    if n > 0 {
      AddedExactly(list, t, outcomes, policy, n - 1);
      var info, o := list[n - 1], outcomes[n - 1];
      assert list[..n] == list[..n - 1] + [info] && outcomes[..n] == outcomes[..n - 1] + [o];
      TickSnoc(list[..n - 1], info, t, outcomes[..n - 1], o, policy);
      AgainComesBack(info, t, o, policy);
    }
  }

  lemma {:induction false} BackAtExactly(list: seq<Info>, t: int, outcomes: seq<Outcome>, policy: Policy, n: nat)
    requires n <= |list| == |outcomes|
    ensures forall i: nat :: i in BackAt(list, t, outcomes, policy, n) <==>
      i < n && list[i].retryAfter < t && Delay(list[i], outcomes[i], policy).Some?
  {
    if n > 0 {
      BackAtExactly(list, t, outcomes, policy, n - 1);
    }
  }

  lemma {:induction false} BackAtInOrder(list: seq<Info>, t: int, outcomes: seq<Outcome>, policy: Policy, n: nat)
    requires n <= |list| == |outcomes|
    ensures Increasing(BackAt(list, t, outcomes, policy, n))
  {
    if n > 0 {
      var at := BackAt(list, t, outcomes, policy, n - 1);
      BackAtInOrder(list, t, outcomes, policy, n - 1);
      BackAtExactly(list, t, outcomes, policy, n - 1);
      assert forall i :: 0 <= i < |at| ==> at[i] in at;
    }
  }

  predicate Increasing(at: seq<nat>) {
    forall i, j :: 0 <= i < j < |at| ==> at[i] < at[j]
  }

  lemma WaitingSnoc(list: seq<Info>, x: Info, t: int)
    ensures Waiting(list + [x], t) == Waiting(list, t) + if Due(x, t) then [] else [x]
  {
    var outcomes := seq(|list|, i => Outcome(None, None));
    TickSnoc(list, x, t, outcomes, Outcome(None, None), None);
  }

  /**
    One key at one tick, while its list is locked: every due entry is run once and leaves, the
    rest stay in order, and what is to be retried is collected, to be added when the lock is free.
   */
  method Tick(list: seq<Info>, t: int, outcomes: seq<Outcome>, policy: Policy)
    returns (kept: seq<Info>, toAdd: seq<Info>, ran: seq<nat>)
    requires |outcomes| == |list|
    ensures kept == Waiting(list, t) && toAdd == Added(list, t, outcomes, policy)
    ensures ran == DueAt(list, t, |list|)
  {
    kept, toAdd, ran := [], [], [];
    for i := 0 to |list|
      invariant kept == Waiting(list[..i], t) && toAdd == Added(list[..i], t, outcomes[..i], policy)
      invariant ran == DueAt(list, t, i)
    {
      assert list[..i + 1] == list[..i] + [list[i]] && outcomes[..i + 1] == outcomes[..i] + [outcomes[i]];
      TickSnoc(list[..i], list[i], t, outcomes[..i], outcomes[i], policy);
      var val := list[i];
      if t > val.retryAfter {
        ran := ran + [i];
        var specified, err := outcomes[i].requeue, outcomes[i].err;
        if specified.Some? {
          toAdd := toAdd + [val.(retryAfter := t + specified.value, err := None)];
        } else if err.Some? && policy.Some? {
          var ok := policy.value(err.value, val.attempt + 1);
          if ok.Some? {
            toAdd := toAdd + [val.(attempt := val.attempt + 1, retryAfter := t + ok.value, err := None)];
          }
        }
      } else {
        kept := kept + [val];
      }
    }
    assert list[..|list|] == list && outcomes[..|outcomes|] == outcomes;
  }

  // ---- runs of one key ----

  /**
    What happens to a key's list, one locked region at a time: a failure is queued with a new
    closure, an event dequeues, the ticker ticks, and then adds what it collected one by one.
   */
  datatype Event =
    | Queued(info: Info)
    | Dequeued(matches: Info -> bool)
    | Ticked(t: int, outcomes: seq<Outcome>)
    | AddedAgain

  /** `adding` is what the ticker has collected and not added yet; `ran` are the closures run so far, in order; `queued` counts the closures made. */
  datatype State = State(list: seq<Info>, adding: seq<Info>, queued: nat, ran: seq<nat>)

  predicate Possible(s: State, e: Event) {
    match e
    case Queued(info) => info.attempt == 0 && info.func == s.queued
    case Dequeued(_) => true
    case Ticked(_, outcomes) => s.adding == [] && |outcomes| == |s.list|
    case AddedAgain => s.adding != []
  }

  function Next(s: State, e: Event, policy: Policy): State
    requires Possible(s, e)
  {
    match e
    case Queued(info) => s.(list := s.list + [info], queued := s.queued + 1)
    case Dequeued(matches) => s.(list := DropFirst(s.list, matches, |s.list|))
    case Ticked(t, outcomes) =>
      s.(list := Waiting(s.list, t), adding := Added(s.list, t, outcomes, policy), ran := s.ran + Run(s.list, t))
    case AddedAgain => s.(list := s.list + [s.adding[0]], adding := s.adding[1..])
  }

  /** The closures `of` picks ask for no explicit delay at this event. */
  predicate Quiet(s: State, e: Event, of: nat -> bool)
    requires Possible(s, e)
  {
    e.Ticked? ==> forall i :: 0 <= i < |s.list| && of(s.list[i].func) ==> e.outcomes[i].requeue.None?
  }

  /** A run from `s` to `end` on which the picked closures stay quiet. */
  ghost predicate Leads(s: State, events: seq<Event>, policy: Policy, of: nat -> bool, end: State)
    decreases |events|
  {
    if events == [] then s == end
    else Possible(s, events[0]) && Quiet(s, events[0], of) && Leads(Next(s, events[0], policy), events[1..], policy, of, end)
  }

  // ---- bounded backoff ----

  /** How many more runs the picked entries of a list may still have. */
  function Left(list: seq<Info>, maxAttempts: nat, of: nat -> bool): int {
    if list == [] then 0
    else (if of(list[0].func) then maxAttempts + 1 - list[0].attempt else 0) + Left(list[1..], maxAttempts, of)
  }

  function Count(ran: seq<nat>, of: nat -> bool): nat {
    if ran == [] then 0 else (if of(ran[0]) then 1 else 0) + Count(ran[1..], of)
  }

  ghost predicate Within(list: seq<Info>, maxAttempts: nat, of: nat -> bool) {
    forall i :: 0 <= i < |list| && of(list[i].func) ==> list[i].attempt <= maxAttempts
  }

  lemma {:induction false} LeftAppend(a: seq<Info>, b: seq<Info>, maxAttempts: nat, of: nat -> bool)
    ensures Left(a + b, maxAttempts, of) == Left(a, maxAttempts, of) + Left(b, maxAttempts, of)
  {
    if a == [] {
      assert a + b == b;
    } else {
      assert (a + b)[1..] == a[1..] + b;
      LeftAppend(a[1..], b, maxAttempts, of);
    }
  }

  lemma {:induction false} CountAppend(a: seq<nat>, b: seq<nat>, of: nat -> bool)
    ensures Count(a + b, of) == Count(a, of) + Count(b, of)
  {
    if a == [] {
      assert a + b == b;
    } else {
      assert (a + b)[1..] == a[1..] + b;
      CountAppend(a[1..], b, of);
    }
  }

  /** Every picked entry has at least one run left. */
  lemma {:induction false} LeftAtLeast(list: seq<Info>, maxAttempts: nat, of: nat -> bool)
    requires Within(list, maxAttempts, of)
    ensures Left(list, maxAttempts, of) >= 0
    ensures (forall f: nat :: of(f)) ==> Left(list, maxAttempts, of) >= |list|
  {
    if list != [] {
      LeftAtLeast(list[1..], maxAttempts, of);
    }
  }

  lemma {:induction false} DropPays(list: seq<Info>, matches: Info -> bool, limit: nat, maxAttempts: nat, of: nat -> bool)
    requires Within(list, maxAttempts, of)
    ensures var r := DropFirst(list, matches, limit);
      Within(r, maxAttempts, of) && Left(r, maxAttempts, of) <= Left(list, maxAttempts, of)
  {
    if list != [] {
      DropPays(list[1..], matches, if limit > 0 && matches(list[0]) then limit - 1 else limit, maxAttempts, of);
    }
  }

  /** Each run of a picked closure uses up one of what is left to it. */
  lemma {:induction false} TickPays(list: seq<Info>, t: int, outcomes: seq<Outcome>, maxAttempts: nat, delay: int -> int, of: nat -> bool)
    requires Within(list, maxAttempts, of) && |outcomes| == |list|
    requires forall i :: 0 <= i < |list| && of(list[i].func) ==> outcomes[i].requeue.None?
    ensures var waiting, added := Waiting(list, t), Added(list, t, outcomes, Backoff(maxAttempts, delay));
      && Within(waiting, maxAttempts, of) && Within(added, maxAttempts, of)
      && Left(waiting, maxAttempts, of) + Left(added, maxAttempts, of) + Count(Run(list, t), of) <= Left(list, maxAttempts, of)
  {
    if list != [] {
      TickPays(list[1..], t, outcomes[1..], maxAttempts, delay, of);
      var waiting, added := Waiting(list[1..], t), Added(list[1..], t, outcomes[1..], Backoff(maxAttempts, delay));
      var again := Again(list[0], t, outcomes[0], Backoff(maxAttempts, delay));
      assert ([list[0]] + waiting)[1..] == waiting;
      assert again.Some? ==> ([again.value] + added)[1..] == added;
      assert ([list[0].func] + Run(list[1..], t))[1..] == Run(list[1..], t);
    }
  }

  ghost predicate Paid(s: State, maxAttempts: nat, of: nat -> bool) {
    && Within(s.list, maxAttempts, of) && Within(s.adding, maxAttempts, of)
    && Count(s.ran, of) + Left(s.list, maxAttempts, of) + Left(s.adding, maxAttempts, of) <= Budget(maxAttempts, of, s.queued)
  }

  lemma NextPaid(s: State, e: Event, maxAttempts: nat, delay: int -> int, of: nat -> bool)
    requires Paid(s, maxAttempts, of) && Possible(s, e) && Quiet(s, e, of)
    ensures Paid(Next(s, e, Backoff(maxAttempts, delay)), maxAttempts, of)
  {
    match e
    case Queued(info) => LeftAppend(s.list, [info], maxAttempts, of);
    case Dequeued(matches) => DropPays(s.list, matches, |s.list|, maxAttempts, of);
    case Ticked(t, outcomes) =>
      TickPays(s.list, t, outcomes, maxAttempts, delay, of);
      CountAppend(s.ran, Run(s.list, t), of);
    case AddedAgain =>
      LeftAppend(s.list, [s.adding[0]], maxAttempts, of);
  }

  lemma {:induction false} LeadsPaid(s: State, events: seq<Event>, maxAttempts: nat, delay: int -> int, of: nat -> bool, end: State)
    requires Paid(s, maxAttempts, of) && Leads(s, events, Backoff(maxAttempts, delay), of, end)
    ensures Paid(end, maxAttempts, of)
    decreases |events|
  {
    if events != [] {
      NextPaid(s, events[0], maxAttempts, delay, of);
      LeadsPaid(Next(s, events[0], Backoff(maxAttempts, delay)), events[1..], maxAttempts, delay, of, end);
    }
  }

  lemma {:induction false} CountOfAll(ran: seq<nat>)
    ensures Count(ran, g => true) == |ran|
  {
    if ran != [] {
      CountOfAll(ran[1..]);
    }
  }

  lemma {:induction false} CountOfOne(ran: seq<nat>, f: nat)
    ensures Count(ran, g => g == f) == multiset(ran)[f]
  {
    if ran != [] {
      CountOfOne(ran[1..], f);
      assert ran == [ran[0]] + ran[1..];
    }
  }

  /**
    Main theorem. On the legacy path too, with exponential backoff each queued failure
    that asks for no explicit delay is run at most maxAttempts + 1 times, however the others fare.
   */
  lemma EachRunAtMost(events: seq<Event>, maxAttempts: nat, delay: int -> int, f: nat, end: State)
    requires Leads(State([], [], 0, []), events, Backoff(maxAttempts, delay), g => g == f, end)
    ensures multiset(end.ran)[f] <= if f < end.queued then maxAttempts + 1 else 0
  {
    LeadsPaid(State([], [], 0, []), events, maxAttempts, delay, g => g == f, end);
    LeftAtLeast(end.list, maxAttempts, g => g == f);
    LeftAtLeast(end.adding, maxAttempts, g => g == f);
    BudgetOfOne(maxAttempts, f, end.queued);
    CountOfOne(end.ran, f);
  }

  /** All failures together: the runs made plus the retries still queued or about to be. */
  lemma RunsBounded(events: seq<Event>, maxAttempts: nat, delay: int -> int, end: State)
    requires Leads(State([], [], 0, []), events, Backoff(maxAttempts, delay), g => true, end)
    ensures |end.ran| + |end.list| + |end.adding| <= (maxAttempts + 1) * end.queued
  {
    LeadsPaid(State([], [], 0, []), events, maxAttempts, delay, g => true, end);
    LeftAtLeast(end.list, maxAttempts, g => true);
    LeftAtLeast(end.adding, maxAttempts, g => true);
    BudgetOfAll(maxAttempts, end.queued);
    CountOfAll(end.ran);
  }

  // ---- and no failure gets less than its budget ----

  /** At this event the picked closures fail whenever they are run, and no entry of theirs is dequeued. */
  ghost predicate Spares(s: State, e: Event, of: nat -> bool)
    requires Possible(s, e)
  {
    match e
    case Ticked(_, outcomes) =>
      forall i :: 0 <= i < |s.list| && of(s.list[i].func) ==> outcomes[i].requeue.None? && outcomes[i].err.Some?
    case Dequeued(matches) => forall x :: x in s.list && of(x.func) ==> !matches(x)
    case _ => true
  }

  ghost predicate LeadsSparing(s: State, events: seq<Event>, policy: Policy, of: nat -> bool, end: State)
    decreases |events|
  {
    if events == [] then s == end
    else Possible(s, events[0]) && Spares(s, events[0], of) && LeadsSparing(Next(s, events[0], policy), events[1..], policy, of, end)
  }

  lemma {:induction false} TickOwes(list: seq<Info>, t: int, outcomes: seq<Outcome>, maxAttempts: nat, delay: int -> int, of: nat -> bool)
    requires Within(list, maxAttempts, of) && |outcomes| == |list|
    requires forall i :: 0 <= i < |list| && of(list[i].func) ==> outcomes[i].requeue.None? && outcomes[i].err.Some?
    ensures var waiting, added := Waiting(list, t), Added(list, t, outcomes, Backoff(maxAttempts, delay));
      Left(waiting, maxAttempts, of) + Left(added, maxAttempts, of) + Count(Run(list, t), of) >= Left(list, maxAttempts, of)
  {
    if list != [] {
      TickOwes(list[1..], t, outcomes[1..], maxAttempts, delay, of);
      var waiting, added := Waiting(list[1..], t), Added(list[1..], t, outcomes[1..], Backoff(maxAttempts, delay));
      var again := Again(list[0], t, outcomes[0], Backoff(maxAttempts, delay));
      assert ([list[0]] + waiting)[1..] == waiting;
      assert again.Some? ==> ([again.value] + added)[1..] == added;
      assert ([list[0].func] + Run(list[1..], t))[1..] == Run(list[1..], t);
    }
  }

  lemma {:induction false} DropSpares(list: seq<Info>, matches: Info -> bool, limit: nat, maxAttempts: nat, of: nat -> bool)
    requires forall x :: x in list && of(x.func) ==> !matches(x)
    ensures Left(DropFirst(list, matches, limit), maxAttempts, of) == Left(list, maxAttempts, of)
  {
    if list != [] {
      DropSpares(list[1..], matches, if limit > 0 && matches(list[0]) then limit - 1 else limit, maxAttempts, of);
      assert list[0] in list;
      var rest := DropFirst(list[1..], matches, limit);
      assert ([list[0]] + rest)[1..] == rest;
    }
  }

  /** Runs made and runs left are what was queued is worth. */
  ghost predicate Even(s: State, maxAttempts: nat, of: nat -> bool) {
    Paid(s, maxAttempts, of)
    && Count(s.ran, of) + Left(s.list, maxAttempts, of) + Left(s.adding, maxAttempts, of) >= Budget(maxAttempts, of, s.queued)
  }

  lemma NextEven(s: State, e: Event, maxAttempts: nat, delay: int -> int, of: nat -> bool)
    requires Even(s, maxAttempts, of) && Possible(s, e) && Spares(s, e, of)
    ensures Even(Next(s, e, Backoff(maxAttempts, delay)), maxAttempts, of)
  {
    NextPaid(s, e, maxAttempts, delay, of);
    match e
    case Queued(info) => LeftAppend(s.list, [info], maxAttempts, of);
    case Dequeued(matches) => DropSpares(s.list, matches, |s.list|, maxAttempts, of);
    case Ticked(t, outcomes) =>
      TickOwes(s.list, t, outcomes, maxAttempts, delay, of);
      CountAppend(s.ran, Run(s.list, t), of);
    case AddedAgain => LeftAppend(s.list, [s.adding[0]], maxAttempts, of);
  }

  lemma {:induction false} LeadsEven(s: State, events: seq<Event>, maxAttempts: nat, delay: int -> int, of: nat -> bool, end: State)
    requires Even(s, maxAttempts, of) && LeadsSparing(s, events, Backoff(maxAttempts, delay), of, end)
    ensures Even(end, maxAttempts, of)
    decreases |events|
  {
    if events != [] {
      NextEven(s, events[0], maxAttempts, delay, of);
      LeadsEven(Next(s, events[0], Backoff(maxAttempts, delay)), events[1..], maxAttempts, delay, of, end);
    }
  }

  lemma {:induction false} NoneLeft(list: seq<Info>, maxAttempts: nat, of: nat -> bool)
    requires forall x :: x in list ==> !of(x.func)
    ensures Left(list, maxAttempts, of) == 0
  {
    if list != [] {
      assert list[0] in list;
      NoneLeft(list[1..], maxAttempts, of);
    }
  }

  /**
    Main theorem, exact: a failure that fails every time, and that nobody dequeues, is run exactly
    maxAttempts + 1 times once no entry for it is left.
   */
  lemma RunExactly(events: seq<Event>, maxAttempts: nat, delay: int -> int, f: nat, end: State)
    requires LeadsSparing(State([], [], 0, []), events, Backoff(maxAttempts, delay), g => g == f, end)
    requires f < end.queued && forall x :: x in end.list || x in end.adding ==> x.func != f
    ensures multiset(end.ran)[f] == maxAttempts + 1
  {
    LeadsEven(State([], [], 0, []), events, maxAttempts, delay, g => g == f, end);
    NoneLeft(end.list, maxAttempts, g => g == f);
    NoneLeft(end.adding, maxAttempts, g => g == f);
    BudgetOfOne(maxAttempts, f, end.queued);
    CountOfOne(end.ran, f);
  }

  /** A dequeue leaves no entry it matches in the list; what the ticker holds at that moment escapes it. */
  lemma {:induction false} DequeuedGone(list: seq<Info>, matches: Info -> bool, limit: nat, x: Info)
    requires |list| <= limit && x in DropFirst(list, matches, limit)
    ensures x in list && !matches(x)
  {
    if x != list[0] || matches(list[0]) {
      DequeuedGone(list[1..], matches, if matches(list[0]) then limit - 1 else limit, x);
    }
  }

  lemma DequeueTakesAll(s: State, matches: Info -> bool, policy: Policy, x: Info)
    requires x in Next(s, Dequeued(matches), policy).list
    ensures x in s.list && !matches(x)
  {
    DequeuedGone(s.list, matches, |s.list|, x);
  }

  // ---- nothing runs before it is due ----

  function Carriers(list: seq<Info>, f: nat): nat {
    if list == [] then 0 else (if list[0].func == f then 1 else 0) + Carriers(list[1..], f)
  }

  lemma {:induction false} CarriersAppend(a: seq<Info>, b: seq<Info>, f: nat)
    ensures Carriers(a + b, f) == Carriers(a, f) + Carriers(b, f)
  {
    if a == [] {
      assert a + b == b;
    } else {
      assert (a + b)[1..] == a[1..] + b;
      CarriersAppend(a[1..], b, f);
    }
  }

  lemma {:induction false} CarriersDropped(list: seq<Info>, matches: Info -> bool, limit: nat, f: nat)
    ensures Carriers(DropFirst(list, matches, limit), f) <= Carriers(list, f)
  {
    if list != [] {
      CarriersDropped(list[1..], matches, if limit > 0 && matches(list[0]) then limit - 1 else limit, f);
    }
  }

  lemma {:induction false} CarriersTicked(list: seq<Info>, t: int, outcomes: seq<Outcome>, policy: Policy, f: nat)
    requires |outcomes| == |list|
    ensures Carriers(Waiting(list, t), f) + Carriers(Added(list, t, outcomes, policy), f) <= Carriers(list, f)
  {
    if list != [] {
      CarriersTicked(list[1..], t, outcomes[1..], policy, f);
      var waiting, added := Waiting(list[1..], t), Added(list[1..], t, outcomes[1..], policy);
      var again := Again(list[0], t, outcomes[0], policy);
      assert ([list[0]] + waiting)[1..] == waiting;
      assert again.Some? ==> ([again.value] + added)[1..] == added;
    }
  }

  /** Each closure is carried at most once, and only if it has been queued. */
  ghost predicate Once(s: State) {
    forall f: nat :: Carriers(s.list, f) + Carriers(s.adding, f) <= if f < s.queued then 1 else 0
  }

  lemma NextKeepsOnce(s: State, e: Event, policy: Policy)
    requires Once(s) && Possible(s, e)
    ensures Once(Next(s, e, policy))
  {
    var s' := Next(s, e, policy);
    forall f: nat ensures Carriers(s'.list, f) + Carriers(s'.adding, f) <= if f < s'.queued then 1 else 0 {
      match e
      case Queued(info) => CarriersAppend(s.list, [info], f);
      case Dequeued(matches) => CarriersDropped(s.list, matches, |s.list|, f);
      case Ticked(t, outcomes) => CarriersTicked(s.list, t, outcomes, policy, f);
      case AddedAgain => CarriersAppend(s.list, [s.adding[0]], f);
    }
  }

  /** A run from `s` to `end` that never runs closure `f`. */
  ghost predicate LeadsWithout(s: State, events: seq<Event>, policy: Policy, f: nat, end: State)
    decreases |events|
  {
    if events == [] then s == end
    else
      && Possible(s, events[0]) && (events[0].Ticked? ==> f !in Run(s.list, events[0].t))
      && LeadsWithout(Next(s, events[0], policy), events[1..], policy, f, end)
  }

  /** Whatever carries closure `f` is `c`. */
  ghost predicate OnlyAs(s: State, f: nat, c: Info) {
    f < s.queued && forall x :: (x in s.list || x in s.adding) && x.func == f ==> x == c
  }

  lemma {:induction false} DroppedFrom(list: seq<Info>, matches: Info -> bool, limit: nat, x: Info)
    requires x in DropFirst(list, matches, limit)
    ensures x in list
  {
    if x !in list[..1] {
      DroppedFrom(list[1..], matches, if limit > 0 && matches(list[0]) then limit - 1 else limit, x);
    }
  }

  /** What a tick leaves comes from the list, and what it collects from what it ran. */
  lemma {:induction false} TickedFrom(list: seq<Info>, t: int, outcomes: seq<Outcome>, policy: Policy, x: Info)
    requires |outcomes| == |list|
    ensures x in Waiting(list, t) ==> x in list
    ensures x in Added(list, t, outcomes, policy) ==>
      x.func in Run(list, t) && exists i :: 0 <= i < |list| && list[i].func == x.func && ComesBack(list[i], t, outcomes[i], policy, x)
  {
    if list != [] {
      TickedFrom(list[1..], t, outcomes[1..], policy, x);
      if x in Added(list[1..], t, outcomes[1..], policy) {
        var i :| 0 <= i < |list[1..]| && list[1..][i].func == x.func && ComesBack(list[1..][i], t, outcomes[1..][i], policy, x);
        assert list[i + 1].func == x.func && ComesBack(list[i + 1], t, outcomes[i + 1], policy, x);
      } else if x in Added(list, t, outcomes, policy) {
        assert Again(list[0], t, outcomes[0], policy) == Some(x);
        assert ComesBack(list[0], t, outcomes[0], policy, x);
      }
    }
  }

  lemma NextKeepsOnlyAs(s: State, e: Event, policy: Policy, f: nat, c: Info)
    requires OnlyAs(s, f, c) && Possible(s, e) && (e.Ticked? ==> f !in Run(s.list, e.t))
    ensures OnlyAs(Next(s, e, policy), f, c)
  {
    var s' := Next(s, e, policy);
    forall x | (x in s'.list || x in s'.adding) && x.func == f ensures x == c {
      match e
      case Queued(info) =>
      case Dequeued(matches) =>
        if x in s'.list {
          DroppedFrom(s.list, matches, |s.list|, x);
        }
      case Ticked(t, outcomes) => TickedFrom(s.list, t, outcomes, policy, x);
      case AddedAgain =>
    }
  }

  lemma {:induction false} LeadsOnlyAs(s: State, events: seq<Event>, policy: Policy, f: nat, c: Info, end: State)
    requires OnlyAs(s, f, c) && LeadsWithout(s, events, policy, f, end)
    ensures OnlyAs(end, f, c)
    decreases |events|
  {
    if events != [] {
      NextKeepsOnlyAs(s, events[0], policy, f, c);
      LeadsOnlyAs(Next(s, events[0], policy), events[1..], policy, f, c, end);
    }
  }

  /** A closure carried once is at one position. */
  lemma {:induction false} CarriedOnce(list: seq<Info>, f: nat, i: nat, j: nat)
    requires i < |list| && j < |list| && list[i].func == f == list[j].func && Carriers(list, f) <= 1
    ensures i == j
  {
    if i == 0 || j == 0 {
      if i != j {
        CarrierCounts(list[1..], f, (if i == 0 then j else i) - 1);
      }
    } else {
      CarriedOnce(list[1..], f, i - 1, j - 1);
    }
  }

  lemma {:induction false} CarrierCounts(list: seq<Info>, f: nat, i: nat)
    requires i < |list| && list[i].func == f
    ensures Carriers(list, f) >= 1
  {
    if i > 0 {
      CarrierCounts(list[1..], f, i - 1);
    }
  }

  lemma {:induction false} RunCarries(list: seq<Info>, t: int, f: nat)
    requires f in Run(list, t)
    ensures exists i :: 0 <= i < |list| && list[i].func == f && list[i].retryAfter < t
  {
    if Due(list[0], t) && list[0].func == f {
      assert list[0].func == f;
    } else {
      RunCarries(list[1..], t, f);
      var i :| 0 <= i < |list[1..]| && list[1..][i].func == f && list[1..][i].retryAfter < t;
      assert list[i + 1].func == f;
    }
  }

  lemma {:induction false} LeadsOnce(s: State, events: seq<Event>, policy: Policy, of: nat -> bool, end: State)
    requires Once(s) && Leads(s, events, policy, of, end)
    ensures Once(end)
    decreases |events|
  {
    if events != [] {
      NextKeepsOnce(s, events[0], policy);
      LeadsOnce(Next(s, events[0], policy), events[1..], policy, of, end);
    }
  }

  /**
    Main theorem. The entry at position `i` is run at tick `t` and asks for delay `d`, or the policy
    does for it. Whatever happens in between, the next tick that runs its closure comes after `t` + `d`.
   */
  lemma NotBeforeDue(before: seq<Event>, s: State, t: int, outcomes: seq<Outcome>, i: nat, between: seq<Event>, end: State, t': int, policy: Policy)
    requires Leads(State([], [], 0, []), before, policy, g => false, s) && Possible(s, Ticked(t, outcomes))
    requires i < |s.list| && s.list[i].retryAfter < t && Delay(s.list[i], outcomes[i], policy).Some?
    requires LeadsWithout(Next(s, Ticked(t, outcomes), policy), between, policy, s.list[i].func, end)
    requires s.list[i].func in Run(end.list, t')
    ensures t + Delay(s.list[i], outcomes[i], policy).value < t'
  {
    var f, s' := s.list[i].func, Next(s, Ticked(t, outcomes), policy);
    LeadsOnce(State([], [], 0, []), before, policy, g => false, s);
    CarrierCounts(s.list, f, i);
    var c := Again(s.list[i], t, outcomes[i], policy).value;
    forall x | (x in s'.list || x in s'.adding) && x.func == f ensures x == c {
      if x in s'.list {
        WaitingExactly(s.list, t, |s.list|);
        assert s.list[..|s.list|] == s.list;
        var j :| 0 <= j < |s'.list| && s'.list[j] == x;
        var p := StaysAt(s.list, t, |s.list|)[j];
        assert p in StaysAt(s.list, t, |s.list|);
        CarriedOnce(s.list, f, i, p);
      } else {
        TickedFrom(s.list, t, outcomes, policy, x);
        var j :| 0 <= j < |s.list| && s.list[j].func == x.func && ComesBack(s.list[j], t, outcomes[j], policy, x);
        CarriedOnce(s.list, f, i, j);
      }
    }
    LeadsOnlyAs(s', between, policy, f, c, end);
    RunCarries(end.list, t', f);
  }
}
