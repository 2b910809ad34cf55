/** MultiRunner.Run: a group of goroutines, a wait group, and an error channel closed under a mutex. */
module MultiRunner {
  import opened Common

  /**
    Where a runner's goroutine is. Its error, when it has one, is identified by its index.
    `Sending` has the mutex and has seen that the channel is not marked closed.
   */
  datatype Runner =
    | Running
    | Returned(failed: bool)
    | Past(failed: bool)
    | Wanting
    | Locked
    | Sending
    | Sent
    | Finished(reported: bool)

  /** What Run returns: nil, an error, the exit timeout, or the timeout joined with an error. */
  datatype Result = NoError | Failed(err: nat) | TimedOut(joined: Option<nat>)

  /** Where the deferred function is: at the mutex, marking, closing, unlocking, over. */
  datatype Stage = AtMutex | Marking | Closing | Unlocking | Over

  /** Where Run itself is. */
  datatype Main =
    | Selecting
    | Handling(err: nat)
    | Waiting(cause: Option<nat>)
    | Leaving(result: Result, stage: Stage)

  datatype Mutex = Free | ByRunner(i: nat) | ByMain

  datatype State = State(runners: seq<Runner>, main: Main, mutex: Mutex, buf: seq<nat>, received: nat,
                         errsClosed: bool, channelClosed: bool, timedOut: bool, cancelled: bool)

  datatype Step =
    | RunReturns(i: nat, failed: bool)
    | WgDone(i: nat)
    | CheckTimedOut(i: nat)
    | RunnerLock(i: nat)
    | CheckClosed(i: nat)
    | Send(i: nat)
    | RunnerUnlock(i: nat)
    | Receive
    | HandlerSays(stop: bool)
    | ContextDone
    | WaitOver
    | ExitTimeout
    | MainLock
    | Mark
    | Close
    | MainUnlock

  predicate At(s: State, i: nat, r: Runner) {
    i < |s.runners| && s.runners[i] == r
  }

  /** The runner's wg.Done has happened. */
  predicate IsPast(r: Runner) {
    !r.Running? && !r.Returned?
  }

  /** `exitWait` says whether MultiRunner.ExitWait is set. A send needs room in the buffer, whose size is the number of runners. */
  predicate Enabled(exitWait: bool, s: State, step: Step) {
    match step
    case RunReturns(i, _) => At(s, i, Running)
    case WgDone(i) => i < |s.runners| && s.runners[i].Returned?
    case CheckTimedOut(i) => i < |s.runners| && s.runners[i].Past?
    case RunnerLock(i) => At(s, i, Wanting) && s.mutex.Free?
    case CheckClosed(i) => At(s, i, Locked)
    case Send(i) => At(s, i, Sending) && |s.buf| < |s.runners|
    case RunnerUnlock(i) => At(s, i, Sent)
    case Receive => s.main.Selecting? && s.buf != []
    case HandlerSays(_) => s.main.Handling?
    case ContextDone => s.main.Selecting?
    case WaitOver => s.main.Waiting? && forall i :: 0 <= i < |s.runners| ==> IsPast(s.runners[i])
    case ExitTimeout => s.main.Waiting? && exitWait
    case MainLock => s.main.Leaving? && s.main.stage.AtMutex? && s.mutex.Free?
    case Mark => s.main.Leaving? && s.main.stage.Marking?
    case Close => s.main.Leaving? && s.main.stage.Closing?
    case MainUnlock => s.main.Leaving? && s.main.stage.Unlocking?
  }

  function Next(exitWait: bool, s: State, step: Step): State
    requires Enabled(exitWait, s, step)
  {
    match step
    case RunReturns(i, failed) => s.(runners := s.runners[i := Returned(failed)])
    case WgDone(i) => s.(runners := s.runners[i := Past(s.runners[i].failed)])
    case CheckTimedOut(i) =>
      s.(runners := s.runners[i := if s.runners[i].failed && !s.timedOut then Wanting else Finished(false)])
    case RunnerLock(i) => s.(runners := s.runners[i := Locked], mutex := ByRunner(i))
    case CheckClosed(i) =>
      if s.errsClosed then s.(runners := s.runners[i := Finished(false)], mutex := Free)
      else s.(runners := s.runners[i := Sending])
    case Send(i) => s.(runners := s.runners[i := Sent], buf := s.buf + [i])
    case RunnerUnlock(i) => s.(runners := s.runners[i := Finished(true)], mutex := Free)
    case Receive => s.(main := Handling(s.buf[0]), buf := s.buf[1..], received := s.received + 1)
    case HandlerSays(stop) =>
      if stop then s.(main := Waiting(Some(s.main.err)), cancelled := true) else s.(main := Selecting)
    case ContextDone => s.(main := Waiting(None), cancelled := true)
    case WaitOver => s.(main := Leaving(if s.main.cause.Some? then Failed(s.main.cause.value) else NoError, AtMutex))
    case ExitTimeout => s.(main := Leaving(TimedOut(s.main.cause), AtMutex), timedOut := true)
    case MainLock => s.(main := Leaving(s.main.result, Marking), mutex := ByMain)
    case Mark => s.(main := Leaving(s.main.result, Closing), errsClosed := true)
    case Close => s.(main := Leaving(s.main.result, Unlocking), channelClosed := true)
    case MainUnlock => s.(main := Leaving(s.main.result, Over), mutex := Free)
  }

  ghost predicate Initial(s: State) {
    && (forall i :: 0 <= i < |s.runners| ==> s.runners[i] == Running)
    && s == State(s.runners, Selecting, Free, [], 0, false, false, false, false)
  }

  ghost predicate IsRun(exitWait: bool, states: seq<State>, steps: seq<Step>) {
    && |states| == |steps| + 1 && Initial(states[0])
    && forall k {:trigger steps[k]} :: 0 <= k < |steps| ==>
         Enabled(exitWait, states[k], steps[k]) && states[k + 1] == Next(exitWait, states[k], steps[k])
  }

  // ---- counting the errors sent ----

  predicate HasSent(r: Runner) {
    r.Sent? || (r.Finished? && r.reported)
  }

  function CountSent(rs: seq<Runner>): (n: nat)
    ensures n <= |rs|
  {
    if rs == [] then 0 else (if HasSent(rs[0]) then 1 else 0) + CountSent(rs[1..])
  }

  lemma {:induction false} CountUpdate(rs: seq<Runner>, i: nat, r: Runner)
    requires i < |rs|
    ensures CountSent(rs[i := r]) == CountSent(rs) + (if HasSent(r) then 1 else 0) - (if HasSent(rs[i]) then 1 else 0)
  {
    if i == 0 {
      assert rs[i := r][1..] == rs[1..];
    } else {
      assert rs[i := r][1..] == rs[1..][i - 1 := r];
      CountUpdate(rs[1..], i - 1, r);
    }
  }

  /** While one runner has not sent, fewer errors than runners have been. */
  lemma {:induction false} CountBelow(rs: seq<Runner>, i: nat)
    requires i < |rs| && !HasSent(rs[i])
    ensures CountSent(rs) < |rs|
  {
    if i > 0 {
      CountBelow(rs[1..], i - 1);
    }
  }

  // ---- what every step keeps ----

  predicate Holding(r: Runner) {
    r.Locked? || r.Sending? || r.Sent?
  }

  ghost predicate MutexInv(s: State) {
    && (forall i :: 0 <= i < |s.runners| ==> (Holding(s.runners[i]) <==> s.mutex == ByRunner(i)))
    && (s.mutex.ByRunner? ==> s.mutex.i < |s.runners|)
    && (s.mutex.ByMain? <==> s.main.Leaving? && (s.main.stage.Marking? || s.main.stage.Closing? || s.main.stage.Unlocking?))
    && (s.errsClosed <==> s.main.Leaving? && (s.main.stage.Closing? || s.main.stage.Unlocking? || s.main.stage.Over?))
    && (s.channelClosed <==> s.main.Leaving? && (s.main.stage.Unlocking? || s.main.stage.Over?))
    && (forall i :: 0 <= i < |s.runners| && s.runners[i].Sending? ==> !s.errsClosed)
  }

  ghost predicate BufferInv(rs: seq<Runner>, buf: seq<nat>, received: nat) {
    && |buf| + received == CountSent(rs)
    && (forall j :: 0 <= j < |buf| ==> buf[j] < |rs| && HasSent(rs[buf[j]]))
  }

  /** The error Run is busy with or is about to return. */
  function ErrorOf(m: Main): Option<nat> {
    match m
    case Selecting => None
    case Handling(e) => Some(e)
    case Waiting(c) => c
    case Leaving(NoError, _) => None
    case Leaving(Failed(e), _) => Some(e)
    case Leaving(TimedOut(c), _) => c
  }

  ghost predicate MainInv(exitWait: bool, rs: seq<Runner>, m: Main, timedOut: bool, cancelled: bool) {
    && (ErrorOf(m).Some? ==> ErrorOf(m).value < |rs| && HasSent(rs[ErrorOf(m).value]))
    && (timedOut <==> m.Leaving? && m.result.TimedOut?)
    && (timedOut ==> exitWait)
    && (m.Leaving? && !timedOut ==> forall i :: 0 <= i < |rs| ==> IsPast(rs[i]))
    && (m.Waiting? || m.Leaving? ==> cancelled)
  }

  ghost predicate Inv(exitWait: bool, s: State) {
    MutexInv(s) && BufferInv(s.runners, s.buf, s.received) && MainInv(exitWait, s.runners, s.main, s.timedOut, s.cancelled)
  }

  /** The runner whose goroutine takes the step, if one does. */
  function Mover(step: Step): Option<nat> {
    match step
    case RunReturns(i, _) => Some(i)
    case WgDone(i) => Some(i)
    case CheckTimedOut(i) => Some(i)
    case RunnerLock(i) => Some(i)
    case CheckClosed(i) => Some(i)
    case Send(i) => Some(i)
    case RunnerUnlock(i) => Some(i)
    case _ => None
  }

  /** A runner only moves forward: past its wg.Done and past its send it stays. */
  lemma MoverMoves(exitWait: bool, s: State, step: Step, i: nat)
    requires Enabled(exitWait, s, step) && Mover(step) == Some(i)
    ensures i < |s.runners|
    ensures var s' := Next(exitWait, s, step);
      && s'.runners == s.runners[i := s'.runners[i]]
      && (HasSent(s'.runners[i]) <==> HasSent(s.runners[i]) || step.Send?)
      && (IsPast(s.runners[i]) ==> IsPast(s'.runners[i]))
      && s'.buf == (if step.Send? then s.buf + [i] else s.buf)
      && s'.main == s.main && s'.timedOut == s.timedOut && s'.cancelled == s.cancelled && s'.received == s.received
    ensures step.Send? ==> !HasSent(s.runners[i])
  {
  }

  lemma BufferMoved(rs: seq<Runner>, buf: seq<nat>, received: nat, i: nat, r: Runner)
    requires BufferInv(rs, buf, received) && i < |rs| && (HasSent(rs[i]) ==> HasSent(r))
    ensures BufferInv(rs[i := r], if HasSent(r) && !HasSent(rs[i]) then buf + [i] else buf, received)
  {
    CountUpdate(rs, i, r);
  }

  lemma MainMoved(exitWait: bool, rs: seq<Runner>, m: Main, timedOut: bool, cancelled: bool, i: nat, r: Runner)
    requires MainInv(exitWait, rs, m, timedOut, cancelled) && i < |rs|
    requires (HasSent(rs[i]) ==> HasSent(r)) && (IsPast(rs[i]) ==> IsPast(r))
    ensures MainInv(exitWait, rs[i := r], m, timedOut, cancelled)
  {
  }

  lemma MutexKept(exitWait: bool, s: State, step: Step)
    requires MutexInv(s) && Enabled(exitWait, s, step)
    ensures MutexInv(Next(exitWait, s, step))
  {
  }

  lemma RunnerKept(exitWait: bool, s: State, step: Step, i: nat)
    requires BufferInv(s.runners, s.buf, s.received) && MainInv(exitWait, s.runners, s.main, s.timedOut, s.cancelled)
    requires Enabled(exitWait, s, step) && Mover(step) == Some(i)
    ensures var s' := Next(exitWait, s, step);
      && BufferInv(s'.runners, s'.buf, s'.received)
      && MainInv(exitWait, s'.runners, s'.main, s'.timedOut, s'.cancelled)
  {
    MoverMoves(exitWait, s, step, i);
    var r := Next(exitWait, s, step).runners[i];
    BufferMoved(s.runners, s.buf, s.received, i, r);
    MainMoved(exitWait, s.runners, s.main, s.timedOut, s.cancelled, i, r);
  }

  lemma StepKeepsInv(exitWait: bool, s: State, step: Step)
    requires Inv(exitWait, s) && Enabled(exitWait, s, step)
    ensures Inv(exitWait, Next(exitWait, s, step)) && |Next(exitWait, s, step).runners| == |s.runners|
  {
    MutexKept(exitWait, s, step);
    if Mover(step).Some? {
      RunnerKept(exitWait, s, step, Mover(step).value);
    }
  }

  lemma {:induction false} RunKeepsInv(exitWait: bool, states: seq<State>, steps: seq<Step>, k: nat)
    requires IsRun(exitWait, states, steps) && k < |states|
    ensures Inv(exitWait, states[k]) && |states[k].runners| == |states[0].runners|
  {
    if k == 0 {
      NoneSent(states[0].runners);
    } else {
      RunKeepsInv(exitWait, states, steps, k - 1);
      var step := steps[k - 1];
      StepKeepsInv(exitWait, states[k - 1], step);
    }
  }

  lemma {:induction false} NoneSent(rs: seq<Runner>)
    requires forall i :: 0 <= i < |rs| ==> rs[i] == Running
    ensures CountSent(rs) == 0
  {
    if rs != [] {
      NoneSent(rs[1..]);
    }
  }

  /**
    Main theorem, safety of the channel: in every interleaving, a runner about to send
    finds the channel open and room in its buffer, so it neither panics nor blocks
    while it holds the mutex; and the error handler is called at most once per runner.
   */
  lemma SendsAreSafe(exitWait: bool, states: seq<State>, steps: seq<Step>, k: nat, i: nat)
    requires IsRun(exitWait, states, steps) && k < |states|
    ensures At(states[k], i, Sending) ==> !states[k].channelClosed && Enabled(exitWait, states[k], Send(i))
    ensures states[k].received <= |states[k].runners|
  {
    RunKeepsInv(exitWait, states, steps, k);
    if At(states[k], i, Sending) {
      CountBelow(states[k].runners, i);
    }
  }

  /** Whoever holds the mutex has a step to take that brings its release nearer: nobody is left waiting for it. */
  lemma MutexHolderMoves(exitWait: bool, states: seq<State>, steps: seq<Step>, k: nat)
    requires IsRun(exitWait, states, steps) && k < |states| && !states[k].mutex.Free?
    ensures exists step :: Enabled(exitWait, states[k], step) && match states[k].mutex
      case ByRunner(i) => step in {CheckClosed(i), Send(i), RunnerUnlock(i)}
      case ByMain => step in {Mark, Close, MainUnlock}
  {
    RunKeepsInv(exitWait, states, steps, k);
    var s := states[k];
    var step: Step;
    if s.mutex.ByRunner? {
      var i := s.mutex.i;
      SendsAreSafe(exitWait, states, steps, k, i);
      step := if s.runners[i].Locked? then CheckClosed(i) else if s.runners[i].Sending? then Send(i) else RunnerUnlock(i);
    } else {
      step := if s.main.stage.Marking? then Mark else if s.main.stage.Closing? then Close else MainUnlock;
    }
    assert Enabled(exitWait, s, step);
  }

  /**
    Main theorem, the return: Run returns only after every runner's Run has returned,
    unless ExitWait is set and ran out, which the result then says; the runners were
    cancelled; and an error it returns is one that a runner returned and reported.
   */
  lemma ReturnsAfterAll(exitWait: bool, states: seq<State>, steps: seq<Step>, k: nat)
    requires IsRun(exitWait, states, steps) && k < |states| && states[k].main.Leaving? && states[k].main.stage.Over?
    ensures var s := states[k];
      && (s.main.result.TimedOut? ==> exitWait)
      && (!s.main.result.TimedOut? ==> forall i :: 0 <= i < |s.runners| ==> IsPast(s.runners[i]))
      && s.cancelled
      && (s.main.result.Failed? ==> s.main.result.err < |s.runners| && HasSent(s.runners[s.main.result.err]))
  {
    RunKeepsInv(exitWait, states, steps, k);
  }

  // ---- what is returned, told from the steps alone ----

  /** The errors sent, by runner, in order. */
  function Sends(steps: seq<Step>): seq<nat> {
    if steps == [] then []
    else
      var last := steps[|steps| - 1];
      Sends(steps[..|steps| - 1]) + if last.Send? then [last.i] else []
  }

  /** The errors the handler was called with, in order, during the first `k` steps. */
  function Handled(states: seq<State>, steps: seq<Step>, k: nat): seq<nat>
    requires k <= |steps| < |states|
  {
    if k == 0 then []
    else Handled(states, steps, k - 1) + if steps[k - 1].Receive? && states[k - 1].buf != [] then [states[k - 1].buf[0]] else []
  }

  /** What Run has to return: nil for a cancelled context, the error the handler stopped at, or the timeout joined with that error. */
  function Verdict(stopped: bool, error: nat, timeout: bool): Result {
    if timeout then TimedOut(if stopped then Some(error) else None)
    else if stopped then Failed(error) else NoError
  }

  /** Where Run is, told from the steps so far and the errors handled. */
  ghost predicate Told(m: Main, cancelled: bool, past: seq<Step>, handled: seq<nat>) {
    var stopped, done, timeout := HandlerSays(true) in past, ContextDone in past, ExitTimeout in past;
    && (stopped ==> handled != []) && !(stopped && done)
    && (cancelled <==> stopped || done)
    && match m
       case Selecting => !cancelled && !timeout
       case Handling(e) => !cancelled && !timeout && handled != [] && handled[|handled| - 1] == e
       case Waiting(cause) => cancelled && !timeout && cause == if stopped then Some(handled[|handled| - 1]) else None
       case Leaving(result, _) => cancelled && result == Verdict(stopped, if stopped then handled[|handled| - 1] else 0, timeout)
  }

  lemma StepTold(exitWait: bool, s: State, step: Step, past: seq<Step>, handled: seq<nat>)
    requires Enabled(exitWait, s, step) && Told(s.main, s.cancelled, past, handled)
    ensures var s' := Next(exitWait, s, step);
      Told(s'.main, s'.cancelled, past + [step], handled + if step.Receive? then [s.buf[0]] else [])
  {
    var now := past + [step];
    assert forall x :: x in now <==> x in past || x == step;
  }

  lemma SameRunners(exitWait: bool, s: State, step: Step)
    requires Enabled(exitWait, s, step)
    ensures |Next(exitWait, s, step).runners| == |s.runners|
  {
  }

  lemma RunStep(exitWait: bool, states: seq<State>, steps: seq<Step>, k: nat)
    requires IsRun(exitWait, states, steps) && 0 < k < |states|
    ensures Enabled(exitWait, states[k - 1], steps[k - 1]) && states[k] == Next(exitWait, states[k - 1], steps[k - 1])
    ensures steps[..k] == steps[..k - 1] + [steps[k - 1]] && |states[k].runners| == |states[k - 1].runners|
  {
    var step := steps[k - 1];
    SameRunners(exitWait, states[k - 1], step);
  }

  lemma {:induction false} RunTold(exitWait: bool, states: seq<State>, steps: seq<Step>, k: nat)
    requires IsRun(exitWait, states, steps) && k < |states|
    ensures Told(states[k].main, states[k].cancelled, steps[..k], Handled(states, steps, k))
  {
    if k > 0 {
      RunTold(exitWait, states, steps, k - 1);
      RunStep(exitWait, states, steps, k);
      StepTold(exitWait, states[k - 1], steps[k - 1], steps[..k - 1], Handled(states, steps, k - 1));
    }
  }

  /** The buffer is first in, first out. */
  lemma {:induction false} StepKeepsOrder(exitWait: bool, s: State, step: Step, handled: seq<nat>, sent: seq<nat>)
    requires Enabled(exitWait, s, step) && handled + s.buf == sent
    ensures (handled + if step.Receive? then [s.buf[0]] else []) + Next(exitWait, s, step).buf == sent + if step.Send? then [step.i] else []
  {
    if step.Receive? {
      assert s.buf == [s.buf[0]] + s.buf[1..];
    }
  }

  lemma SendsSnoc(past: seq<Step>, step: Step)
    ensures Sends(past + [step]) == Sends(past) + if step.Send? then [step.i] else []
  {
    assert (past + [step])[..|past|] == past;
  }

  lemma {:induction false} HandledInOrder(exitWait: bool, states: seq<State>, steps: seq<Step>, k: nat)
    requires IsRun(exitWait, states, steps) && k < |states|
    ensures Handled(states, steps, k) + states[k].buf == Sends(steps[..k])
  {
    if k > 0 {
      HandledInOrder(exitWait, states, steps, k - 1);
      RunStep(exitWait, states, steps, k);
      StepKeepsOrder(exitWait, states[k - 1], steps[k - 1], Handled(states, steps, k - 1), Sends(steps[..k - 1]));
      SendsSnoc(steps[..k - 1], steps[k - 1]);
    }
  }

  /**
    Main theorem, the result, told from the steps alone: Run stops for exactly one reason, a
    handler that said so or a cancelled context; it returns nil only for the latter; for the
    former the error the handler was last called with; and the timeout exactly if the exit
    wait ran out, joined with that error. The handler gets the errors in the order they were sent.
   */
  lemma ReturnsWhatHappened(exitWait: bool, states: seq<State>, steps: seq<Step>, k: nat)
    requires IsRun(exitWait, states, steps) && k < |states| && states[k].main.Leaving? && states[k].main.stage.Over?
    ensures HandlerSays(true) in steps[..k] <==> ContextDone !in steps[..k]
    ensures var result, handled := states[k].main.result, Handled(states, steps, k);
      && (result.TimedOut? <==> ExitTimeout in steps[..k])
      && (result.NoError? <==> ContextDone in steps[..k] && ExitTimeout !in steps[..k])
      && (HandlerSays(true) in steps[..k] ==>
            handled != [] && result in {Failed(handled[|handled| - 1]), TimedOut(Some(handled[|handled| - 1]))})
      && handled <= Sends(steps[..k])
  {
    RunTold(exitWait, states, steps, k);
    HandledInOrder(exitWait, states, steps, k);
  }

  // ---- no error is lost ----

  /** A runner, told from the steps so far; `dropped` says that Run had timed out or had closed the channel when it looked. */
  predicate RunnerTold(r: Runner, i: nat, past: seq<Step>, dropped: bool) {
    && (r.Running? ==> RunReturns(i, true) !in past && RunReturns(i, false) !in past)
    && (r.Returned? || r.Past? ==> (r.failed <==> RunReturns(i, true) in past))
    && (r.Wanting? || r.Locked? || r.Sending? ==> RunReturns(i, true) in past)
    && (HasSent(r) <==> Send(i) in past)
    && (HasSent(r) ==> RunReturns(i, true) in past)
    && (r.Finished? && !r.reported && RunReturns(i, true) in past ==> dropped)
  }

  /** The step at which a runner finds that its error is not wanted any more. */
  predicate Drops(s: State, step: Step, i: nat) {
    (step == CheckTimedOut(i) && s.timedOut) || (step == CheckClosed(i) && s.errsClosed)
  }

  predicate Dropped(states: seq<State>, steps: seq<Step>, k: nat, i: nat)
    requires k <= |steps| < |states|
  {
    k > 0 && (Dropped(states, steps, k - 1, i) || Drops(states[k - 1], steps[k - 1], i))
  }

  lemma {:induction false} DroppedSometime(states: seq<State>, steps: seq<Step>, k: nat, i: nat)
    requires k <= |steps| < |states| && Dropped(states, steps, k, i)
    ensures exists j :: 0 <= j < k && Drops(states[j], steps[j], i)
  {
    if Dropped(states, steps, k - 1, i) {
      DroppedSometime(states, steps, k - 1, i);
    }
  }

  lemma {:induction false} StepKeepsRunner(exitWait: bool, s: State, step: Step, i: nat, past: seq<Step>, dropped: bool)
    requires Enabled(exitWait, s, step) && i < |s.runners| && RunnerTold(s.runners[i], i, past, dropped)
    ensures RunnerTold(Next(exitWait, s, step).runners[i], i, past + [step], dropped || Drops(s, step, i))
  {
    assert forall x :: x in past + [step] <==> x in past || x == step;
  }

  lemma {:induction false} RunKeepsRunner(exitWait: bool, states: seq<State>, steps: seq<Step>, k: nat, i: nat)
    requires IsRun(exitWait, states, steps) && k < |states| && i < |states[k].runners|
    ensures RunnerTold(states[k].runners[i], i, steps[..k], Dropped(states, steps, k, i))
  {
    if k > 0 {
      RunStep(exitWait, states, steps, k);
      RunKeepsRunner(exitWait, states, steps, k - 1, i);
      StepKeepsRunner(exitWait, states[k - 1], steps[k - 1], i, steps[..k - 1], Dropped(states, steps, k - 1, i));
    }
  }

  /**
    Main theorem, the errors: a goroutine that is done has sent its runner's error if there was
    one, unless it came after the timeout or the closing of the channel; and nothing else is sent.
   */
  lemma ErrorsReported(exitWait: bool, states: seq<State>, steps: seq<Step>, k: nat, i: nat)
    requires IsRun(exitWait, states, steps) && k < |states| && i < |states[k].runners| && states[k].runners[i].Finished?
    ensures Send(i) in steps[..k] ==> RunReturns(i, true) in steps[..k]
    ensures RunReturns(i, true) in steps[..k] && Send(i) !in steps[..k] ==>
      exists j :: 0 <= j < k && Drops(states[j], steps[j], i)
  {
    RunKeepsRunner(exitWait, states, steps, k, i);
    if Dropped(states, steps, k, i) {
      DroppedSometime(states, steps, k, i);
    }
  }

  // ---- Run comes to an end ----

  /** How many steps a runner's goroutine may still take, an error it sends counting two for Run. */
  function RunnerRank(r: Runner): nat {
    match r
    case Running => 9
    case Returned(_) => 8
    case Past(_) => 7
    case Wanting => 6
    case Locked => 5
    case Sending => 4
    case Sent => 1
    case Finished(_) => 0
  }

  function RunnersRank(rs: seq<Runner>): nat {
    if rs == [] then 0 else RunnerRank(rs[0]) + RunnersRank(rs[1..])
  }

  function MainRank(m: Main): nat {
    match m
    case Selecting => 8
    case Handling(_) => 9
    case Waiting(_) => 7
    case Leaving(_, AtMutex) => 4
    case Leaving(_, Marking) => 3
    case Leaving(_, Closing) => 2
    case Leaving(_, Unlocking) => 1
    case Leaving(_, Over) => 0
  }

  function Rank(s: State): nat {
    RunnersRank(s.runners) + 2 * |s.buf| + MainRank(s.main)
  }

  lemma {:induction false} RankUpdate(rs: seq<Runner>, i: nat, r: Runner)
    requires i < |rs|
    ensures RunnersRank(rs[i := r]) + RunnerRank(rs[i]) == RunnersRank(rs) + RunnerRank(r)
  {
    if i == 0 {
      assert rs[i := r][1..] == rs[1..];
    } else {
      assert rs[i := r][1..] == rs[1..][i - 1 := r];
      RankUpdate(rs[1..], i - 1, r);
    }
  }

  lemma {:induction false} StepLowersRank(exitWait: bool, s: State, step: Step)
    requires Enabled(exitWait, s, step)
    ensures Rank(Next(exitWait, s, step)) < Rank(s)
  {
    if Mover(step).Some? {
      var i := Mover(step).value;
      RankUpdate(s.runners, i, Next(exitWait, s, step).runners[i]);
    }
  }

  lemma {:induction false} RanksFall(exitWait: bool, states: seq<State>, steps: seq<Step>, k: nat)
    requires IsRun(exitWait, states, steps) && k < |states|
    ensures Rank(states[k]) + k <= Rank(states[0])
  {
    if k > 0 {
      RanksFall(exitWait, states, steps, k - 1);
      RunStep(exitWait, states, steps, k);
      StepLowersRank(exitWait, states[k - 1], steps[k - 1]);
    }
  }

  lemma {:induction false} StartRank(rs: seq<Runner>)
    requires forall i :: 0 <= i < |rs| ==> rs[i] == Running
    ensures RunnersRank(rs) == 9 * |rs|
  {
    if rs != [] {
      StartRank(rs[1..]);
    }
  }

  /**
    Main theorem, the end: no interleaving goes on for longer than nine steps a runner and eight, and
    none gets stuck before Run has returned; so Run returns, if every runner does.
   */
  lemma RunEnds(exitWait: bool, states: seq<State>, steps: seq<Step>, k: nat)
    requires IsRun(exitWait, states, steps) && k < |states|
    ensures k <= 9 * |states[0].runners| + 8
    ensures (states[k].main.Leaving? && states[k].main.stage.Over?) || exists step :: Enabled(exitWait, states[k], step)
  {
    RanksFall(exitWait, states, steps, k);
    StartRank(states[0].runners);
    var s := states[k];
    var step: Step;
    match s.main {
      case Selecting => step := ContextDone;
      case Handling(_) => step := HandlerSays(true);
      case Waiting(_) =>
        if i :| 0 <= i < |s.runners| && !IsPast(s.runners[i]) {
          step := if s.runners[i].Running? then RunReturns(i, false) else WgDone(i);
        } else {
          step := WaitOver;
        }
      case Leaving(_, stage) =>
        if stage.AtMutex? && !s.mutex.Free? {
          MutexHolderMoves(exitWait, states, steps, k);
          return;
        }
        step := if stage.AtMutex? then MainLock else if stage.Marking? then Mark else if stage.Closing? then Close else MainUnlock;
    }
    assert (s.main.Leaving? && s.main.stage.Over?) || Enabled(exitWait, s, step);
  }
}
