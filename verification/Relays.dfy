/**
 The two relays of a tunnel and the coroutine that waits for them. The rule for tearing down is
 different for a clean end and for an error, and the runs show it is kept.
 */
module Relays {

  datatype Relay = Running | Ended | Failed | Cancelled

  /** `Interrupted`: cancelled again while draining, so the call ends by an exception at once. */
  datatype Supervisor = Waiting | Draining | Returned | Interrupted

  /** `noticed[i]`: relay i's end has been taken out of the pending set. */
  datatype State = State(
    relays: seq<Relay>,
    cancelAsked: seq<bool>,
    noticed: seq<bool>,
    sup: Supervisor,
    watchdogFired: bool,
    outerCancel: bool)

  const STARTED := State([Running, Running], [false, false], [false, false], Waiting, false, false)

  datatype Step =
    | End(i: nat)              // end of stream, or a reset the relay swallows
    | Fail(i: nat)             // any other exception
    | TakeCancel(i: nat)       // a requested cancellation arrives
    | Watchdog                 // idle timeout: asks every unfinished relay to stop
    | Notice                   // the waiting task wakes up with everything finished so far
    | OuterCancel              // the supervisor itself is cancelled while it waits
    | Interrupt                // or once more, while it drains
    | Return                   // both relays are done and have been awaited

  predicate Shape(s: State) {
    |s.relays| == 2 && |s.cancelAsked| == 2 && |s.noticed| == 2
  }

  predicate Done(s: State, i: nat)
    requires Shape(s) && i < 2
  {
    s.relays[i] != Running
  }

  /** Ask every unfinished relay to stop. */
  function AskAll(s: State): seq<bool>
    requires Shape(s)
  {
    [s.cancelAsked[0] || !Done(s, 0), s.cancelAsked[1] || !Done(s, 1)]
  }

  predicate SomethingNew(s: State)
    requires Shape(s)
  {
    (Done(s, 0) && !s.noticed[0]) || (Done(s, 1) && !s.noticed[1])
  }

  predicate NewFailure(s: State)
    requires Shape(s)
  {
    (s.relays[0] == Failed && !s.noticed[0]) || (s.relays[1] == Failed && !s.noticed[1])
  }

  predicate Enabled(s: State, step: Step)
    requires Shape(s)
  {
    match step
    case End(i) => i < 2 && s.relays[i] == Running
    case Fail(i) => i < 2 && s.relays[i] == Running
    case TakeCancel(i) => i < 2 && s.relays[i] == Running && s.cancelAsked[i]
    case Watchdog => s.sup == Waiting && !s.watchdogFired
    case Notice => s.sup == Waiting && SomethingNew(s)
    case OuterCancel => s.sup == Waiting
    case Interrupt => s.sup == Draining
    case Return => s.sup == Draining && Done(s, 0) && Done(s, 1)
  }

  function Next(s: State, step: Step): (r: State)
    requires Shape(s) && Enabled(s, step)
    ensures Shape(r)
  {
    match step
    case End(i) => s.(relays := s.relays[i := Ended])
    case Fail(i) => s.(relays := s.relays[i := Failed])
    case TakeCancel(i) => s.(relays := s.relays[i := Cancelled])
    case Watchdog => s.(cancelAsked := AskAll(s), watchdogFired := true)
    case Notice =>
      var noticed := s.(noticed := [Done(s, 0), Done(s, 1)]);
      if NewFailure(s) || (Done(s, 0) && Done(s, 1)) then noticed.(cancelAsked := AskAll(s), sup := Draining)
      else noticed
    case OuterCancel => s.(cancelAsked := AskAll(s), sup := Draining, outerCancel := true)
    case Interrupt => s.(cancelAsked := AskAll(s), sup := Interrupted, outerCancel := true)
    case Return => s.(sup := Returned)
  }

  ghost predicate IsRun(s: State, steps: seq<Step>)
    requires Shape(s)
    decreases |steps|
  {
    steps == [] || (Enabled(s, steps[0]) && IsRun(Next(s, steps[0]), steps[1..]))
  }

  function Run(s: State, steps: seq<Step>): (r: State)
    requires Shape(s) && IsRun(s, steps)
    ensures Shape(r)
    decreases |steps|
  {
    if steps == [] then s else Run(Next(s, steps[0]), steps[1..])
  }

  predicate Torn(s: State, i: nat)
    requires Shape(s) && i < 2
  {
    Done(s, i) || s.cancelAsked[i]
  }

  ghost predicate Inv(s: State) {
    && Shape(s)
    // a relay is asked to stop only for one of three reasons
    && (forall i :: 0 <= i < 2 && s.cancelAsked[i] ==> s.watchdogFired || s.outerCancel || s.relays[1 - i] == Failed)
    && (forall i :: 0 <= i < 2 && s.relays[i] == Cancelled ==> s.cancelAsked[i])
    // while waiting, a failure has not been noticed yet, so the next wake-up acts on it
    && (s.sup == Waiting ==> forall i :: 0 <= i < 2 && s.relays[i] == Failed ==> !s.noticed[i])
    && (s.sup == Waiting ==> !(s.noticed[0] && s.noticed[1]))
    && (forall i :: 0 <= i < 2 && s.noticed[i] ==> Done(s, i))
    // after waiting, both relays are finished or told to finish
    && (s.sup != Waiting ==> Torn(s, 0) && Torn(s, 1))
    && (s.sup == Returned ==> Done(s, 0) && Done(s, 1))
    // the idle timeout spares neither relay
    && (s.watchdogFired ==> Torn(s, 0) && Torn(s, 1))
  }

  /** A relay that stops for whatever reason keeps the rules, if a cancellation was asked for. */
  lemma FinishInv(s: State, i: nat, how: Relay)
    requires Inv(s) && i < 2 && s.relays[i] == Running && how != Running
    requires how == Cancelled ==> s.cancelAsked[i]
    ensures Inv(s.(relays := s.relays[i := how]))
  {
    assert i == 0 || i == 1;
  }

  /** Asking everyone to stop, for one of the three reasons. */
  lemma AskInv(s: State, r: State)
    requires Inv(s) && r.relays == s.relays && r.cancelAsked == AskAll(s) && Shape(r)
    requires r.watchdogFired || r.outerCancel || s.relays[0] == Failed || s.relays[1] == Failed || (Done(s, 0) && Done(s, 1))
    requires s.watchdogFired ==> r.watchdogFired
    requires s.outerCancel ==> r.outerCancel
    ensures forall i :: 0 <= i < 2 && r.cancelAsked[i] ==> r.watchdogFired || r.outerCancel || r.relays[1 - i] == Failed
    ensures forall i :: 0 <= i < 2 && r.relays[i] == Cancelled ==> r.cancelAsked[i]
    ensures Torn(r, 0) && Torn(r, 1)
  {
  }

  lemma NoticeInv(s: State)
    requires Inv(s) && Enabled(s, Notice)
    ensures Inv(Next(s, Notice))
  {
    var r := Next(s, Notice);
    assert NewFailure(s) <==> s.relays[0] == Failed || s.relays[1] == Failed;
    if r.sup == Draining { AskInv(s, r); }
  }

  lemma StepKeepsInv(s: State, step: Step)
    requires Inv(s) && Enabled(s, step)
    ensures Inv(Next(s, step))
  {
    match step
    case End(i) => FinishInv(s, i, Ended);
    case Fail(i) => FinishInv(s, i, Failed);
    case TakeCancel(i) => FinishInv(s, i, Cancelled);
    case Notice => NoticeInv(s);
    case Watchdog =>
    case OuterCancel =>
    case Interrupt =>
    case Return =>
  }

  lemma {:induction false} RunKeepsInv(s: State, steps: seq<Step>)
    requires Inv(s) && IsRun(s, steps)
    ensures Inv(Run(s, steps))
    decreases |steps|
  {
    if steps != [] {
      StepKeepsInv(s, steps[0]);
      RunKeepsInv(Next(s, steps[0]), steps[1..]);
    }
  }

  /** A clean end of one relay never stops the other. */
  lemma CleanEndSparesSibling(steps: seq<Step>, i: nat)
    requires IsRun(STARTED, steps) && i < 2
    ensures var s := Run(STARTED, steps);
            !s.watchdogFired && !s.outerCancel && s.relays[1 - i] != Failed
            ==> !s.cancelAsked[i] && s.relays[i] != Cancelled
  {
    RunKeepsInv(STARTED, steps);
  }

  /** An error in one relay tears the tunnel down: if the other still runs, the next wake-up asks it to stop. */
  lemma FailureTearsDown(steps: seq<Step>, i: nat)
    requires IsRun(STARTED, steps) && i < 2
    requires Run(STARTED, steps).relays[i] == Failed
    ensures var s := Run(STARTED, steps);
            if s.sup == Waiting then Enabled(s, Notice) && Next(s, Notice).sup == Draining && Torn(Next(s, Notice), 1 - i)
            else Torn(s, 1 - i)
  {
    RunKeepsInv(STARTED, steps);
    var s := Run(STARTED, steps);
    assert i == 0 || i == 1;
  }

  /** An idle timeout stops both directions: each has ended or been asked to, and the call can always move on. */
  lemma IdleTimeoutStopsBoth(steps: seq<Step>)
    requires IsRun(STARTED, steps) && Run(STARTED, steps).watchdogFired
    ensures var s := Run(STARTED, steps);
            && (forall i :: 0 <= i < 2 ==> s.relays[i] != Running || s.cancelAsked[i])
            && (s.sup == Waiting ==> Enabled(s, Notice) || Enabled(s, TakeCancel(0)) || Enabled(s, TakeCancel(1)))
  {
    RunKeepsInv(STARTED, steps);
  }

  /** The call gets past its draining only when both directions have ended. */
  lemma ReturnsOnlyWhenBothEnded(steps: seq<Step>)
    requires IsRun(STARTED, steps) && Run(STARTED, steps).sup == Returned
    ensures Done(Run(STARTED, steps), 0) && Done(Run(STARTED, steps), 1)
  {
    RunKeepsInv(STARTED, steps);
  }

  /** Interrupted, it may leave a relay running, but none that has not been asked to stop. */
  lemma InterruptedLeavesNoneUnasked(steps: seq<Step>, i: nat)
    requires IsRun(STARTED, steps) && Run(STARTED, steps).sup == Interrupted && i < 2
    ensures Torn(Run(STARTED, steps), i)
  {
    RunKeepsInv(STARTED, steps);
  }

  /** Once torn down nothing can stay: an unfinished relay can always take its cancellation. */
  lemma DrainingCanFinish(steps: seq<Step>)
    requires IsRun(STARTED, steps) && Run(STARTED, steps).sup == Draining
    ensures var s := Run(STARTED, steps);
            Enabled(s, Return) || Enabled(s, TakeCancel(0)) || Enabled(s, TakeCancel(1))
  {
    RunKeepsInv(STARTED, steps);
  }
}
