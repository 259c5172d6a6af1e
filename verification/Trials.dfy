/**
 Calls through the breaker by identity: which of them run as HALF_OPEN trials, and exactly
 when more than one trial is in flight.
 */
module Trials {
  import opened Sorting
  import opened Breaker

  type CallId = nat

  /** `calls` are under way; the `trials` among them were let through in HALF_OPEN. */
  datatype State = State(b: Snapshot, calls: set<CallId>, trials: set<CallId>)

  datatype CallEvent =
    | Ask(id: CallId, at: real)
    | Look(at: real)
    | Answered(id: CallId, at: real)
    | Failed(id: CallId, at: real)
    | Cancelled(id: CallId, at: real)     // the caller goes away; the breaker is not told

  predicate Enabled(s: State, e: CallEvent) {
    match e
    case Ask(id, _) => id !in s.calls
    case Look(_) => true
    case Answered(id, _) => id in s.calls
    case Failed(id, _) => id in s.calls
    case Cancelled(id, _) => id in s.calls
  }

  function After(c: Config, s: State, e: CallEvent): State
    requires s.b.mode.OPEN? ==> s.b.openedAt.Some?
  {
    match e
    case Ask(id, at) =>
      var b := Observed(c, s.b, at);
      if b.mode.OPEN? then s.(b := b)
      else State(b, s.calls + {id}, if b.mode.HALF_OPEN? then s.trials + {id} else s.trials)
    case Look(at) => s.(b := Observed(c, s.b, at))
    case Answered(id, _) => State(AfterSuccess(s.b), s.calls - {id}, s.trials - {id})
    case Failed(id, at) => State(AfterFailure(c, s.b, at), s.calls - {id}, s.trials - {id})
    case Cancelled(id, _) => State(s.b, s.calls - {id}, s.trials - {id})
  }

  function Run(c: Config, h: seq<CallEvent>): (s: State)
    ensures s.b.mode.OPEN? ==> s.b.openedAt.Some?
    ensures s.trials <= s.calls
  {
    if h == [] then State(FRESH, {}, {}) else After(c, Run(c, h[..|h| - 1]), h[|h| - 1])
  }

  predicate IsRun(c: Config, h: seq<CallEvent>) {
    h == [] || (IsRun(c, h[..|h| - 1]) && Enabled(Run(c, h[..|h| - 1]), h[|h| - 1]))
  }

  // ------------------------------------------------------------- the breaker's own view

  /** What the breaker sees of the calls. */
  function Seen(h: seq<CallEvent>): seq<Event> {
    if h == [] then []
    else
      var init := Seen(h[..|h| - 1]);
      match h[|h| - 1]
      case Ask(_, at) => init + [Start(at)]
      case Look(at) => init + [Peek(at)]
      case Answered(_, at) => init + [Success(at)]
      case Failed(_, at) => init + [Failure(at)]
      case Cancelled(_, _) => init
  }

  /** Telling calls apart adds nothing to the breaker's state. */
  lemma {:induction false} RunIsReplay(c: Config, h: seq<CallEvent>)
    ensures Run(c, h).b == Replay(c, Seen(h))
  {
    if h != [] {
      RunIsReplay(c, h[..|h| - 1]);
      var init := Seen(h[..|h| - 1]);
      assert h[|h| - 1].Cancelled? || (|Seen(h)| == |init| + 1 && Seen(h)[..|init|] == init);
    }
  }

  // -------------------------------------------------------- HALF_OPEN lets everyone in

  predicate NoOutcome(e: seq<Event>) {
    forall i :: 0 <= i < |e| ==> e[i].Start? || e[i].Peek?
  }

  /** Until the first outcome a HALF_OPEN breaker stays so, and every call that asks is let through. */
  lemma {:induction false} HalfOpenAdmitsAll(c: Config, h: seq<Event>, e: seq<Event>)
    requires Replay(c, h).mode.HALF_OPEN? && NoOutcome(e)
    ensures Replay(c, h + e) == Replay(c, h)
    decreases |e|
  {
    if e == [] {
      assert h + e == h;
    } else {
      HalfOpenAdmitsAll(c, h, e[..|e| - 1]);
      assert (h + e)[..|h + e| - 1] == h + e[..|e| - 1];
    }
  }

  function Failures(n: nat): (r: seq<Event>)
    ensures |r| == n && forall i :: 0 <= i < n ==> r[i] == Failure(0.0)
  {
    seq(n, _ => Failure(0.0))
  }

  lemma {:induction false} FailuresOpen(c: Config, n: nat)
    requires c.threshold >= 1
    ensures Replay(c, Failures(n)).failures == n
    ensures if n < c.threshold then Replay(c, Failures(n)).mode.CLOSED?
            else Replay(c, Failures(n)).mode.OPEN? && Replay(c, Failures(n)).openedAt == Some(0.0)
  {
    if n > 0 {
      FailuresOpen(c, n - 1);
      assert Failures(n)[..n - 1] == Failures(n - 1);
    }
  }

  /** As many failures as the threshold, then two calls after recovery: both are let through as trials. */
  lemma TwoTrials(c: Config, t: real)
    requires c.threshold >= 1 && t >= c.recovery
    ensures Replay(c, Failures(c.threshold) + [Start(t)]).mode.HALF_OPEN?
    ensures Replay(c, Failures(c.threshold) + [Start(t)] + [Start(t)]).mode.HALF_OPEN?
  {
    var failed := Failures(c.threshold);
    FailuresOpen(c, c.threshold);
    assert (failed + [Start(t)])[..|failed|] == failed;
    HalfOpenAdmitsAll(c, failed + [Start(t)], [Start(t)]);
  }

  function Asks(ids: seq<CallId>, at: real): (r: seq<CallEvent>)
    ensures |r| == |ids| && forall i :: 0 <= i < |r| ==> r[i] == Ask(ids[i], at)
  {
    seq(|ids|, i requires 0 <= i < |ids| => Ask(ids[i], at))
  }

  lemma OneMoreTrial(c: Config, h: seq<CallEvent>, id: CallId, at: real)
    requires Run(c, h).b.mode.HALF_OPEN? && id !in Run(c, h).calls
    ensures Run(c, h + [Ask(id, at)]).b == Run(c, h).b
    ensures Run(c, h + [Ask(id, at)]).calls == Run(c, h).calls + {id}
    ensures |Run(c, h + [Ask(id, at)]).trials| == |Run(c, h).trials| + 1
  {
    assert (h + [Ask(id, at)])[..|h|] == h;
    assert id !in Run(c, h).trials;
  }

  lemma AsksCons(h: seq<CallEvent>, ids: seq<CallId>, at: real)
    requires ids != []
    ensures h + Asks(ids, at) == (h + [Ask(ids[0], at)]) + Asks(ids[1..], at)
  {
  }

  /** However many calls ask a HALF_OPEN breaker, all of them become trials in flight. */
  lemma {:induction false} TrialsPileUp(c: Config, h: seq<CallEvent>, ids: seq<CallId>, at: real)
    requires Run(c, h).b.mode.HALF_OPEN?
    requires forall id :: id in ids ==> id !in Run(c, h).calls
    requires Distinct(ids)
    ensures Run(c, h + Asks(ids, at)).b == Run(c, h).b
    ensures |Run(c, h + Asks(ids, at)).trials| == |Run(c, h).trials| + |ids|
    decreases |ids|
  {
    if ids == [] {
      assert h + Asks(ids, at) == h;
    } else {
      var next := h + [Ask(ids[0], at)];
      OneMoreTrial(c, h, ids[0], at);
      AsksCons(h, ids, at);
      forall id | id in ids[1..] ensures id in ids && id != ids[0] {
        var i :| 0 <= i < |ids[1..]| && ids[1..][i] == id;
        assert ids[i + 1] == id;
      }
      TrialsPileUp(c, next, ids[1..], at);
    }
  }

  // ----------------------------------------------------------- exactly when it is one

  /** A call asks while a trial is in flight and the breaker is, or is due to be, HALF_OPEN. */
  predicate Overlaps(c: Config, s: State, e: CallEvent)
    requires s.b.mode.OPEN? ==> s.b.openedAt.Some?
  {
    e.Ask? && s.trials != {} && Observed(c, s.b, e.at).mode.HALF_OPEN?
  }

  /** At most one trial in flight, now and at every moment before. */
  predicate SingleTrial(c: Config, h: seq<CallEvent>) {
    |Run(c, h).trials| <= 1 && (h == [] || SingleTrial(c, h[..|h| - 1]))
  }

  predicate NoOverlap(c: Config, h: seq<CallEvent>) {
    h == [] || (NoOverlap(c, h[..|h| - 1]) && !Overlaps(c, Run(c, h[..|h| - 1]), h[|h| - 1]))
  }

  lemma StepTrials(c: Config, s: State, e: CallEvent)
    requires (s.b.mode.OPEN? ==> s.b.openedAt.Some?) && s.trials <= s.calls && Enabled(s, e)
    requires |s.trials| <= 1
    ensures |After(c, s, e).trials| <= 1 <==> !Overlaps(c, s, e)
  {
    match e
    case Ask(id, at) => assert id !in s.trials;
    case Look(at) =>
    case Answered(id, _) =>
    case Failed(id, _) =>
    case Cancelled(id, _) =>
  }

  /** At most one trial is in flight throughout a run iff no call ever asks a HALF_OPEN breaker during a trial. */
  lemma {:induction false} SingleTrialExact(c: Config, h: seq<CallEvent>)
    requires IsRun(c, h)
    ensures SingleTrial(c, h) <==> NoOverlap(c, h)
  {
    if h != [] {
      var init := h[..|h| - 1];
      SingleTrialExact(c, init);
      if |Run(c, init).trials| <= 1 { StepTrials(c, Run(c, init), h[|h| - 1]); }
    }
  }
}
