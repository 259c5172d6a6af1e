/**
 The circuit breaker under interleaved calls. A call is two atomic steps, its start and its
 outcome, since it awaits in between; a history is any sequence of such steps of any calls.
 */
module Breaker {

  datatype Option<+T> = None | Some(value: T)

  datatype Mode = CLOSED | OPEN | HALF_OPEN

  datatype Config = Config(threshold: int, recovery: real)

  datatype Snapshot = Snapshot(mode: Mode, failures: nat, openedAt: Option<real>)

  const FRESH := Snapshot(CLOSED, 0, None)

  /** Reading the state may move OPEN to HALF_OPEN. */
  function Observed(c: Config, b: Snapshot, now: real): Snapshot
    requires b.mode.OPEN? ==> b.openedAt.Some?
  {
    if b.mode.OPEN? && now - b.openedAt.value >= c.recovery then b.(mode := HALF_OPEN) else b
  }

  function AfterSuccess(b: Snapshot): Snapshot {
    b.(mode := CLOSED, failures := 0)
  }

  function AfterFailure(c: Config, b: Snapshot, now: real): Snapshot {
    if b.failures + 1 >= c.threshold then Snapshot(OPEN, b.failures + 1, Some(now))
    else b.(failures := b.failures + 1)
  }

  /** CLOSED means fewer failures than the threshold; otherwise the opening time is set. */
  ghost predicate Sound(c: Config, b: Snapshot) {
    && (b.mode.CLOSED? ==> b.failures < c.threshold)
    && (!b.mode.CLOSED? ==> b.failures >= c.threshold && b.openedAt.Some?)
  }

  class CircuitBreaker {
    const config: Config
    var mode: Mode
    var failures: nat
    var openedAt: Option<real>

    constructor (c: Config)
      requires c.threshold >= 1
      ensures config == c && View() == FRESH && Valid()
    {
      config, mode, failures, openedAt := c, CLOSED, 0, None;
    }

    ghost function View(): Snapshot
      reads this
    {
      Snapshot(mode, failures, openedAt)
    }

    ghost predicate Valid()
      reads this
    {
      config.threshold >= 1 && Sound(config, View())
    }

    method State(now: real) returns (m: Mode)
      requires Valid()
      modifies this
      ensures Valid() && View() == Observed(config, old(View()), now) && m == mode
    {
      if mode == OPEN {
        if now - openedAt.value >= config.recovery {
          mode := HALF_OPEN;
        }
      }
      return mode;
    }

    /** The start of a call: bypassed while OPEN, timed while HALF_OPEN. */
    method Begin(now: real) returns (admitted: bool, trial: bool)
      requires Valid()
      modifies this
      ensures Valid() && View() == Observed(config, old(View()), now)
      ensures admitted == (mode != OPEN) && trial == (mode == HALF_OPEN)
    {
      var s := State(now);
      if s == OPEN {
        return false, false;
      }
      return true, s == HALF_OPEN;
    }

    method Succeed()
      requires Valid()
      modifies this
      ensures Valid() && View() == AfterSuccess(old(View()))
    {
      mode := CLOSED;
      failures := 0;
    }

    method Fail(now: real)
      requires Valid()
      modifies this
      ensures Valid() && View() == AfterFailure(config, old(View()), now)
    {
      failures := failures + 1;
      if failures >= config.threshold {
        mode := OPEN;
        openedAt := Some(now);
      }
    }
  }

  // ----------------------------------------------------------------- any history

  datatype Event = Start(at: real) | Peek(at: real) | Success(at: real) | Failure(at: real)

  function Step(c: Config, b: Snapshot, e: Event): Snapshot
    requires b.mode.OPEN? ==> b.openedAt.Some?
  {
    match e
    case Start(at) => Observed(c, b, at)
    case Peek(at) => Observed(c, b, at)
    case Success(at) => AfterSuccess(b)
    case Failure(at) => AfterFailure(c, b, at)
  }

  function Replay(c: Config, h: seq<Event>): (b: Snapshot)
    ensures b.mode.OPEN? ==> b.openedAt.Some?
  {
    if h == [] then FRESH else Step(c, Replay(c, h[..|h| - 1]), h[|h| - 1])
  }

  function FailuresSinceSuccess(h: seq<Event>): nat {
    if h == [] || h[|h| - 1].Success? then 0
    else FailuresSinceSuccess(h[..|h| - 1]) + if h[|h| - 1].Failure? then 1 else 0
  }

  function LastFailure(h: seq<Event>): Option<real> {
    if h == [] then None
    else if h[|h| - 1].Failure? then Some(h[|h| - 1].at)
    else LastFailure(h[..|h| - 1])
  }

  ghost predicate InTimeOrder(h: seq<Event>) {
    forall i, j :: 0 <= i < j < |h| ==> h[i].at <= h[j].at
  }

  function LastTime(h: seq<Event>): real
    requires h != []
  {
    h[|h| - 1].at
  }

  /** The breaker as a function of its history: it needs to remember nothing else. */
  ghost predicate Explains(c: Config, h: seq<Event>, b: Snapshot) {
    && b.failures == FailuresSinceSuccess(h)
    && (b.mode.CLOSED? <==> FailuresSinceSuccess(h) < c.threshold)
    && (!b.mode.CLOSED? ==> LastFailure(h).Some? && b.openedAt == LastFailure(h))
    && (b.mode.HALF_OPEN? ==> h != [] && LastTime(h) - LastFailure(h).value >= c.recovery)
  }

  lemma {:induction false} ReplayExplained(c: Config, h: seq<Event>)
    requires c.threshold >= 1 && InTimeOrder(h)
    ensures Explains(c, h, Replay(c, h))
    ensures Sound(c, Replay(c, h))
  {
    if h != [] {
      ReplayExplained(c, h[..|h| - 1]);
    }
  }

  /**
   Exactly when a call may start, whatever happened before and however calls overlap: fewer
   failures than the threshold since the last success, or the recovery time has passed
   since the last failure.
   */
  lemma AdmissionExact(c: Config, h: seq<Event>, now: real)
    requires c.threshold >= 1 && InTimeOrder(h + [Start(now)])
    ensures var b := Observed(c, Replay(c, h), now);
            !b.mode.OPEN?
            <==> (FailuresSinceSuccess(h) < c.threshold
                  || (LastFailure(h).Some? && now - LastFailure(h).value >= c.recovery))
  {
    var all := h + [Start(now)];
    forall i, j | 0 <= i < j < |h| ensures h[i].at <= h[j].at {
      assert all[i].at <= all[j].at;
    }
    ReplayExplained(c, h);
    if h != [] {
      assert all[|h| - 1].at <= all[|h|].at;
    }
  }

  /** Any failure outside CLOSED reopens the breaker, and a success from any state closes it. */
  lemma OutcomesDecide(c: Config, h: seq<Event>, at: real)
    requires c.threshold >= 1 && InTimeOrder(h)
    ensures !Replay(c, h).mode.CLOSED? ==>
              Replay(c, h + [Failure(at)]).mode.OPEN? && Replay(c, h + [Failure(at)]).openedAt == Some(at)
    ensures Replay(c, h + [Success(at)]).mode.CLOSED? && Replay(c, h + [Success(at)]).failures == 0
  {
    ReplayExplained(c, h);
    assert (h + [Failure(at)])[..|h|] == h && (h + [Success(at)])[..|h|] == h;
  }

  // ------------------------------------------------ a dead daemon, one caller at a time

  /** One attempt of a serial caller: when it asks, and when the call fails if it was let through. */
  datatype Attempt = Attempt(begin: real, end: real)

  ghost predicate Serial(run: seq<Attempt>) {
    && (forall i :: 0 <= i < |run| ==> 0.0 <= run[i].begin <= run[i].end)
    && (forall i :: 0 <= i < |run| - 1 ==> run[i].end <= run[i + 1].begin)
  }

  datatype SerialState = SerialState(b: Snapshot, started: nat, lastStart: real)

  function Attempted(c: Config, s: SerialState, a: Attempt): SerialState
    requires s.b.mode.OPEN? ==> s.b.openedAt.Some?
  {
    var b := Observed(c, s.b, a.begin);
    if b.mode.OPEN? then s.(b := b)
    else SerialState(AfterFailure(c, b, a.end), s.started + 1, a.begin)
  }

  function SerialRun(c: Config, run: seq<Attempt>): (s: SerialState)
    ensures s.b.mode.OPEN? ==> s.b.openedAt.Some?
  {
    if run == [] then SerialState(FRESH, 0, 0.0)
    else Attempted(c, SerialRun(c, run[..|run| - 1]), run[|run| - 1])
  }

  ghost predicate Paced(c: Config, s: SerialState) {
    && s.b.failures == s.started
    && (s.started < c.threshold ==> s.b.mode.CLOSED?)
    && (s.started >= c.threshold ==>
          && s.b.mode.OPEN? && s.b.openedAt.Some?
          && s.b.openedAt.value >= (s.started - c.threshold) as real * c.recovery
          && (s.started > c.threshold ==> s.lastStart >= (s.started - c.threshold) as real * c.recovery))
  }

  lemma {:induction false} SerialPaced(c: Config, run: seq<Attempt>)
    requires c.threshold >= 1 && c.recovery > 0.0 && Serial(run)
    ensures Paced(c, SerialRun(c, run))
  {
    if run != [] {
      var init, a := run[..|run| - 1], run[|run| - 1];
      SerialPaced(c, init);
      PacedStep(c, SerialRun(c, init), a);
    }
  }

  lemma PacedStep(c: Config, s: SerialState, a: Attempt)
    requires c.threshold >= 1 && c.recovery > 0.0 && 0.0 <= a.begin <= a.end
    requires Paced(c, s) && (s.b.mode.OPEN? ==> s.b.openedAt.Some?)
    ensures Paced(c, Attempted(c, s, a))
  {
    if s.started >= c.threshold {
      OneMorePeriod(s.started - c.threshold, c.recovery);
    }
  }

  lemma OneMorePeriod(n: nat, recovery: real)
    ensures (n + 1) as real * recovery == n as real * recovery + recovery
  {
  }

  /** Whole recovery periods in a stretch of time. */
  function Periods(elapsed: real, recovery: real): int
    requires recovery > 0.0
  {
    (elapsed / recovery).Floor
  }

  lemma PeriodsAtLeast(n: nat, recovery: real, elapsed: real)
    requires recovery > 0.0 && n as real * recovery <= elapsed
    ensures n <= Periods(elapsed, recovery)
  {
    var q := elapsed / recovery;
    QuotientAtLeast(n as real, recovery, elapsed, q);
  }

  lemma QuotientAtLeast(n: real, recovery: real, elapsed: real, q: real)
    requires recovery > 0.0 && n * recovery <= elapsed && q * recovery == elapsed
    ensures n <= q
  {
    assert (q - n) * recovery >= 0.0;
  }

  /** The calls beyond the threshold came a recovery period apart. */
  lemma BeyondThreshold(c: Config, run: seq<Attempt>, elapsed: real) returns (beyond: nat)
    requires c.threshold >= 1 && c.recovery > 0.0 && Serial(run) && elapsed >= 0.0
    requires forall i :: 0 <= i < |run| ==> run[i].begin <= elapsed
    ensures SerialRun(c, run).started <= c.threshold + beyond
    ensures beyond as real * c.recovery <= elapsed
  {
    SerialPaced(c, run);
    LastStartWithin(c, run, elapsed);
    var started := SerialRun(c, run).started;
    beyond := if started > c.threshold then started - c.threshold else 0;
  }

  /** When every call fails, at most threshold + floor(T / recovery) calls have started by time T. */
  lemma SerialBound(c: Config, run: seq<Attempt>, elapsed: real)
    requires c.threshold >= 1 && c.recovery > 0.0 && Serial(run) && elapsed >= 0.0
    requires forall i :: 0 <= i < |run| ==> run[i].begin <= elapsed
    ensures SerialRun(c, run).started <= c.threshold + Periods(elapsed, c.recovery)
  {
    var beyond := BeyondThreshold(c, run, elapsed);
    assert beyond <= Periods(elapsed, c.recovery) by { PeriodsAtLeast(beyond, c.recovery, elapsed); }
  }

  lemma {:induction false} LastStartWithin(c: Config, run: seq<Attempt>, elapsed: real)
    requires forall i :: 0 <= i < |run| ==> run[i].begin <= elapsed
    requires elapsed >= 0.0
    ensures SerialRun(c, run).lastStart <= elapsed
  {
    if run != [] { LastStartWithin(c, run[..|run| - 1], elapsed); }
  }
}
