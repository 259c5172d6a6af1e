/**
 Tunnel supervision: the idle watchdog over timed runs, and the counter of running tunnels.
 */
module Tunnel {

  datatype Option<+T> = None | Some(value: T)

  // ------------------------------------------------------------------- idle watchdog

  /** `ts` is the last activity, `wakeAt` when the sleep ends, `cut` when the relays were cancelled. */
  datatype Watch = Watch(ts: real, wakeAt: real, cut: Option<real>)

  function StartedAt(now: real): Watch {
    Watch(now, now, None)
  }

  function Touched(w: Watch, now: real): Watch {
    w.(ts := now)
  }

  /** One turn of the loop: cut, or sleep for what is left of the timeout. */
  function Woken(w: Watch, now: real, timeout: real): Watch {
    var idle := now - w.ts;
    if idle >= timeout then w.(cut := Some(now)) else w.(wakeAt := now + (timeout - idle))
  }

  class IdleWatchdog {
    var ts: real
    var wakeAt: real
    var cut: Option<real>
    const timeout: real

    constructor (now: real, timeout: real)
      ensures View() == StartedAt(now) && this.timeout == timeout
    {
      ts, wakeAt, cut, this.timeout := now, now, None, timeout;
    }

    ghost function View(): Watch
      reads this
    {
      Watch(ts, wakeAt, cut)
    }

    method Touch(now: real)
      modifies this`ts
      ensures View() == Touched(old(View()), now)
    {
      ts := now;
    }

    method Wake(now: real)
      requires cut.None? && now >= wakeAt
      modifies this`wakeAt, this`cut
      ensures View() == Woken(old(View()), now, timeout)
    {
      var idleFor := now - ts;
      if idleFor >= timeout {
        cut := Some(now);
        return;
      }
      wakeAt := now + (timeout - idleFor);
    }
  }

  datatype Event = Touch(at: real) | Wake(at: real)

  function After(w: Watch, e: Event, timeout: real): Watch {
    if w.cut.Some? then w
    else match e
      case Touch(at) => Touched(w, at)
      case Wake(at) => Woken(w, at, timeout)
  }

  function Watched(start: real, h: seq<Event>, timeout: real): Watch {
    if h == [] then StartedAt(start) else After(Watched(start, h[..|h| - 1], timeout), h[|h| - 1], timeout)
  }

  /** Time moves forward and a sleep never ends early; it may end late. */
  ghost predicate Timed(start: real, h: seq<Event>, timeout: real) {
    && (forall i :: 0 <= i < |h| ==> start <= h[i].at)
    && (forall i, j :: 0 <= i < j < |h| ==> h[i].at <= h[j].at)
    && (forall i :: 0 <= i < |h| && h[i].Wake? ==> h[i].at >= Watched(start, h[..i], timeout).wakeAt)
  }

  /** With ideal timers nothing happens past a due wake-up before the wake-up itself. */
  ghost predicate Ideal(start: real, h: seq<Event>, timeout: real) {
    forall i :: 0 <= i < |h| && Watched(start, h[..i], timeout).cut.None? ==>
      && h[i].at <= Watched(start, h[..i], timeout).wakeAt
  }

  lemma TimedPrefix(start: real, h: seq<Event>, timeout: real, n: nat)
    requires n <= |h| && Timed(start, h, timeout)
    ensures Timed(start, h[..n], timeout)
    ensures Ideal(start, h, timeout) ==> Ideal(start, h[..n], timeout)
  {
    forall i | 0 <= i < n ensures h[..n][..i] == h[..i] {}
  }

  /** No byte moved in either direction after `since`, up to `till`. */
  ghost predicate Silent(h: seq<Event>, since: real, till: real) {
    forall i :: 0 <= i < |h| && h[i].Touch? && h[i].at <= till ==> h[i].at <= since
  }

  ghost predicate WatchInv(start: real, h: seq<Event>, timeout: real) {
    var w := Watched(start, h, timeout);
    && start <= w.ts
    && (w.cut.None? ==> w.wakeAt <= w.ts + timeout)
    && (w.cut.None? ==> forall i :: 0 <= i < |h| && h[i].Touch? ==> h[i].at <= w.ts)
    && (w.cut.None? && h != [] ==> w.ts <= h[|h| - 1].at)
    && (w.cut.Some? ==> w.cut.value >= w.ts + timeout)
  }

  /** Event `n` is the wake-up that cut the tunnel. */
  ghost predicate CutAt(start: real, h: seq<Event>, timeout: real, n: int) {
    && 0 <= n < |h| && h[n].Wake?
    && Watched(start, h[..n], timeout).cut.None?
    && Watched(start, h, timeout).cut == Some(h[n].at)
    && Watched(start, h, timeout).ts == Watched(start, h[..n], timeout).ts
  }

  lemma {:induction false} WatchSafe(start: real, h: seq<Event>, timeout: real)
    requires timeout > 0.0 && Timed(start, h, timeout)
    ensures WatchInv(start, h, timeout)
  {
    if h != [] {
      TimedPrefix(start, h, timeout, |h| - 1);
      WatchSafe(start, h[..|h| - 1], timeout);
      SafeStep(start, h, timeout);
    }
  }

  lemma SafeStep(start: real, h: seq<Event>, timeout: real)
    requires timeout > 0.0 && h != [] && WatchInv(start, h[..|h| - 1], timeout)
    requires start <= h[|h| - 1].at && (|h| > 1 ==> h[|h| - 2].at <= h[|h| - 1].at)
    ensures WatchInv(start, h, timeout)
  {
    var n := |h| - 1;
    var init, e := h[..n], h[n];
    var w, r := Watched(start, init, timeout), Watched(start, h, timeout);
    assert r == After(w, e, timeout);
    assert n > 0 ==> init[|init| - 1] == h[n - 1];
    assert w.cut.None? && n > 0 ==> w.ts <= h[n - 1].at;
    if r.cut.None? {
      forall i | 0 <= i < |h| && h[i].Touch? ensures h[i].at <= r.ts {
        if i < n { assert init[i] == h[i]; }
      }
    }
  }

  lemma {:induction false} CutSomewhere(start: real, h: seq<Event>, timeout: real) returns (n: nat)
    requires Watched(start, h, timeout).cut.Some?
    ensures CutAt(start, h, timeout, n)
  {
    var init := h[..|h| - 1];
    if Watched(start, init, timeout).cut.Some? {
      n := CutSomewhere(start, init, timeout);
      assert h[..n] == init[..n];
    } else {
      n := |h| - 1;
    }
  }

  /** The next wake-up is never later than last activity plus timeout. */
  lemma WakeIsDue(start: real, h: seq<Event>, timeout: real)
    requires timeout > 0.0 && Timed(start, h, timeout)
    ensures var w := Watched(start, h, timeout); w.cut.None? ==> w.wakeAt <= w.ts + timeout
  {
    WatchSafe(start, h, timeout);
  }

  /** However late the timers: the watchdog cuts only after `timeout` without a byte either way. */
  lemma CutOnlyWhenSilent(start: real, h: seq<Event>, timeout: real, n: nat)
    requires timeout > 0.0 && Timed(start, h, timeout) && CutAt(start, h, timeout, n)
    ensures Silent(h[..n], h[n].at - timeout, h[n].at)
    ensures h[n].at >= start + timeout
  {
    TimedPrefix(start, h, timeout, n);
    WatchSafe(start, h[..n], timeout);
    WatchSafe(start, h, timeout);
  }

  /** With ideal timers the cut comes exactly `timeout` after the last byte, and not even one event later. */
  lemma IdealCutExact(start: real, h: seq<Event>, timeout: real)
    requires timeout > 0.0 && Timed(start, h, timeout) && Ideal(start, h, timeout)
    ensures var w := Watched(start, h, timeout);
            && (w.cut.Some? ==> w.cut.value == w.ts + timeout)
            && (w.cut.None? && h != [] ==> h[|h| - 1].at <= w.ts + timeout)
  {
    WatchSafe(start, h, timeout);
    var w := Watched(start, h, timeout);
    if w.cut.Some? {
      var n := CutSomewhere(start, h, timeout);
      TimedPrefix(start, h, timeout, n);
      WatchSafe(start, h[..n], timeout);
    } else if h != [] {
      var n := |h| - 1;
      TimedPrefix(start, h, timeout, n);
      WatchSafe(start, h[..n], timeout);
    }
  }

  // ----------------------------------------- the watchdog against the rule it implements

  /** The rule: a tunnel is cut `timeout` after the first activity that no other follows in time. */
  function CutTime(last: real, touches: seq<real>, timeout: real, touchWins: bool): real
    decreases |touches|
  {
    if touches == [] || touches[0] - last > timeout || (touches[0] - last == timeout && !touchWins) then last + timeout
    else CutTime(touches[0], touches[1..], timeout, touchWins)
  }

  /** The sleeping loop, woken exactly when due; `touchWins` settles what happens at the same instant. */
  function Simulated(w: Watch, touches: seq<real>, timeout: real, touchWins: bool): real
    requires timeout > 0.0 && w.cut.None? && w.wakeAt <= w.ts + timeout
    requires Increasing(w.ts, touches)
    decreases |touches|, if w.wakeAt < w.ts + timeout then 1 else 0
  {
    if touches != [] && (touches[0] < w.wakeAt || (touches[0] == w.wakeAt && touchWins)) then
      Simulated(Touched(w, touches[0]), touches[1..], timeout, touchWins)
    else
      var r := Woken(w, w.wakeAt, timeout);
      if r.cut.Some? then r.cut.value else Simulated(r, touches, timeout, touchWins)
  }

  predicate Increasing(last: real, touches: seq<real>) {
    && (forall i :: 0 <= i < |touches| ==> last <= touches[i])
    && (forall i, j :: 0 <= i < j < |touches| ==> touches[i] <= touches[j])
  }

  /** The loop of sleeps cuts at exactly the moment the rule names, for every pattern of traffic. */
  lemma {:induction false} WatchdogFollowsRule(w: Watch, touches: seq<real>, timeout: real, touchWins: bool)
    requires timeout > 0.0 && w.cut.None? && w.wakeAt <= w.ts + timeout
    requires Increasing(w.ts, touches)
    ensures Simulated(w, touches, timeout, touchWins) == CutTime(w.ts, touches, timeout, touchWins)
    decreases |touches|, if w.wakeAt < w.ts + timeout then 1 else 0
  {
    if touches != [] && (touches[0] < w.wakeAt || (touches[0] == w.wakeAt && touchWins)) {
      WatchdogFollowsRule(Touched(w, touches[0]), touches[1..], timeout, touchWins);
    } else {
      var r := Woken(w, w.wakeAt, timeout);
      if r.cut.None? { WatchdogFollowsRule(r, touches, timeout, touchWins); }
    }
  }

  /** A tunnel whose every gap stays below the timeout outlives all of its traffic. */
  lemma {:induction false} BusyTunnelLives(last: real, touches: seq<real>, timeout: real, touchWins: bool)
    requires timeout > 0.0 && Increasing(last, touches)
    requires touches != [] ==> touches[0] - last < timeout
    requires forall i :: 0 <= i < |touches| - 1 ==> touches[i + 1] - touches[i] < timeout
    ensures CutTime(last, touches, timeout, touchWins)
         == (if touches == [] then last else touches[|touches| - 1]) + timeout
    decreases |touches|
  {
    if touches != [] {
      var rest := touches[1..];
      forall i | 0 <= i < |rest| - 1 ensures rest[i + 1] - rest[i] < timeout {
        assert touches[i + 2] - touches[i + 1] < timeout;
      }
      assert rest != [] ==> touches[1] - touches[0] < timeout;
      BusyTunnelLives(touches[0], rest, timeout, touchWins);
    }
  }

  // --------------------------------------------------------------------------- slots

  datatype SlotStep = Open(id: nat) | Close(id: nat)

  datatype SlotState = SlotState(active: int, running: set<nat>, refused: set<nat>)

  function SlotNext(s: SlotState, step: SlotStep, max: int): SlotState {
    match step
    case Open(id) =>
      if id in s.running then s
      else if s.active >= max then s.(refused := s.refused + {id})
      else s.(active := s.active + 1, running := s.running + {id})
    case Close(id) =>
      if id in s.running then s.(active := s.active - 1, running := s.running - {id}) else s
  }

  /** The counter, and for the proof which tunnels it counts. */
  class Slots {
    var active: int
    ghost var running: set<nat>
    ghost var refused: set<nat>

    constructor ()
      ensures View() == SlotState(0, {}, {})
    {
      active, running, refused := 0, {}, {};
    }

    ghost function View(): SlotState
      reads this
    {
      SlotState(active, running, refused)
    }

    method TryAcquire(max: int, ghost id: nat) returns (ok: bool)
      requires id !in running
      modifies this
      ensures ok <==> id in running
      ensures View() == SlotNext(old(View()), Open(id), max)
    {
      if active >= max {
        refused := refused + {id};
        return false;
      }
      active, running := active + 1, running + {id};
      return true;
    }

    method Release(max: int, ghost id: nat)
      requires id in running
      modifies this
      ensures View() == SlotNext(old(View()), Close(id), max)
    {
      active, running := active - 1, running - {id};
    }

    /** A tunnel from end to end: whatever its outcome, the slot is given back. */
    method RunTunnel(max: int, ghost id: nat) returns (served: bool)
      requires id !in running
      modifies this
      ensures served <==> old(active) < max
      ensures active == old(active) && running == old(running)
      ensures View() == SlotNext(SlotNext(old(View()), Open(id), max), Close(id), max)
    {
      served := TryAcquire(max, id);
      if served {
        Release(max, id);
      }
    }
  }

  function SlotRun(steps: seq<SlotStep>, max: int): SlotState {
    if steps == [] then SlotState(0, {}, {})
    else SlotNext(SlotRun(steps[..|steps| - 1], max), steps[|steps| - 1], max)
  }

  /** The counter is the number of tunnels running, never past the limit, in every run. */
  lemma {:induction false} SlotsExact(steps: seq<SlotStep>, max: nat)
    ensures var s := SlotRun(steps, max); s.active == |s.running| && 0 <= s.active <= max
  {
    if steps != [] { SlotsExact(steps[..|steps| - 1], max); }
  }
}
