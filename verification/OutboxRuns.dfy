/**
 Every run of the outbox: producers enqueue, one worker fetches a batch and delivers it row
 by row, cleanup removes old deliveries, and the worker may lose its batch at any time.
 */
module OutboxRuns {
  import opened Outbox

  /** `tries` counts delivery attempts, `accepted` inserted rows; the times of failures and deliveries are history. */
  datatype World = World(
    rows: Table,
    batch: seq<(EventId, Row)>,
    clock: real,
    accepted: nat,
    tries: nat,
    firstFail: map<EventId, real>,
    lastFail: map<EventId, real>,
    delivered: map<EventId, real>)

  const EMPTY := World(map[], [], 0.0, 0, 0, map[], map[], map[])

  datatype Step =
    | Arrive(at: real, e: Event)
    | Fetch(at: real, batchSize: nat, batch: seq<(EventId, Row)>)
    | Deliver(at: real, error: Option<string>)
    | Cleanup(at: real, retentionHours: int)
    | LoseBatch(at: real)

  ghost predicate Enabled(w: World, s: Step) {
    && w.clock <= s.at
    && (s.Fetch? ==> w.batch == [] && IsBatch(w.rows, s.batchSize, Truncate(s.at), s.batch))
    && (s.Deliver? ==> w.batch != [])
  }

  function Next(w: World, s: Step, max: int): World {
    match s
    case Arrive(at, e) =>
      w.(clock := at, rows := Enqueued(w.rows, e), accepted := if Refused(w.rows, e) then w.accepted else w.accepted + 1)
    case Fetch(at, _, batch) => w.(clock := at, batch := batch)
    case Deliver(at, error) =>
      if w.batch == [] then w
      else
        var (id, row) := w.batch[0];
        var after := w.(clock := at, batch := w.batch[1..], tries := w.tries + 1,
                        rows := Delivered(w.rows, id, row.attempts, error, at, max));
        if error.None? then after.(delivered := w.delivered[id := at])
        else after.(firstFail := if row.attempts == 0 then w.firstFail[id := at] else w.firstFail,
                    lastFail := w.lastFail[id := at])
    case Cleanup(at, retentionHours) => w.(clock := at, rows := Cleaned(w.rows, at, retentionHours))
    case LoseBatch(at) => w.(clock := at, batch := [])
  }

  ghost predicate IsRun(w: World, steps: seq<Step>, max: int)
    decreases |steps|
  {
    steps == [] || (Enabled(w, steps[0]) && IsRun(Next(w, steps[0], max), steps[1..], max))
  }

  function Run(w: World, steps: seq<Step>, max: int): World
    decreases |steps|
  {
    if steps == [] then w else Run(Next(w, steps[0], max), steps[1..], max)
  }

  // ----------------------------------------------------------------------- invariant

  /** Seconds that `n` backoffs add up to. */
  function Window(n: nat): nat {
    if n == 0 then 0 else Window(n - 1) + Backoff(n - 1)
  }

  predicate RowOk(r: Row, max: int) {
    && r.state != PROCESSING
    && r.attempts <= max
    && (r.state == DEAD_LETTER <==> r.attempts == max)
    && (r.state == DELIVERED ==> r.deliveredAt.Some?)
  }

  /** The failure history of a row explains its due time. */
  predicate HistoryOk(w: World, id: EventId)
    requires id in w.rows
  {
    var r := w.rows[id];
    if r.attempts == 0 then r.nextAttempt == r.createdAt else
      && id in w.firstFail && id in w.lastFail
      && 0.0 <= w.lastFail[id] <= w.clock
      && Truncate(w.lastFail[id]) >= Truncate(w.firstFail[id]) + Window(r.attempts - 1)
      && r.nextAttempt == Truncate(w.lastFail[id]) + Backoff(r.attempts - 1)
  }

  /** A delivered row carries the second of its successful delivery. */
  predicate DeliveryOk(w: World, id: EventId)
    requires id in w.rows
  {
    w.rows[id].state == DELIVERED ==>
      id in w.delivered && w.delivered[id] <= w.clock && w.rows[id].deliveredAt == Some(Truncate(w.delivered[id]))
  }

  ghost predicate UniqueKeys(t: Table) {
    forall a, b :: a in t && b in t && a != b ==> t[a].dedupe != t[b].dedupe
  }

  /** Fetched rows are still exactly as they were fetched. */
  ghost predicate BatchFresh(w: World) {
    && (forall i :: 0 <= i < |w.batch| ==>
          Ready(w.rows, w.batch[i].0, Truncate(w.clock)) && w.rows[w.batch[i].0] == w.batch[i].1)
    && (forall i, j :: 0 <= i < j < |w.batch| ==> w.batch[i].0 != w.batch[j].0)
  }

  ghost predicate Inv(w: World, max: int) {
    && w.clock >= 0.0
    && UniqueKeys(w.rows)
    && (forall id :: id in w.rows ==> RowOk(w.rows[id], max))
    && (forall id :: id in w.rows ==> HistoryOk(w, id) && DeliveryOk(w, id))
    && BatchFresh(w)
  }

  lemma TruncateMonotone(a: real, b: real)
    requires 0.0 <= a <= b
    ensures Truncate(a) <= Truncate(b)
  {
  }

  lemma ArriveInv(w: World, at: real, e: Event, max: int)
    requires max >= 1 && Inv(w, max) && w.clock <= at
    ensures Inv(Next(w, Arrive(at, e), max), max)
  {
    var r := Next(w, Arrive(at, e), max);
    TruncateMonotone(w.clock, at);
    forall id | id in r.rows ensures HistoryOk(r, id) && DeliveryOk(r, id) && RowOk(r.rows[id], max) {
      assert id in w.rows ==> r.rows[id] == w.rows[id] && HistoryOk(w, id) && DeliveryOk(w, id);
    }
  }

  lemma CleanupInv(w: World, at: real, retentionHours: int, max: int)
    requires max >= 1 && Inv(w, max) && w.clock <= at
    ensures Inv(Next(w, Cleanup(at, retentionHours), max), max)
  {
    var r := Next(w, Cleanup(at, retentionHours), max);
    TruncateMonotone(w.clock, at);
    forall id | id in r.rows ensures HistoryOk(r, id) && DeliveryOk(r, id) { assert HistoryOk(w, id) && DeliveryOk(w, id); }
  }

  lemma FetchInv(w: World, at: real, batchSize: nat, batch: seq<(EventId, Row)>, max: int)
    requires max >= 1 && Inv(w, max) && Enabled(w, Fetch(at, batchSize, batch))
    ensures Inv(Next(w, Fetch(at, batchSize, batch), max), max)
  {
    var r := Next(w, Fetch(at, batchSize, batch), max);
    forall id | id in r.rows ensures HistoryOk(r, id) && DeliveryOk(r, id) { assert HistoryOk(w, id) && DeliveryOk(w, id); }
  }

  /** A failed attempt comes no earlier than the row was due, so the window grows by its backoff. */
  lemma FailureHistory(w: World, at: real, error: string, max: int)
    requires max >= 1 && Inv(w, max) && w.batch != [] && w.clock <= at
    ensures var r := Next(w, Deliver(at, Some(error)), max);
            && w.batch[0].0 in r.rows && HistoryOk(r, w.batch[0].0) && DeliveryOk(r, w.batch[0].0)
            && RowOk(r.rows[w.batch[0].0], max) && r.rows[w.batch[0].0].dedupe == w.batch[0].1.dedupe
  {
    var (id, row) := w.batch[0];
    assert Ready(w.rows, id, Truncate(w.clock)) && w.rows[id] == row;
    assert HistoryOk(w, id) && RowOk(row, max);
    TruncateMonotone(w.clock, at);
    TruncateShift(at, Backoff(row.attempts));
  }

  lemma TruncateShift(at: real, n: nat)
    requires 0.0 <= at
    ensures Truncate(at + n as real) == Truncate(at) + n
  {
  }

  lemma SuccessHistory(w: World, at: real, max: int)
    requires max >= 1 && Inv(w, max) && w.batch != [] && w.clock <= at
    ensures var r, x := Next(w, Deliver(at, None), max), w.batch[0].0;
            x in r.rows && HistoryOk(r, x) && DeliveryOk(r, x) && RowOk(r.rows[x], max) && r.rows[x].dedupe == w.batch[0].1.dedupe
  {
    var (id, row) := w.batch[0];
    assert Ready(w.rows, id, Truncate(w.clock)) && w.rows[id] == row;
    assert HistoryOk(w, id) && RowOk(row, max);
  }

  lemma DeliverRow(w: World, at: real, error: Option<string>, max: int, x: EventId)
    requires max >= 1 && Inv(w, max) && w.batch != [] && w.clock <= at && x in w.rows
    ensures var r := Next(w, Deliver(at, error), max);
            x in r.rows && HistoryOk(r, x) && DeliveryOk(r, x) && RowOk(r.rows[x], max) && r.rows[x].dedupe == w.rows[x].dedupe
  {
    assert Ready(w.rows, w.batch[0].0, Truncate(w.clock)) && w.rows[w.batch[0].0] == w.batch[0].1;
    if x != w.batch[0].0 {
      assert HistoryOk(w, x) && DeliveryOk(w, x) && RowOk(w.rows[x], max);
      OtherRow(w, at, error, max, x);
    } else if error.Some? {
      FailureHistory(w, at, error.value, max);
    } else {
      SuccessHistory(w, at, max);
    }
  }

  lemma OtherRow(w: World, at: real, error: Option<string>, max: int, x: EventId)
    requires w.batch != [] && w.clock <= at && x in w.rows && x != w.batch[0].0 && HistoryOk(w, x) && DeliveryOk(w, x)
    ensures var r := Next(w, Deliver(at, error), max); x in r.rows && r.rows[x] == w.rows[x] && HistoryOk(r, x) && DeliveryOk(r, x)
  {
  }

  lemma DeliverInv(w: World, at: real, error: Option<string>, max: int)
    requires max >= 1 && Inv(w, max) && w.batch != [] && w.clock <= at
    ensures Inv(Next(w, Deliver(at, error), max), max)
  {
    var r := Next(w, Deliver(at, error), max);
    assert Ready(w.rows, w.batch[0].0, Truncate(w.clock));
    assert r.rows.Keys == w.rows.Keys;
    TruncateMonotone(w.clock, at);
    forall x | x in r.rows ensures HistoryOk(r, x) && DeliveryOk(r, x) && RowOk(r.rows[x], max) && r.rows[x].dedupe == w.rows[x].dedupe {
      DeliverRow(w, at, error, max, x);
    }
    forall i | 0 <= i < |r.batch|
      ensures Ready(r.rows, r.batch[i].0, Truncate(r.clock)) && r.rows[r.batch[i].0] == r.batch[i].1
    {
      assert r.batch[i] == w.batch[i + 1] && w.batch[0].0 != w.batch[i + 1].0;
    }
  }

  lemma StepKeepsInv(w: World, s: Step, max: int)
    requires max >= 1 && Inv(w, max) && Enabled(w, s)
    ensures Inv(Next(w, s, max), max)
  {
    match s
    case Arrive(at, e) => ArriveInv(w, at, e, max);
    case Fetch(at, batchSize, batch) => FetchInv(w, at, batchSize, batch, max);
    case Deliver(at, error) => DeliverInv(w, at, error, max);
    case Cleanup(at, retentionHours) => CleanupInv(w, at, retentionHours, max);
    case LoseBatch(at) =>
      var r := Next(w, s, max);
      forall id | id in r.rows ensures HistoryOk(r, id) && DeliveryOk(r, id) { assert HistoryOk(w, id) && DeliveryOk(w, id); }
  }

  /** One row per dedupe key, attempts never past the maximum, dead exactly at the maximum: in every run. */
  lemma {:induction false} RunKeepsInv(w: World, steps: seq<Step>, max: int)
    requires max >= 1 && Inv(w, max) && IsRun(w, steps, max)
    ensures Inv(Run(w, steps, max), max)
    decreases |steps|
  {
    if steps != [] {
      StepKeepsInv(w, steps[0], max);
      RunKeepsInv(Next(w, steps[0], max), steps[1..], max);
    }
  }

  // ------------------------------------------------------------------ nothing is lost

  predicate Settled(r: Row) {
    r.state == DELIVERED || r.state == DEAD_LETTER
  }

  /** Only cleanup removes a row, only a delivered one, only past retention; settled rows never change. */
  lemma StepLosesNothing(w: World, s: Step, max: int, id: EventId)
    requires max >= 1 && Inv(w, max) && Enabled(w, s) && id in w.rows
    ensures var r := Next(w, s, max);
            && (id !in r.rows ==>
                  s.Cleanup? && w.rows[id].state == DELIVERED
                  && w.rows[id].deliveredAt.value < Truncate(s.at) - s.retentionHours * 3600)
            && (id in r.rows && Settled(w.rows[id]) ==> r.rows[id] == w.rows[id])
            && (id in r.rows ==> r.rows[id].dedupe == w.rows[id].dedupe && r.rows[id].payload == w.rows[id].payload && r.rows[id].createdAt == w.rows[id].createdAt)
  {
    match s
    case Deliver(at, error) => DeliverLosesNothing(w, at, error, max, id);
    case Arrive(_, _) =>
    case Fetch(_, _, _) =>
    case Cleanup(_, _) =>
    case LoseBatch(_) =>
  }

  lemma DeliverLosesNothing(w: World, at: real, error: Option<string>, max: int, id: EventId)
    requires Inv(w, max) && w.batch != [] && id in w.rows
    ensures var r := Next(w, Deliver(at, error), max);
            && id in r.rows
            && (Settled(w.rows[id]) ==> r.rows[id] == w.rows[id])
            && r.rows[id].dedupe == w.rows[id].dedupe && r.rows[id].payload == w.rows[id].payload && r.rows[id].createdAt == w.rows[id].createdAt
  {
    assert Ready(w.rows, w.batch[0].0, Truncate(w.clock));
  }

  /** Whatever run: a row that is gone at the end was delivered at some point of it. */
  lemma {:induction false} LostOnlyAfterDelivery(w: World, steps: seq<Step>, max: int, id: EventId) returns (i: nat)
    requires max >= 1 && Inv(w, max) && IsRun(w, steps, max)
    requires id in w.rows && id !in Run(w, steps, max).rows
    ensures i <= |steps| && id in Run(w, steps[..i], max).rows
    ensures Run(w, steps[..i], max).rows[id].state == DELIVERED
    decreases |steps|
  {
    if w.rows[id].state == DELIVERED {
      i := 0;
      assert steps[..0] == [];
    } else {
      StepKeepsInv(w, steps[0], max);
      StepLosesNothing(w, steps[0], max, id);
      var j := LostOnlyAfterDelivery(Next(w, steps[0], max), steps[1..], max, id);
      i := j + 1;
      assert steps[..i][1..] == steps[1..][..j] && steps[..i][0] == steps[0];
    }
  }

  /**
   Retention, in any run: cleanup removes a row iff it was delivered more than the retention
   before, by the whole seconds of the two moments. A younger delivery and any other row stay.
   */
  lemma RetentionExact(steps: seq<Step>, max: int, at: real, retentionHours: int, id: EventId)
    requires max >= 1 && IsRun(EMPTY, steps, max) && Run(EMPTY, steps, max).clock <= at
    requires id in Run(EMPTY, steps, max).rows
    ensures var w := Run(EMPTY, steps, max);
            (id !in Next(w, Cleanup(at, retentionHours), max).rows <==>
               w.rows[id].state == DELIVERED && id in w.delivered
               && Truncate(w.delivered[id]) < Truncate(at) - 3600 * retentionHours)
  {
    RunKeepsInv(EMPTY, steps, max);
    assert DeliveryOk(Run(EMPTY, steps, max), id);
  }

  /** Step `i` of the run is a successful delivery of the row. */
  ghost predicate DeliveredBy(w: World, steps: seq<Step>, max: int, i: nat, id: EventId) {
    && i < |steps| && steps[i].Deliver? && steps[i].error.None?
    && var before := Run(w, steps[..i], max); before.batch != [] && before.batch[0].0 == id && id in before.rows
  }

  /** The recorded moment is that of the last successful delivery of the row, and there was one. */
  lemma {:induction false} DeliveredOnRecord(w: World, steps: seq<Step>, max: int, id: EventId) returns (i: nat)
    requires max >= 1 && Inv(w, max) && IsRun(w, steps, max)
    requires id in Run(w, steps, max).delivered && id !in w.delivered
    ensures DeliveredBy(w, steps, max, i, id) && steps[i].at == Run(w, steps, max).delivered[id]
    ensures forall j :: i < j < |steps| ==> !DeliveredBy(w, steps, max, j, id)
    decreases |steps|
  {
    var n := |steps| - 1;
    RunSnoc(w, steps, max);
    NotDelivered(Run(w, steps[..n], max), steps[n], max, id);
    if DeliveredBy(w, steps, max, n, id) {
      i := n;
    } else {
      i := DeliveredOnRecord(w, steps[..n], max, id);
      DeliveredByPrefix(w, steps, max, n, id);
    }
  }

  /** Only a successful delivery of the row records a moment for it. */
  lemma NotDelivered(w: World, s: Step, max: int, id: EventId)
    requires Inv(w, max) && Enabled(w, s)
    ensures if s.Deliver? && s.error.None? && w.batch[0].0 == id then Next(w, s, max).delivered == w.delivered[id := s.at] && id in w.rows
            else (id in Next(w, s, max).delivered <==> id in w.delivered)
                 && (id in w.delivered ==> Next(w, s, max).delivered[id] == w.delivered[id])
  {
    if s.Deliver? { assert Ready(w.rows, w.batch[0].0, Truncate(w.clock)); }
  }

  lemma DeliveredByPrefix(w: World, steps: seq<Step>, max: int, n: nat, id: EventId)
    requires n <= |steps|
    ensures forall j: nat :: j < n ==> (DeliveredBy(w, steps, max, j, id) <==> DeliveredBy(w, steps[..n], max, j, id))
  {
    forall j: nat | j < n ensures DeliveredBy(w, steps, max, j, id) <==> DeliveredBy(w, steps[..n], max, j, id) {
      assert steps[..n][..j] == steps[..j];
    }
  }

  lemma {:induction false} RunSnoc(w: World, steps: seq<Step>, max: int)
    requires steps != [] && max >= 1 && Inv(w, max) && IsRun(w, steps, max)
    ensures var n := |steps| - 1;
            && IsRun(w, steps[..n], max) && Inv(Run(w, steps[..n], max), max)
            && Enabled(Run(w, steps[..n], max), steps[n])
            && Run(w, steps, max) == Next(Run(w, steps[..n], max), steps[n], max)
    decreases |steps|
  {
    var n := |steps| - 1;
    if n > 0 {
      StepKeepsInv(w, steps[0], max);
      RunSnoc(Next(w, steps[0], max), steps[1..], max);
      assert steps[1..][..n - 1] == steps[..n][1..];
    } else {
      assert steps[..0] == [] && steps[1..] == [];
    }
  }

  /** Every row of a run was accepted from some event, whose key, payload and creation second it keeps. */
  lemma {:induction false} RowsWereAccepted(w: World, steps: seq<Step>, max: int, id: EventId)
    requires max >= 1 && Inv(w, max) && IsRun(w, steps, max) && id in Run(w, steps, max).rows
    ensures var r := Run(w, steps, max).rows[id];
            || (id in w.rows && r.dedupe == w.rows[id].dedupe && r.payload == w.rows[id].payload && r.createdAt == w.rows[id].createdAt)
            || exists i :: 0 <= i < |steps| && steps[i].Arrive? && FromEvent(r, id, steps[i].e)
    decreases |steps|
  {
    if steps != [] {
      var n := |steps| - 1;
      RunSnoc(w, steps, max);
      var before := Run(w, steps[..n], max);
      if id in before.rows {
        RowsWereAccepted(w, steps[..n], max, id);
        StepLosesNothing(before, steps[n], max, id);
      } else {
        NewRow(before, steps[n], max, id);
      }
    }
  }

  predicate FromEvent(r: Row, id: EventId, e: Event) {
    id == e.id && r.dedupe == e.dedupe && r.payload == e.payload && r.createdAt == Truncate(e.createdAt)
  }

  lemma NewRow(w: World, s: Step, max: int, id: EventId)
    requires Inv(w, max) && Enabled(w, s) && id !in w.rows && id in Next(w, s, max).rows
    ensures s.Arrive? && FromEvent(Next(w, s, max).rows[id], id, s.e)
  {
  }

  /**
   One delivery, of the row at the head of the batch: on success it is delivered and nothing
   else about it changes; on failure it has one more attempt, the error, at most 64 characters
   of it, and is dead or pending. Every other row stays as it is.
   */
  lemma DeliveryExact(w: World, at: real, error: Option<string>, max: int)
    requires max >= 1 && Inv(w, max) && w.batch != []
    ensures var r, id := Next(w, Deliver(at, error), max), w.batch[0].0;
            && id in w.rows && r.rows.Keys == w.rows.Keys
            && (forall x :: x in w.rows && x != id ==> r.rows[x] == w.rows[x])
            && var before, after := w.rows[id], r.rows[id];
               if error.None? then after == before.(state := DELIVERED, deliveredAt := after.deliveredAt)
               else && after == before.(state := after.state, attempts := before.attempts + 1,
                                        nextAttempt := after.nextAttempt, lastError := after.lastError)
                    && after.state == (if before.attempts + 1 == max then DEAD_LETTER else PENDING)
                    && after.lastError.Some? && after.lastError.value <= error.value
                    && |after.lastError.value| == if |error.value| < 64 then |error.value| else 64
  {
    assert Ready(w.rows, w.batch[0].0, Truncate(w.clock));
    assert RowOk(w.rows[w.batch[0].0], max);
  }

  // --------------------------------------------------------------- finitely many tries

  function Left(r: Row, max: int): nat {
    if r.state == PENDING && r.attempts < max then max - r.attempts else 0
  }

  /** Attempts the pending rows may still use up. */
  ghost function Remaining(t: Table, max: int): nat
    decreases |t|
  {
    if t == map[] then 0
    else
      var id :| id in t;
      Left(t[id], max) + Remaining(t - {id}, max)
  }

  lemma {:induction false} RemainingSplit(t: Table, max: int, id: EventId)
    requires id in t
    ensures Remaining(t, max) == Left(t[id], max) + Remaining(t - {id}, max)
    decreases |t|
  {
    var x :| x in t && Remaining(t, max) == Left(t[x], max) + Remaining(t - {x}, max);
    if x != id {
      RemainingSplit(t - {x}, max, id);
      RemainingSplit(t - {id}, max, x);
      assert t - {x} - {id} == t - {id} - {x};
    }
  }

  lemma RemainingUpdate(t: Table, max: int, id: EventId, r: Row)
    ensures Remaining(t[id := r], max) + (if id in t then Left(t[id], max) else 0) == Remaining(t, max) + Left(r, max)
  {
    RemainingSplit(t[id := r], max, id);
    if id in t {
      RemainingSplit(t, max, id);
      assert t[id := r] - {id} == t - {id};
    } else {
      assert t[id := r] - {id} == t;
    }
  }

  lemma {:induction false} RemainingSub(a: Table, b: Table, max: int)
    requires forall id :: id in a ==> id in b && a[id] == b[id]
    ensures Remaining(a, max) <= Remaining(b, max)
    decreases |a|
  {
    if a != map[] {
      var id :| id in a;
      RemainingSplit(a, max, id);
      RemainingSplit(b, max, id);
      RemainingSub(a - {id}, b - {id}, max);
    }
  }

  /** Every delivery attempt, failed or not, uses up at least one of the remaining attempts. */
  lemma DeliveryDecreases(w: World, at: real, error: Option<string>, max: int)
    requires max >= 1 && Inv(w, max) && w.batch != []
    ensures Remaining(Next(w, Deliver(at, error), max).rows, max) < Remaining(w.rows, max)
  {
    var (id, row) := w.batch[0];
    assert Ready(w.rows, id, Truncate(w.clock)) && w.rows[id] == row && RowOk(row, max);
    var r := Next(w, Deliver(at, error), max);
    RemainingUpdate(w.rows, max, id, r.rows[id]);
    assert w.rows[id := r.rows[id]] == r.rows;
  }

  /** Attempts accepted events have brought in and that have not been made. */
  function Unspent(w: World, max: int): int {
    max * w.accepted - w.tries
  }

  /** A new row brings `max` attempts with it, a refused one none. */
  lemma ArriveBudget(w: World, at: real, e: Event, max: int)
    requires max >= 1
    ensures var r := Next(w, Arrive(at, e), max);
            Remaining(r.rows, max) - Remaining(w.rows, max) <= Unspent(r, max) - Unspent(w, max)
  {
    if !Refused(w.rows, e) {
      RemainingUpdate(w.rows, max, e.id, Enqueued(w.rows, e)[e.id]);
    }
    assert max * (w.accepted + 1) == max * w.accepted + max;
  }

  lemma StepBudget(w: World, s: Step, max: int)
    requires max >= 1 && Inv(w, max) && Enabled(w, s)
    ensures Remaining(Next(w, s, max).rows, max) - Remaining(w.rows, max) <= Unspent(Next(w, s, max), max) - Unspent(w, max)
  {
    var r := Next(w, s, max);
    match s
    case Arrive(at, e) => ArriveBudget(w, at, e, max);
    case Deliver(at, error) => DeliveryDecreases(w, at, error, max);
    case Cleanup(at, retentionHours) => RemainingSub(r.rows, w.rows, max);
    case Fetch(at, n, batch) =>
    case LoseBatch(at) =>
  }

  /** In any run, the attempts still possible never grow faster than accepted events bring them in. */
  lemma {:induction false} RunBudget(w: World, steps: seq<Step>, max: int)
    requires max >= 1 && Inv(w, max) && IsRun(w, steps, max)
    ensures Remaining(Run(w, steps, max).rows, max) - Remaining(w.rows, max) <= Unspent(Run(w, steps, max), max) - Unspent(w, max)
    decreases |steps|
  {
    if steps != [] {
      StepKeepsInv(w, steps[0], max);
      StepBudget(w, steps[0], max);
      RunBudget(Next(w, steps[0], max), steps[1..], max);
    }
  }

  /** From an empty table: at most `max` delivery attempts per accepted event, over the whole run. */
  lemma AttemptsBounded(steps: seq<Step>, max: int)
    requires max >= 1 && IsRun(EMPTY, steps, max)
    ensures Run(EMPTY, steps, max).tries <= max * Run(EMPTY, steps, max).accepted
  {
    RunBudget(EMPTY, steps, max);
  }

  // ------------------------------------------------------------------ the retry window

  lemma {:induction false} WindowClosedForm(n: nat)
    ensures Window(n) == if n <= 7 then Pow2(n) - 1 else 127 + 64 * (n - 7)
  {
    if n > 0 { WindowClosedForm(n - 1); }
    assert Pow2(6) == 64 && Pow2(7) == 128;
  }

  /**
   A dead letter spans at least the sum of its backoffs, in whole clock seconds, from its
   first failed attempt to its last.
   */
  lemma DeadLetterSpan(steps: seq<Step>, max: int, id: EventId)
    requires max >= 1 && IsRun(EMPTY, steps, max)
    requires var r := Run(EMPTY, steps, max); id in r.rows && r.rows[id].state == DEAD_LETTER
    ensures var r := Run(EMPTY, steps, max);
            && id in r.firstFail && id in r.lastFail
            && Truncate(r.lastFail[id]) - Truncate(r.firstFail[id])
               >= (if max <= 8 then Pow2(max - 1) - 1 else 127 + 64 * (max - 8))
  {
    RunKeepsInv(EMPTY, steps, max);
    var r := Run(EMPTY, steps, max);
    assert RowOk(r.rows[id], max) && HistoryOk(r, id);
    WindowClosedForm(max - 1);
  }

  /** With the shipped maximum of 12, 383 seconds. */
  lemma DefaultWindow(steps: seq<Step>, id: EventId)
    requires IsRun(EMPTY, steps, 12)
    requires var r := Run(EMPTY, steps, 12); id in r.rows && r.rows[id].state == DEAD_LETTER
    ensures var r := Run(EMPTY, steps, 12);
            && id in r.firstFail && id in r.lastFail
            && Truncate(r.lastFail[id]) - Truncate(r.firstFail[id]) >= 383
  {
    DeadLetterSpan(steps, 12, id);
  }
}
