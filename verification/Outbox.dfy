/**
 The durable outbox: a table with a unique dedupe key and its operations, each a single
 atomic statement.
 */
module Outbox {
  datatype Option<+T> = None | Some(value: T)

  datatype RowState = PENDING | PROCESSING | DELIVERED | DEAD_LETTER

  type EventId = string

  datatype Row = Row(
    dedupe: string,
    payload: string,
    state: RowState,
    attempts: nat,
    nextAttempt: int,
    lastError: Option<string>,
    createdAt: int,
    deliveredAt: Option<int>)

  type Table = map<EventId, Row>

  datatype Event = Event(id: EventId, dedupe: string, payload: string, createdAt: real)

  // --------------------------------------------------------------------- operations

  predicate Refused(t: Table, e: Event) {
    e.id in t || exists k :: k in t && t[k].dedupe == e.dedupe
  }

  /** The insert violates no constraint, or it is rolled back. */
  function Enqueued(t: Table, e: Event): Table {
    if Refused(t, e) then t
    else t[e.id := Row(e.dedupe, e.payload, PENDING, 0, Truncate(e.createdAt), None, Truncate(e.createdAt), None)]
  }

  /** Python's `int` on a float. */
  function Truncate(x: real): (n: int)
    ensures x >= 0.0 ==> n as real <= x < n as real + 1.0
    ensures x < 0.0 ==> n as real - 1.0 < x <= n as real
  {
    if x < 0.0 then -((-x).Floor) else x.Floor
  }

  predicate Ready(t: Table, id: EventId, now: int) {
    id in t && t[id].state == PENDING && t[id].nextAttempt <= now
  }

  function MarkedDelivered(t: Table, id: EventId, now: real): Table {
    if id in t then t[id := t[id].(state := DELIVERED, deliveredAt := Some(Truncate(now)))] else t
  }

  function MarkedRetry(t: Table, id: EventId, error: string, backoff: nat, now: real, maxAttempts: int): Table {
    if id !in t then t
    else
      var attempts := t[id].attempts + 1;
      t[id := t[id].(state := if attempts >= maxAttempts then DEAD_LETTER else PENDING,
                     attempts := attempts,
                     nextAttempt := Truncate(now + backoff as real),
                     lastError := Some(error))]
  }

  predicate Expired(r: Row, cutoff: int) {
    r.state == DELIVERED && r.deliveredAt.Some? && r.deliveredAt.value < cutoff
  }

  function Cleaned(t: Table, now: real, retentionHours: int): Table {
    map id | id in t && !Expired(t[id], Truncate(now) - retentionHours * 3600) :: t[id]
  }

  function Pow2(n: nat): nat {
    if n == 0 then 1 else 2 * Pow2(n - 1)
  }

  function Backoff(attempts: nat): nat {
    Pow2(if attempts < 6 then attempts else 6)
  }

  // ----------------------------------------------------------------- the stateful form

  class GatewayOutbox {
    var rows: Table
    const maxAttempts: int

    constructor (maxAttempts: int)
      ensures rows == map[] && this.maxAttempts == maxAttempts
    {
      rows, this.maxAttempts := map[], maxAttempts;
    }

    method Enqueue(e: Event)
      modifies this
      ensures rows == Enqueued(old(rows), e)
      ensures e.id in old(rows) || (exists k :: k in old(rows) && old(rows)[k].dedupe == e.dedupe) ==> rows == old(rows)
      ensures e.id !in old(rows) && (forall k :: k in old(rows) ==> old(rows)[k].dedupe != e.dedupe) ==>
                && rows.Keys == old(rows).Keys + {e.id} && (forall k :: k in old(rows) ==> rows[k] == old(rows)[k])
                && rows[e.id].dedupe == e.dedupe && rows[e.id].payload == e.payload
                && rows[e.id].state == PENDING && rows[e.id].attempts == 0
                && rows[e.id].nextAttempt == rows[e.id].createdAt == Truncate(e.createdAt)
    {
      if e.id !in rows && !(exists k :: k in rows && rows[k].dedupe == e.dedupe) {
        var created := Truncate(e.createdAt);
        rows := rows[e.id := Row(e.dedupe, e.payload, PENDING, 0, created, None, created, None)];
      }
    }

    /** Ready rows in order of due time, at most `batchSize`, none overtaken by a later one. */
    method FetchReadyBatch(batchSize: nat, now: int) returns (batch: seq<(EventId, Row)>)
      ensures IsBatch(rows, batchSize, now, batch)
      ensures forall i :: 0 <= i < |batch| ==>
                batch[i].0 in rows && batch[i].1 == rows[batch[i].0] && batch[i].1.state == PENDING && batch[i].1.nextAttempt <= now
      ensures forall id :: id in rows && rows[id].state == PENDING && rows[id].nextAttempt <= now && !InBatch(batch, id) ==>
                |batch| == batchSize
    {
      var ready := map id | id in rows && Ready(rows, id, now) :: rows[id];
      batch := [];
      while ready != map[] && |batch| < batchSize
        invariant Fetching(rows, now, ready, batch) && |batch| <= batchSize
        decreases |ready|
      {
        var id := Earliest(ready);
        FetchingNext(rows, now, ready, batch, id);
        batch := batch + [(id, rows[id])];
        ready := ready - {id};
      }
    }

    method MarkDelivered(id: EventId, now: real)
      modifies this
      ensures rows == MarkedDelivered(old(rows), id, now)
    {
      if id in rows {
        rows := rows[id := rows[id].(state := DELIVERED, deliveredAt := Some(Truncate(now)))];
      }
    }

    method MarkRetry(id: EventId, error: string, backoff: nat, now: real)
      modifies this
      ensures rows == MarkedRetry(old(rows), id, error, backoff, now, maxAttempts)
    {
      if id in rows {
        var attempts := rows[id].attempts + 1;
        var next := if attempts >= maxAttempts then DEAD_LETTER else PENDING;
        rows := rows[id := rows[id].(state := next, attempts := attempts,
                                     nextAttempt := Truncate(now + backoff as real), lastError := Some(error))];
      }
    }

    method CleanupDelivered(retentionHours: int, now: real) returns (removed: nat)
      modifies this
      ensures rows == Cleaned(old(rows), now, retentionHours)
      ensures removed == |old(rows)| - |rows|
    {
      var cutoff := Truncate(now) - retentionHours * 3600;
      var kept := map id | id in rows && !Expired(rows[id], cutoff) :: rows[id];
      SubsetSize(kept.Keys, rows.Keys);
      assert |kept| == |kept.Keys| && |rows| == |rows.Keys|;
      removed := |rows| - |kept|;
      rows := kept;
    }

    /** One delivery of a fetched row: `error` is what the observer raised, if anything. */
    method DeliverOne(id: EventId, row: Row, error: Option<string>, now: real)
      modifies this
      ensures rows == Delivered(old(rows), id, row.attempts, error, now, maxAttempts)
    {
      if error.None? {
        MarkDelivered(id, now);
      } else {
        MarkRetry(id, Shortened(error.value), Backoff(row.attempts), now);
      }
    }
  }

  predicate InBatch(batch: seq<(EventId, Row)>, id: EventId) {
    exists i :: 0 <= i < |batch| && batch[i].0 == id
  }

  ghost predicate BatchSoFar(t: Table, now: int, batch: seq<(EventId, Row)>) {
    && (forall i :: 0 <= i < |batch| ==> Ready(t, batch[i].0, now) && batch[i].1 == t[batch[i].0])
    && (forall i, j :: 0 <= i < j < |batch| ==> batch[i].0 != batch[j].0 && batch[i].1.nextAttempt <= batch[j].1.nextAttempt)
  }

  /** While fetching: the ready rows are split between the batch and the rest, which is due later. */
  ghost predicate Fetching(t: Table, now: int, ready: Table, batch: seq<(EventId, Row)>) {
    && BatchSoFar(t, now, batch)
    && (forall id :: id in ready ==> Ready(t, id, now) && ready[id] == t[id])
    && (forall id :: Ready(t, id, now) ==> (id in ready <==> !InBatch(batch, id)))
    && (forall i, id :: 0 <= i < |batch| && id in ready ==> batch[i].1.nextAttempt <= ready[id].nextAttempt)
  }

  lemma InLongerBatch(batch: seq<(EventId, Row)>, last: (EventId, Row), id: EventId)
    ensures InBatch(batch + [last], id) <==> InBatch(batch, id) || id == last.0
  {
    var more := batch + [last];
    assert more[|batch|] == last;
    if InBatch(batch, id) {
      var i :| 0 <= i < |batch| && batch[i].0 == id;
      assert more[i].0 == id;
    }
  }

  lemma FetchingNext(t: Table, now: int, ready: Table, batch: seq<(EventId, Row)>, best: EventId)
    requires Fetching(t, now, ready, batch) && best in ready
    requires forall id :: id in ready ==> ready[best].nextAttempt <= ready[id].nextAttempt
    ensures Fetching(t, now, ready - {best}, batch + [(best, t[best])])
  {
    var more := batch + [(best, t[best])];
    forall id ensures InBatch(more, id) <==> InBatch(batch, id) || id == best { InLongerBatch(batch, (best, t[best]), id); }
    forall i | 0 <= i < |batch| ensures batch[i].0 != best { assert InBatch(batch, batch[i].0); }
  }

  /** What the query returns: sorted, distinct, as many as allowed, and the earliest ones. */
  ghost predicate IsBatch(t: Table, batchSize: nat, now: int, batch: seq<(EventId, Row)>) {
    && BatchSoFar(t, now, batch)
    && |batch| <= batchSize
    && (forall id :: Ready(t, id, now) && !InBatch(batch, id) ==>
          |batch| == batchSize && forall i :: 0 <= i < |batch| ==> batch[i].1.nextAttempt <= t[id].nextAttempt)
  }

  method Earliest(ready: map<EventId, Row>) returns (best: EventId)
    requires ready != map[]
    ensures best in ready
    ensures forall id :: id in ready ==> ready[best].nextAttempt <= ready[id].nextAttempt
  {
    best :| best in ready;
    var left := ready.Keys - {best};
    while left != {}
      invariant left <= ready.Keys && best in ready
      invariant forall id :: id in ready && id !in left ==> ready[best].nextAttempt <= ready[id].nextAttempt
      decreases left
    {
      var id :| id in left;
      if ready[id].nextAttempt < ready[best].nextAttempt {
        best := id;
      }
      left := left - {id};
    }
  }

  lemma {:induction false} SubsetSize<T>(a: set<T>, b: set<T>)
    requires a <= b
    ensures |a| <= |b|
    decreases |a|
  {
    if a != {} {
      var x :| x in a;
      SubsetSize(a - {x}, b - {x});
    }
  }

  /** What is kept of an error message. */
  function Shortened(error: string): (r: string)
    ensures r <= error && |r| <= 64
    ensures r < error ==> |r| == 64
  {
    if |error| <= 64 then error else error[..64]
  }

  function Delivered(t: Table, id: EventId, attempts: nat, error: Option<string>, now: real, maxAttempts: int): Table {
    if error.None? then MarkedDelivered(t, id, now)
    else MarkedRetry(t, id, Shortened(error.value), Backoff(attempts), now, maxAttempts)
  }
}
