/**
 Whether index rows stay unique over runs: exactly which operations spoil it, what restores
 it, and runs from an empty context in which it is lost.
 */
module RowUniqueness {
  import opened SessionIndex
  import opened SessionSearch
  import opened Eviction
  import opened SessionRuns

  /** The session's summary label already stands in front of a row. */
  predicate HasRow(t: Tables, sid: Sid) {
    sid in t.sidToId && t.sidToId[sid] in t.labels
  }

  /** The operation adds a summary row for a session that has one. */
  predicate Repeats(s: State, op: Op) {
    match op
    case Index(b) => b.embedding.Some? && HasRow(s.t, b.sid)
    case LoadStore(b) => b.embedding.Some? && HasRow(s.t, b.sid)
    case _ => false
  }

  lemma PrefixUnique(t: Tables, r: Tables)
    requires t.labels <= r.labels && UniqueRows(r)
    ensures UniqueRows(t)
  {
  }

  lemma IndexingUnique(t: Tables, sid: Sid, v: Vector, chunks: seq<Vector>)
    requires Consistent(t)
    ensures UniqueRows(IndexSession(t, sid, v, chunks)) <==> UniqueRows(t) && !HasRow(t, sid)
  {
    var s, r := IndexSummary(t, sid, v), IndexSession(t, sid, v, chunks);
    AllocateChunksNext(s, sid, |chunks|);
    assert t.labels <= s.labels <= r.labels;
    if UniqueRows(t) {
      IndexSessionUnique(t, sid, v, chunks);
    } else if UniqueRows(r) {
      PrefixUnique(t, r);
    }
  }

  /** One step leaves unique rows iff it rebuilds, or they were unique and it repeats no session. */
  lemma StepUnique(s: State, op: Op)
    requires Inv(s)
    ensures UniqueRows(Step(s, op).t) <==> Rebuilds(s, op) || (UniqueRows(s.t) && !Repeats(s, op))
  {
    match op
    case Index(b) =>
      if b.embedding.Some? { IndexingUnique(s.t, b.sid, b.embedding.value, b.chunks); }
    case Store(b) =>
    case LookupStore(b) =>
    case Displace(sid) =>
    case LoadStore(b) =>
      if b.embedding.Some? {
        IndexingUnique(s.t, b.sid, b.embedding.value, []);
        NoChunks(IndexSummary(s.t, b.sid, b.embedding.value), b.sid);
      }
    case ReleaseLabels(sid) =>
    case Evict(env, n) =>
      if Rebuilds(s, op) { EvictReindexes(s, env, n); }
  }

  /** What a run does to uniqueness: a rebuild restores it, a repeat spoils it. */
  predicate UniqueAfter(s: State, ops: seq<Op>, unique: bool)
    decreases |ops|
  {
    if ops == [] then unique
    else UniqueAfter(Step(s, ops[0]), ops[1..], Rebuilds(s, ops[0]) || (unique && !Repeats(s, ops[0])))
  }

  /** In every run, rows end unique exactly when nothing was repeated since the last rebuild or a unique start. */
  lemma {:induction false} RunUnique(s: State, ops: seq<Op>)
    requires Inv(s)
    ensures UniqueRows(Run(s, ops).t) <==> UniqueAfter(s, ops, UniqueRows(s.t))
    decreases |ops|
  {
    if ops != [] {
      StepKeepsInv(s, ops[0]);
      StepUnique(s, ops[0]);
      RunUnique(Step(s, ops[0]), ops[1..]);
    }
  }

  predicate RepeatFree(s: State, ops: seq<Op>)
    decreases |ops|
  {
    ops == [] || (!Repeats(s, ops[0]) && RepeatFree(Step(s, ops[0]), ops[1..]))
  }

  /** In particular a run without repeats keeps unique rows unique. */
  lemma {:induction false} RepeatFreeUnique(s: State, ops: seq<Op>)
    requires Inv(s) && UniqueRows(s.t) && RepeatFree(s, ops)
    ensures UniqueRows(Run(s, ops).t)
    decreases |ops|
  {
    if ops != [] {
      StepKeepsInv(s, ops[0]);
      StepUnique(s, ops[0]);
      RepeatFreeUnique(Step(s, ops[0]), ops[1..]);
    }
  }

  const COLD := State([], EMPTY)

  lemma IndexRow(s: State, b: Brief)
    requires b.embedding.Some? && b.chunks == []
    ensures Step(s, Index(b)).t == IndexSummary(s.t, b.sid, b.embedding.value)
  {
    NoChunks(IndexSummary(s.t, b.sid, b.embedding.value), b.sid);
  }

  lemma TwoSteps(s: State, a: Op, b: Op)
    ensures Run(s, [a, b]) == Step(Step(s, a), b)
  {
    assert [a, b][1..] == [b] && [b][1..] == [];
    assert Run(Step(Step(s, a), b), []) == Step(Step(s, a), b);
  }

  lemma FourSteps(s: State, a: Op, b: Op, c: Op, d: Op)
    ensures Run(s, [a, b, c, d]) == Step(Step(Step(Step(s, a), b), c), d)
  {
    TwoSteps(Step(Step(s, a), b), c, d);
    assert [a, b, c, d][1..] == [b, c, d] && [b, c, d][1..] == [c, d];
    assert Run(s, [a, b, c, d]) == Run(Step(s, a), [b, c, d]);
  }

  /** Observing one session twice puts two rows under one label. */
  lemma ObservedTwice(b: Brief)
    requires b.embedding.Some? && b.chunks == []
    ensures Run(COLD, [Index(b), Store(b), Index(b), Store(b)]).t.labels == [0, 0]
  {
    var s := Step(Step(COLD, Index(b)), Store(b));
    FourSteps(COLD, Index(b), Store(b), Index(b), Store(b));
    IndexRow(COLD, b);
    IndexRow(s, b);
  }

  /** So do two loads of one session that both find it missing before either stores it. */
  lemma LoadedTwice(b: Brief)
    requires b.embedding.Some?
    ensures Run(COLD, [LoadStore(b), LoadStore(b)]).t.labels == [0, 0]
    ensures !UniqueRows(Run(COLD, [LoadStore(b), LoadStore(b)]).t)
  {
    TwoSteps(COLD, LoadStore(b), LoadStore(b));
    assert [0, 0][0] == [0, 0][1];
  }

  /** And so does loading a session again that a load of another one pushed out of RAM. */
  lemma ReloadedAfterDisplacement(b: Brief, c: Brief)
    requires b.embedding.Some? && c.embedding.Some? && b.sid != c.sid
    ensures Run(COLD, [LoadStore(b), Displace(b.sid), LoadStore(c), LoadStore(b)]).t.labels == [0, 1, 0]
  {
    FourSteps(COLD, LoadStore(b), Displace(b.sid), LoadStore(c), LoadStore(b));
  }
}
