/**
 Whether the index holds exactly the vectors of the briefs in RAM, over runs: for each
 operation the exact guard under which it stays so, and what hydration and rebuilding agree on.
 */
module SessionFaithful {
  import opened Sorting
  import opened SessionIndex
  import opened SessionSearch
  import opened Eviction
  import opened SessionRuns

  // ------------------------------------------------ what each table operation adds

  lemma NameKeepsRows(t: Tables, sid: Sid, s: Sid, i: int)
    requires Consistent(t)
    ensures RowOf(Name(t, sid), s, i) <==> RowOf(t, s, i)
  {
    if sid in t.sidToId { assert Owns(t, sid, t.sidToId[sid]); }
    assert 0 <= i < |t.labels| ==> t.labels[i] < t.next;
  }

  lemma HeldAfterName(t: Tables, sid: Sid, s: Sid, v: Vector)
    requires Consistent(t)
    ensures Held(Name(t, sid), s, v) <==> Held(t, s, v)
  {
    forall i ensures RowOf(Name(t, sid), s, i) <==> RowOf(t, s, i) { NameKeepsRows(t, sid, s, i); }
  }

  /** Rows added under one session's labels are held by it, and nothing else changes. */
  lemma HeldAfterRows(t: Tables, vectors: seq<Vector>, labels: seq<nat>, sid: Sid, s: Sid, v: Vector)
    requires |t.labels| == |t.vectors| && |labels| == |vectors|
    requires forall i :: 0 <= i < |labels| ==> labels[i] in t.idToSid && t.idToSid[labels[i]] == sid
    ensures Held(AddItems(t, vectors, labels), s, v) <==> Held(t, s, v) || (s == sid && v in vectors)
  {
    var r, n := AddItems(t, vectors, labels), |t.labels|;
    forall i | 0 <= i < n ensures RowOf(r, s, i) <==> RowOf(t, s, i) {}
    if Held(r, s, v) {
      var i :| RowOf(r, s, i) && r.vectors[i] == v;
      if i < n { assert RowOf(t, s, i); } else { assert vectors[i - n] == v; }
    }
    if Held(t, s, v) {
      var i :| RowOf(t, s, i) && t.vectors[i] == v;
      assert RowOf(r, s, i) && r.vectors[i] == v;
    }
    if s == sid && v in vectors {
      var i :| 0 <= i < |vectors| && vectors[i] == v;
      assert r.labels[n + i] == labels[i];
      assert RowOf(r, s, n + i) && r.vectors[n + i] == v;
    }
  }

  lemma HeldAfterSummary(t: Tables, sid: Sid, u: Vector, s: Sid, v: Vector)
    requires Consistent(t)
    ensures Held(IndexSummary(t, sid, u), s, v) <==> Held(t, s, v) || (s == sid && v == u)
  {
    HeldAfterName(t, sid, s, v);
    HeldAfterRows(Name(t, sid), [u], [LabelFor(t, sid)], sid, s, v);
  }

  lemma HeldAfterChunks(t: Tables, sid: Sid, chunks: seq<Vector>, s: Sid, v: Vector)
    requires Consistent(t)
    ensures Held(IndexChunks(t, sid, chunks), s, v) <==> Held(t, s, v) || (s == sid && v in chunks)
  {
    var m := AllocateChunks(t, sid, |chunks|);
    AllocateChunksEffect(t, sid, |chunks|);
    forall i ensures RowOf(m, s, i) <==> RowOf(t, s, i) {
      assert 0 <= i < |t.labels| ==> t.labels[i] < t.next;
    }
    HeldAfterRows(m, chunks, Range(t.next, |chunks|), sid, s, v);
  }

  lemma HeldAfterBrief(t: Tables, b: Brief, s: Sid, v: Vector)
    requires Consistent(t)
    ensures Held(IndexBrief(t, b), s, v) <==> Held(t, s, v) || (s == b.sid && v in VectorsOf(b))
  {
    if b.embedding.Some? {
      var u := b.embedding.value;
      HeldAfterSummary(t, b.sid, u, s, v);
      IndexSummaryConsistent(t, b.sid, u);
      HeldAfterChunks(IndexSummary(t, b.sid, u), b.sid, b.chunks, s, v);
    }
  }

  lemma HeldAfterRelease(t: Tables, sid: Sid, s: Sid, v: Vector)
    requires Consistent(t)
    ensures Held(Release(t, sid), s, v) <==> s != sid && Held(t, s, v)
  {
    forall i ensures RowOf(Release(t, sid), s, i) <==> s != sid && RowOf(t, s, i) {
      if 0 <= i < |t.labels| {
        assert Owns(t, sid, t.labels[i]) <==> Resolves(t, t.labels[i]) && t.idToSid[t.labels[i]] == sid;
      }
    }
  }

  // ------------------------------------------------------ which operations stay faithful

  /** The session's rows that are already there hold vectors of the brief. */
  ghost predicate OldRowsFit(t: Tables, b: Brief) {
    forall v :: Held(t, b.sid, v) ==> v in VectorsOf(b)
  }

  /** What has to hold before the operation for the index to stay faithful to RAM. */
  ghost predicate Fits(s: State, op: Op) {
    match op
    case Index(b) => forall x :: x in s.ram && x.sid == b.sid ==> forall v :: v in VectorsOf(b) ==> v in VectorsOf(x)
    case Store(b) => Indexed(s.t, b)
    case LookupStore(b) => Indexed(s.t, b)
    case LoadStore(b) =>
      && OldRowsFit(s.t, b)
      && (b.embedding.Some? ==> forall v :: v in b.chunks ==> v == b.embedding.value || Held(s.t, b.sid, v))
    case Displace(_) => true
    case ReleaseLabels(sid) => forall b :: b in s.ram && b.sid == sid ==> b.embedding.None?
    case Evict(_, _) => true
  }

  /** Storing one brief leaves the index faithful iff it is faithful to that brief. */
  lemma PutFaithful(room: seq<Brief>, b: Brief, t: Tables, r: Tables)
    requires DistinctSids(room) && Faithful(t, room)
    requires forall s, v :: s != b.sid ==> (Held(r, s, v) <==> Held(t, s, v))
    ensures Faithful(r, Put(room, b)) <==> Indexed(r, b)
  {
    PutDistinct(room, b);
    OneBriefPerSid(Put(room, b), b);
    forall x | x in Put(room, b) && x != b ensures Indexed(r, x) {
      assert Indexed(t, x);
    }
  }

  lemma IndexFaithful(s: State, b: Brief)
    requires Inv(s) && Faithful(s.t, s.ram)
    ensures Faithful(IndexBrief(s.t, b), s.ram) <==> Fits(s, Index(b))
  {
    var r := IndexBrief(s.t, b);
    forall x, v ensures Held(r, x, v) <==> Held(s.t, x, v) || (x == b.sid && v in VectorsOf(b)) {
      HeldAfterBrief(s.t, b, x, v);
    }
    forall x | x in s.ram
      ensures Indexed(r, x) <==> (x.sid == b.sid ==> forall v :: v in VectorsOf(b) ==> v in VectorsOf(x))
    {
      assert Indexed(s.t, x);
    }
  }

  lemma LookupFaithful(s: State, b: Brief)
    requires Inv(s) && Faithful(s.t, s.ram)
    ensures Faithful(Name(s.t, b.sid), Put(s.ram, b)) <==> Fits(s, LookupStore(b))
  {
    var r := Name(s.t, b.sid);
    forall x, v ensures Held(r, x, v) <==> Held(s.t, x, v) { HeldAfterName(s.t, b.sid, x, v); }
    PutFaithful(s.ram, b, s.t, r);
  }

  lemma LoadFaithful(s: State, b: Brief)
    requires Inv(s) && Faithful(s.t, s.ram)
    ensures var r := Step(s, LoadStore(b)); Faithful(r.t, r.ram) <==> Fits(s, LoadStore(b))
  {
    var r := Step(s, LoadStore(b)).t;
    forall x, v ensures Held(r, x, v) <==> Held(s.t, x, v) || (b.embedding.Some? && x == b.sid && v == b.embedding.value) {
      if b.embedding.Some? { HeldAfterSummary(s.t, b.sid, b.embedding.value, x, v); }
    }
    PutFaithful(s.ram, b, s.t, r);
  }

  lemma ReleaseFaithful(s: State, sid: Sid)
    requires Inv(s) && Faithful(s.t, s.ram)
    ensures Faithful(Release(s.t, sid), s.ram) <==> Fits(s, ReleaseLabels(sid))
  {
    forall x, v ensures Held(Release(s.t, sid), x, v) <==> x != sid && Held(s.t, x, v) {
      HeldAfterRelease(s.t, sid, x, v);
    }
    forall b | b in s.ram ensures Indexed(Release(s.t, sid), b) <==> (b.sid == sid ==> b.embedding.None?) {
      assert Indexed(s.t, b);
      if b.sid == sid && b.embedding.Some? { assert b.embedding.value in VectorsOf(b); }
    }
  }

  /** An eviction that removes anyone makes the index faithful, whatever it was before. */
  lemma EvictMakesFaithful(s: State, env: Env, n: int)
    requires Inv(s) && Rebuilds(s, Evict(env, n))
    ensures var r := Step(s, Evict(env, n)); Faithful(r.t, r.ram)
  {
    RebuildStep(s, env, n);
    RebuiltFaithful(Left(s, env, n));
  }

  /** From a faithful index, one operation leaves a faithful index exactly when its guard holds. */
  lemma StepFaithful(s: State, op: Op)
    requires Inv(s) && Faithful(s.t, s.ram)
    ensures Faithful(Step(s, op).t, Step(s, op).ram) <==> Fits(s, op)
  {
    match op
    case Index(b) => IndexFaithful(s, b);
    case Store(b) => PutFaithful(s.ram, b, s.t, s.t);
    case LookupStore(b) => LookupFaithful(s, b);
    case LoadStore(b) => LoadFaithful(s, b);
    case Displace(sid) =>
    case ReleaseLabels(sid) => ReleaseFaithful(s, sid);
    case Evict(env, n) => if Rebuilds(s, op) { EvictMakesFaithful(s, env, n); }
  }

  ghost predicate AllFit(s: State, ops: seq<Op>)
    decreases |ops|
  {
    ops == [] || (Fits(s, ops[0]) && AllFit(Step(s, ops[0]), ops[1..]))
  }

  ghost predicate FaithfulThroughout(s: State, ops: seq<Op>)
    decreases |ops|
  {
    Faithful(s.t, s.ram) && (ops == [] || FaithfulThroughout(Step(s, ops[0]), ops[1..]))
  }

  /** From a faithful start, the index is faithful at every state of a run exactly when every guard holds. */
  lemma {:induction false} RunFaithful(s: State, ops: seq<Op>)
    requires Inv(s) && Faithful(s.t, s.ram)
    ensures FaithfulThroughout(s, ops) <==> AllFit(s, ops)
    ensures AllFit(s, ops) ==> Faithful(Run(s, ops).t, Run(s, ops).ram)
    decreases |ops|
  {
    if ops != [] {
      StepKeepsInv(s, ops[0]);
      StepFaithful(s, ops[0]);
      if Fits(s, ops[0]) { RunFaithful(Step(s, ops[0]), ops[1..]); }
    }
  }

  /** Undisturbed, a first observation keeps the index faithful. */
  lemma ObservationFits(s: State, b: Brief)
    requires Inv(s) && Faithful(s.t, s.ram) && !InRam(s.ram, b.sid)
    requires forall v :: !Held(s.t, b.sid, v)
    ensures Fits(s, Index(b)) && Fits(Step(s, Index(b)), Store(b))
  {
    forall v ensures Held(IndexBrief(s.t, b), b.sid, v) <==> v in VectorsOf(b) { HeldAfterBrief(s.t, b, b.sid, v); }
  }

  /** An eviction between the two halves of an observation leaves the session in RAM without label or row. */
  lemma EvictedMidway(s: State, b: Brief, env: Env, n: int)
    requires Inv(s) && b.embedding.Some? && !InRam(s.ram, b.sid)
    requires Rebuilds(Step(s, Index(b)), Evict(env, n))
    ensures var r := Step(Step(Step(s, Index(b)), Evict(env, n)), Store(b));
            && b in r.ram && LabelsOf(r.t, b.sid) == [] && !Held(r.t, b.sid, b.embedding.value)
            && !Faithful(r.t, r.ram)
  {
    var mid := Step(s, Index(b));
    StepKeepsInv(s, Index(b));
    RebuildStep(mid, env, n);
    StoredUnindexed(Left(mid, env, n), b);
  }

  lemma StoredUnindexed(left: seq<Brief>, b: Brief)
    requires DistinctSids(left) && (forall x :: x in left ==> x.sid != b.sid) && b.embedding.Some?
    ensures LabelsOf(Rebuilt(left), b.sid) == [] && !Held(Rebuilt(left), b.sid, b.embedding.value)
    ensures b in Put(left, b) && !Faithful(Rebuilt(left), Put(left, b))
  {
    var t := Rebuilt(left);
    AbsentUnlabelled(left, b.sid);
    RebuiltConsistent(left);
    forall i ensures !RowOf(t, b.sid, i) {
      if 0 <= i < |t.labels| { assert !Owns(t, b.sid, t.labels[i]); }
    }
    assert b.embedding.value in VectorsOf(b);
    assert !Indexed(t, b);
  }

  lemma RebuiltConsistent(left: seq<Brief>)
    requires DistinctSids(left)
    ensures Consistent(Rebuilt(left))
  {
    RebuiltLayout(left);
  }

  /** That run exists from an empty context: one evictable session stored before. */
  lemma EvictedMidwayReached(a: Brief, b: Brief, env: Env)
    requires a.sid != b.sid && CanEvict(a, env) && b.embedding.Some?
    ensures var s := Step(Step(State([], EMPTY), Index(a)), Store(a));
            Inv(s) && !InRam(s.ram, b.sid) && Rebuilds(Step(s, Index(b)), Evict(env, 1))
  {
    var cold := State([], EMPTY);
    StepKeepsInv(cold, Index(a));
    StepKeepsInv(Step(cold, Index(a)), Store(a));
    var ram := [a];
    assert a in Filter(ram, Evictable(env));
    SurvivorsCount(ram, env, 1);
  }

  /** After any such run, search ranks the sessions by the distances of their own vectors. */
  lemma RunSearchRanksBriefs(s: State, ops: seq<Op>, dist: Vector -> real, k: nat, c: seq<Sid>,
                             a: Brief, da: real, b: Brief, db: real)
    requires Inv(s) && Faithful(s.t, s.ram) && AllFit(s, ops)
    requires var r := Run(s, ops);
             |r.t.labels| == |r.t.vectors| && IsAnswer(r.t, r.ram, dist, k, c) && a in r.ram && b in r.ram
    requires a.sid != "" && b.sid != "" && IsBriefDistance(a, dist, da) && IsBriefDistance(b, dist, db)
    ensures forall i, j :: 0 <= i < j < |c| && c[i] == a.sid && c[j] == b.sid ==> da <= db
    ensures a.sid in c && b.sid !in c ==> da <= db
  {
    RunFaithful(s, ops);
    FaithfulSearchRanksBriefs(Run(s, ops).t, Run(s, ops).ram, dist, k, c, a, da, b, db);
  }

  /** A repository load of an embedded session the index does not know leaves it unfindable. */
  lemma LookupLeavesUnindexed(b: Brief)
    requires b.embedding.Some?
    ensures var r := Step(State([], EMPTY), LookupStore(b));
            b in r.ram && b.sid in r.t.sidToId && !Faithful(r.t, r.ram)
  {
    StepFaithful(State([], EMPTY), LookupStore(b));
    assert b.embedding.value in VectorsOf(b);
  }

  // ------------------------------------------------------------ hydration and rebuilding

  lemma {:induction false} HeldEmbeddings(es: seq<(Sid, Vector)>, s: Sid, v: Vector)
    ensures Held(IndexEmbeddings(EMPTY, es), s, v) <==> (s, v) in es
  {
    if es != [] {
      var init, e := es[..|es| - 1], es[|es| - 1];
      HeldEmbeddings(init, s, v);
      EmbeddingsFill(init);
      HeldAfterSummary(IndexEmbeddings(EMPTY, init), e.0, e.1, s, v);
      assert es == init + [e];
    }
  }

  lemma {:induction false} HeldChunkRows(t: Tables, es: seq<(Sid, Vector)>, rows: seq<(Sid, Vector)>, s: Sid, v: Vector)
    requires Filling(t, es)
    ensures Held(IndexChunkRows(t, rows), s, v) <==> Held(t, s, v) || (s, v) in rows
  {
    if rows != [] {
      var init, r := rows[..|rows| - 1], rows[|rows| - 1];
      HeldChunkRows(t, es, init, s, v);
      ChunkRowsFill(t, es, init);
      HeldAfterChunks(IndexChunkRows(t, init), r.0, [r.1], s, v);
      assert rows == init + [r];
    }
  }

  /** The chunk rows hydration takes: none without embeddings, else those of sessions in RAM. */
  function Taken(briefs: seq<Brief>, es: seq<(Sid, Vector)>, rows: seq<(Sid, Vector)>): seq<(Sid, Vector)> {
    if es == [] then [] else Filter(rows, Wanted(PutAll([], briefs)))
  }

  /** Hydration indexes exactly the stored embeddings and the chunk rows it takes. */
  lemma HydratedHolds(briefs: seq<Brief>, es: seq<(Sid, Vector)>, rows: seq<(Sid, Vector)>, s: Sid, v: Vector)
    ensures Held(Hydrated(briefs, es, rows).t, s, v) <==> (s, v) in es || (s, v) in Taken(briefs, es, rows)
    ensures (s, v) in Taken(briefs, es, rows) <==> es != [] && (s, v) in rows && exists i :: 0 <= i < |briefs| && briefs[i].sid == s
  {
    var _ := LoadedBriefs(briefs, s);
    if es != [] {
      EmbeddingsFill(es);
      HeldEmbeddings(es, s, v);
      HeldChunkRows(IndexEmbeddings(EMPTY, es), es, Taken(briefs, es, rows), s, v);
    }
  }

  /** The brief as hydration leaves it. */
  function Grown(b: Brief, taken: seq<(Sid, Vector)>): Brief {
    b.(chunks := b.chunks + ChunksFor(taken, b.sid))
  }

  lemma HydratedBrief(briefs: seq<Brief>, es: seq<(Sid, Vector)>, rows: seq<(Sid, Vector)>, b: Brief)
    requires Find(PutAll([], briefs), b.sid) == Some(b)
    ensures Grown(b, Taken(briefs, es, rows)) in Hydrated(briefs, es, rows).ram
    ensures DistinctSids(Hydrated(briefs, es, rows).ram)
  {
    HydratedInv(briefs, es, rows);
    AttachedChunks(PutAll([], briefs), Taken(briefs, es, rows), b.sid);
    assert b.chunks + [] == b.chunks;
  }

  predicate Stored(sid: Sid, v: Vector, es: seq<(Sid, Vector)>, taken: seq<(Sid, Vector)>) {
    (sid, v) in es || (sid, v) in taken
  }

  predicate Shown(b: Brief, v: Vector, taken: seq<(Sid, Vector)>) {
    b.embedding.Some? && (v == b.embedding.value || v in b.chunks || (b.sid, v) in taken)
  }

  /** Storage and the brief agree: what is stored for the session is what the brief can show, and the other way round. */
  ghost predicate StoredMatches(b: Brief, es: seq<(Sid, Vector)>, taken: seq<(Sid, Vector)>) {
    match b.embedding
    case None => forall v :: !Stored(b.sid, v, es, taken)
    case Some(u) =>
      && Stored(b.sid, u, es, taken)
      && (forall v :: v in b.chunks ==> Stored(b.sid, v, es, taken))
      && (forall v :: (b.sid, v) in es ==> v == u || v in b.chunks || (b.sid, v) in taken)
  }

  lemma GrownVectors(b: Brief, taken: seq<(Sid, Vector)>, v: Vector)
    ensures v in VectorsOf(Grown(b, taken)) <==> Shown(b, v, taken)
  {
    ChunksForMembers(taken, b.sid, v);
  }

  /**
   For a session in RAM, hydration from storage and a rebuild from the RAM it leaves index the
   same vectors exactly when storage and the brief agree; and just then the hydrated index is
   faithful to the brief.
   */
  lemma HydrationMatchesRebuild(briefs: seq<Brief>, es: seq<(Sid, Vector)>, rows: seq<(Sid, Vector)>, b: Brief)
    requires Find(PutAll([], briefs), b.sid) == Some(b)
    ensures var h := Hydrated(briefs, es, rows);
            (forall v :: Held(h.t, b.sid, v) <==> Held(Rebuilt(h.ram), b.sid, v))
            <==> StoredMatches(b, es, Taken(briefs, es, rows))
    ensures Indexed(Hydrated(briefs, es, rows).t, Grown(b, Taken(briefs, es, rows)))
       <==> StoredMatches(b, es, Taken(briefs, es, rows))
  {
    var h, taken := Hydrated(briefs, es, rows), Taken(briefs, es, rows);
    forall v
      ensures Held(h.t, b.sid, v) <==> Stored(b.sid, v, es, taken)
      ensures Held(Rebuilt(h.ram), b.sid, v) <==> Shown(b, v, taken)
    {
      HydratedHolds(briefs, es, rows, b.sid, v);
      RebuiltShows(briefs, es, rows, b, v);
    }
    assert Grown(b, taken).sid == b.sid;
    forall v ensures v in VectorsOf(Grown(b, taken)) <==> Shown(b, v, taken) { GrownVectors(b, taken, v); }
    AgreementExact(b, es, taken);
  }

  lemma RebuiltShows(briefs: seq<Brief>, es: seq<(Sid, Vector)>, rows: seq<(Sid, Vector)>, b: Brief, v: Vector)
    requires Find(PutAll([], briefs), b.sid) == Some(b)
    ensures Held(Rebuilt(Hydrated(briefs, es, rows).ram), b.sid, v) <==> Shown(b, v, Taken(briefs, es, rows))
  {
    var h, grown := Hydrated(briefs, es, rows), Grown(b, Taken(briefs, es, rows));
    HydratedBrief(briefs, es, rows, b);
    RebuiltFaithful(h.ram);
    assert Indexed(Rebuilt(h.ram), grown);
    assert grown.sid == b.sid;
    GrownVectors(b, Taken(briefs, es, rows), v);
  }

  lemma AgreementExact(b: Brief, es: seq<(Sid, Vector)>, taken: seq<(Sid, Vector)>)
    ensures (forall v :: Stored(b.sid, v, es, taken) <==> Shown(b, v, taken)) <==> StoredMatches(b, es, taken)
  {
    if forall v :: Stored(b.sid, v, es, taken) <==> Shown(b, v, taken) {
      if b.embedding.Some? { assert Shown(b, b.embedding.value, taken); }
      forall v | v in b.chunks && b.embedding.Some? ensures Stored(b.sid, v, es, taken) { assert Shown(b, v, taken); }
      forall v | (b.sid, v) in es ensures Shown(b, v, taken) { assert Stored(b.sid, v, es, taken); }
    }
  }

  /** A chunk row of a session in RAM without an embedding is indexed by hydration and dropped by a rebuild. */
  lemma ChunkWithoutEmbedding(b: Brief, e: (Sid, Vector), v: Vector)
    requires b.embedding.None? && b.sid != e.0
    ensures var h := Hydrated([b], [e], [(b.sid, v)]);
            Held(h.t, b.sid, v) && !Held(Rebuilt(h.ram), b.sid, v)
  {
    var ram := [b];
    assert PutAll([], [b]) == [b] by { assert [b][..0] == [] && PutAll([], []) == []; }
    assert InRam(ram, b.sid);
    assert Filter([(b.sid, v)], Wanted(ram)) == [(b.sid, v)] by { assert [(b.sid, v)][1..] == []; }
    HydratedHolds([b], [e], [(b.sid, v)], b.sid, v);
    RebuiltShows([b], [e], [(b.sid, v)], b, v);
  }

  /** An embedding that storage withholds is missing until the next rebuild. */
  lemma WithheldEmbedding(b: Brief, es: seq<(Sid, Vector)>, rows: seq<(Sid, Vector)>, briefs: seq<Brief>)
    requires Find(PutAll([], briefs), b.sid) == Some(b) && b.embedding.Some?
    requires (b.sid, b.embedding.value) !in es && (b.sid, b.embedding.value) !in rows
    ensures var h := Hydrated(briefs, es, rows);
            !Held(h.t, b.sid, b.embedding.value) && Held(Rebuilt(h.ram), b.sid, b.embedding.value)
  {
    HydratedHolds(briefs, es, rows, b.sid, b.embedding.value);
    RebuiltShows(briefs, es, rows, b, b.embedding.value);
  }
}
