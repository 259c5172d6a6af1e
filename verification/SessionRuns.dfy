/**
 Runs over RAM and the index tables together: cold hydration, the writers, loads,
 releases and evictions, in any order and any number. Each operation is a stretch of code
 without an await inside; an observation and a load are several of them, between which
 anything else may happen, and their checks of RAM may be out of date when they act.
 */
module SessionRuns {
  import opened Sorting
  import opened SessionIndex
  import opened SessionSearch
  import opened Eviction

  datatype State = State(ram: seq<Brief>, t: Tables)

  /** Assignment into the ordered dictionary: in place for a known session, else at the end. */
  function Put(ram: seq<Brief>, b: Brief): (r: seq<Brief>)
    ensures forall x :: x in r ==> x == b || x in ram
    ensures b in r
    ensures forall x :: x in ram && x.sid != b.sid ==> x in r
  {
    if ram == [] then [b]
    else if ram[0].sid == b.sid then [b] + ram[1..]
    else [ram[0]] + Put(ram[1..], b)
  }

  function Drop(ram: seq<Brief>, sid: Sid): seq<Brief> {
    Filter(ram, (b: Brief) => b.sid != sid)
  }

  datatype Op =
    | Index(b: Brief)              // a writer, first half: labels and rows for an observed session
    | Store(b: Brief)              // a writer, second half: its brief goes into RAM
    | LookupStore(b: Brief)        // a repository load: brief and label, no row
    | LoadStore(b: Brief)          // a cold load: label, summary row, then the brief
    | Displace(sid: Sid)           // a cold load makes room: the session leaves RAM unlabelled
    | ReleaseLabels(sid: Sid)
    | Evict(env: Env, n: int)

  function Step(s: State, op: Op): State {
    match op
    case Index(b) => s.(t := IndexBrief(s.t, b))
    case Store(b) => s.(ram := Put(s.ram, b))
    case LookupStore(b) => State(Put(s.ram, b), Name(s.t, b.sid))
    case LoadStore(b) =>
      State(Put(s.ram, b), if b.embedding.Some? then IndexSummary(s.t, b.sid, b.embedding.value) else s.t)
    case Displace(sid) => s.(ram := Drop(s.ram, sid))
    case ReleaseLabels(sid) => s.(t := Release(s.t, sid))
    case Evict(env, n) => AfterEvict(s, env, n)
  }

  function AfterEvict(s: State, env: Env, n: int): State {
    var victims := Victims(s.ram, env, n);
    if victims == [] then s else State(Survivors(s.ram, victims), Rebuilt(Survivors(s.ram, victims)))
  }

  lemma NothingToEvict(s: State, env: Env, n: int)
    requires n <= 0
    ensures AfterEvict(s, env, n) == s
  {
  }

  function Run(s: State, ops: seq<Op>): State
    decreases |ops|
  {
    if ops == [] then s else Run(Step(s, ops[0]), ops[1..])
  }

  ghost predicate Inv(s: State) {
    Consistent(s.t) && DistinctSids(s.ram)
  }

  lemma {:induction false} PutDistinct(ram: seq<Brief>, b: Brief)
    requires DistinctSids(ram)
    ensures DistinctSids(Put(ram, b))
    ensures forall sid :: InRam(Put(ram, b), sid) <==> InRam(ram, sid) || sid == b.sid
  {
    if ram != [] {
      PutDistinct(ram[1..], b);
      var r := Put(ram, b);
      if ram[0].sid != b.sid {
        forall j | 0 < j < |r| ensures r[j].sid != r[0].sid {
          assert r[j] in Put(ram[1..], b);
        }
      }
    }
  }

  /** `r` is `ram` with `b` in the place of the entries of its session. */
  predicate InItsPlace(ram: seq<Brief>, b: Brief, r: seq<Brief>) {
    |r| == |ram| && forall i :: 0 <= i < |ram| ==> r[i] == if ram[i].sid == b.sid then b else ram[i]
  }

  lemma InItsPlaceCons(x: Brief, ram: seq<Brief>, b: Brief, r: seq<Brief>)
    requires InItsPlace(ram, b, r) && x.sid != b.sid
    ensures InItsPlace([x] + ram, b, [x] + r)
  {
  }

  /** A known session keeps its place in the dictionary, a new one goes to the end; no other entry changes. */
  lemma {:induction false} PutInPlace(ram: seq<Brief>, b: Brief)
    requires DistinctSids(ram)
    ensures if InRam(ram, b.sid) then InItsPlace(ram, b, Put(ram, b)) else Put(ram, b) == ram + [b]
  {
    if ram != [] {
      var x, rest := ram[0], ram[1..];
      assert ram == [x] + rest;
      if x.sid != b.sid {
        PutInPlace(rest, b);
        if InRam(rest, b.sid) {
          InItsPlaceCons(x, rest, b, Put(rest, b));
        } else {
          Assoc([x], rest, [b]);
        }
      }
    }
  }

  lemma StepKeepsInv(s: State, op: Op)
    requires Inv(s)
    ensures Inv(Step(s, op))
  {
    match op
    case Index(b) =>
      if b.embedding.Some? { IndexSessionConsistent(s.t, b.sid, b.embedding.value, b.chunks); }
    case Store(b) =>
      PutDistinct(s.ram, b);
    case LookupStore(b) =>
      PutDistinct(s.ram, b);
      NameConsistent(s.t, b.sid);
    case LoadStore(b) =>
      PutDistinct(s.ram, b);
      if b.embedding.Some? { IndexSummaryConsistent(s.t, b.sid, b.embedding.value); }
    case Displace(sid) =>
      SubDistinct(s.ram, (x: Brief) => x.sid != sid);
    case ReleaseLabels(sid) =>
      ReleaseExact(s.t, sid);
    case Evict(env, n) =>
      if Rebuilds(s, op) {
        RebuildStep(s, env, n);
        RebuiltInv(Left(s, env, n));
      }
  }

  /** The maps agree and RAM holds each session once, after any operations in any order. */
  lemma {:induction false} RunKeepsInv(s: State, ops: seq<Op>)
    requires Inv(s)
    ensures Inv(Run(s, ops))
    decreases |ops|
  {
    if ops != [] {
      StepKeepsInv(s, ops[0]);
      RunKeepsInv(Step(s, ops[0]), ops[1..]);
    }
  }

  /** A displaced session is out of RAM with its labels and rows left behind; everybody else stays. */
  lemma DisplaceExact(s: State, sid: Sid, b: Brief)
    ensures Step(s, Displace(sid)).t == s.t && !InRam(Step(s, Displace(sid)).ram, sid)
    ensures b in Step(s, Displace(sid)).ram <==> b in s.ram && b.sid != sid
  {
  }

  // ------------------------------------------------------- released labels stay dead

  predicate Rebuilds(s: State, op: Op) {
    op.Evict? && Victims(s.ram, op.env, op.n) != []
  }

  predicate RebuildFree(s: State, ops: seq<Op>)
    decreases |ops|
  {
    ops == [] || (!Rebuilds(s, ops[0]) && RebuildFree(Step(s, ops[0]), ops[1..]))
  }

  lemma StepKeepsDead(s: State, op: Op, lbl: nat)
    requires Inv(s) && !Rebuilds(s, op)
    requires lbl < s.t.next && !Resolves(s.t, lbl)
    ensures lbl < Step(s, op).t.next && !Resolves(Step(s, op).t, lbl)
  {
    match op
    case Index(b) =>
      LabelForBelow(s.t, b.sid);
      if b.embedding.Some? { AllocateChunksEffect(IndexSummary(s.t, b.sid, b.embedding.value), b.sid, |b.chunks|); }
    case Store(b) =>
    case LookupStore(b) => LabelForBelow(s.t, b.sid);
    case LoadStore(b) => LabelForBelow(s.t, b.sid);
    case Displace(sid) =>
    case ReleaseLabels(sid) =>
    case Evict(env, n) =>
  }

  /** Once a label no longer resolves, no run without a rebuild brings it back. */
  lemma {:induction false} DeadLabelStaysDead(s: State, ops: seq<Op>, lbl: nat)
    requires Inv(s) && RebuildFree(s, ops)
    requires lbl < s.t.next && !Resolves(s.t, lbl)
    ensures !Resolves(Run(s, ops).t, lbl)
    decreases |ops|
  {
    if ops != [] {
      StepKeepsInv(s, ops[0]);
      StepKeepsDead(s, ops[0], lbl);
      DeadLabelStaysDead(Step(s, ops[0]), ops[1..], lbl);
    }
  }

  /** In particular every label a release drops, through any such run. */
  lemma ReleasedLabelStaysDead(s: State, sid: Sid, ops: seq<Op>, lbl: nat)
    requires Inv(s) && Owns(s.t, sid, lbl) && RebuildFree(Step(s, ReleaseLabels(sid)), ops)
    ensures !Resolves(Run(Step(s, ReleaseLabels(sid)), ops).t, lbl)
  {
    StepKeepsInv(s, ReleaseLabels(sid));
    assert lbl < s.t.next && !Resolves(Release(s.t, sid), lbl) by {
      ReleaseExact(s.t, sid);
      assert Resolves(s.t, lbl);
    }
    DeadLabelStaysDead(Step(s, ReleaseLabels(sid)), ops, lbl);
  }

  lemma VictimsAreInRam(ram: seq<Brief>, env: Env, n: int, v: Brief)
    requires DistinctSids(ram) && v in Victims(ram, env, n)
    ensures v in ram
  {
    SurvivorsCount(ram, env, n);
  }

  /** The sessions an eviction leaves in RAM. */
  function Left(s: State, env: Env, n: int): seq<Brief> {
    Survivors(s.ram, Victims(s.ram, env, n))
  }

  lemma RebuildStep(s: State, env: Env, n: int)
    requires Inv(s) && Rebuilds(s, Evict(env, n))
    ensures DistinctSids(Left(s, env, n))
    ensures forall b :: b in Left(s, env, n) ==> b in s.ram && b !in Victims(s.ram, env, n)
    ensures Step(s, Evict(env, n)) == State(Left(s, env, n), Rebuilt(Left(s, env, n)))
  {
    SubDistinct(s.ram, Outside(Victims(s.ram, env, n)));
  }

  lemma AbsentUnlabelled(left: seq<Brief>, sid: Sid)
    requires DistinctSids(left) && forall x :: x in left ==> x.sid != sid
    ensures !InRam(left, sid) && LabelsOf(Rebuilt(left), sid) == []
  {
    assert !EmbeddedIn(left, sid);
    NoLabelsOutside(left, sid);
  }

  /** A victim is gone from RAM and from every label table. */
  lemma VictimGone(s: State, env: Env, n: int, v: Brief)
    requires Inv(s) && v in Victims(s.ram, env, n)
    ensures var r := Step(s, Evict(env, n));
            !InRam(r.ram, v.sid) && LabelsOf(r.t, v.sid) == []
  {
    RebuildStep(s, env, n);
    VictimsAreInRam(s.ram, env, n, v);
    OneBriefPerSid(s.ram, v);
    AbsentUnlabelled(Left(s, env, n), v.sid);
  }

  /** Every session in RAM finds its own vectors under its labels. */
  ghost predicate AllFiled(s: State) {
    forall i :: 0 <= i < |s.ram| ==> Filed(s.t, s.ram[i].sid, VectorsOf(s.ram[i]))
  }

  /** An eviction that removes anyone leaves the index holding exactly the survivors' vectors. */
  lemma EvictReindexes(s: State, env: Env, n: int)
    requires Inv(s) && Victims(s.ram, env, n) != []
    ensures var r := Step(s, Evict(env, n));
            Holds(r.t, Entries(r.ram)) && UniqueRows(r.t) && AllFiled(r)
  {
    RebuildStep(s, env, n);
    RebuildReindexes(Left(s, env, n));
  }

  lemma RebuildReindexes(left: seq<Brief>)
    requires DistinctSids(left)
    ensures Holds(Rebuilt(left), Entries(left)) && UniqueRows(Rebuilt(left)) && AllFiled(State(left, Rebuilt(left)))
  {
    RebuiltLayout(left);
    forall i | 0 <= i < |left| ensures Filed(Rebuilt(left), left[i].sid, VectorsOf(left[i])) {
      RebuiltFiled(left, i);
    }
  }

  lemma RebuiltInv(ram: seq<Brief>)
    requires DistinctSids(ram)
    ensures Inv(State(ram, Rebuilt(ram)))
  {
    RebuiltLayout(ram);
  }

  // ------------------------------------------------------------------ cold hydration

  function PutAll(ram: seq<Brief>, briefs: seq<Brief>): seq<Brief> {
    if briefs == [] then ram else Put(PutAll(ram, briefs[..|briefs| - 1]), briefs[|briefs| - 1])
  }

  function IndexEmbeddings(t: Tables, es: seq<(Sid, Vector)>): Tables {
    if es == [] then t
    else
      var e := es[|es| - 1];
      IndexSummary(IndexEmbeddings(t, es[..|es| - 1]), e.0, e.1)
  }

  /** Chunk rows of sessions in RAM; the others would lead to a brief that is not there. */
  function Wanted(ram: seq<Brief>): ((Sid, Vector)) -> bool {
    (row: (Sid, Vector)) => InRam(ram, row.0)
  }

  function IndexChunkRows(t: Tables, rows: seq<(Sid, Vector)>): Tables {
    if rows == [] then t
    else
      var r := rows[|rows| - 1];
      IndexChunks(IndexChunkRows(t, rows[..|rows| - 1]), r.0, [r.1])
  }

  function AttachChunk(ram: seq<Brief>, sid: Sid, v: Vector): seq<Brief> {
    match Find(ram, sid)
    case Some(b) => Put(ram, b.(chunks := b.chunks + [v]))
    case None => ram
  }

  function AttachChunks(ram: seq<Brief>, rows: seq<(Sid, Vector)>): seq<Brief> {
    if rows == [] then ram
    else AttachChunk(AttachChunks(ram, rows[..|rows| - 1]), rows[|rows| - 1].0, rows[|rows| - 1].1)
  }

  function MaxLabel(labels: seq<nat>): (m: nat)
    requires labels != []
    ensures m in labels && forall l :: l in labels ==> l <= m
  {
    if |labels| == 1 then labels[0]
    else
      var m := MaxLabel(labels[1..]);
      assert labels == [labels[0]] + labels[1..];
      if m < labels[0] then labels[0] else m
  }

  /** RAM and tables after hydration from an empty context. */
  function Hydrated(briefs: seq<Brief>, es: seq<(Sid, Vector)>, rows: seq<(Sid, Vector)>): State {
    var ram := PutAll([], briefs);
    if es == [] then State(ram, EMPTY)
    else
      var t := IndexChunkRows(IndexEmbeddings(EMPTY, es), Filter(rows, Wanted(ram)));
      State(AttachChunks(ram, Filter(rows, Wanted(ram))), t)
  }

  lemma IndexSummaryConsistent(t: Tables, sid: Sid, v: Vector)
    requires Consistent(t)
    ensures Consistent(IndexSummary(t, sid, v))
  {
    NameConsistent(t, sid);
    LabelForBelow(t, sid);
    SameMapsConsistent(Name(t, sid), IndexSummary(t, sid, v));
  }

  ghost predicate Among(es: seq<(Sid, Vector)>, sid: Sid) {
    exists i :: 0 <= i < |es| && es[i].0 == sid
  }

  /** What every prefix of a hydration satisfies, repeated sessions included. */
  ghost predicate Filling(t: Tables, es: seq<(Sid, Vector)>) {
    && Consistent(t)
    && |es| <= |t.labels|
    && (forall i :: 0 <= i < |es| ==> es[i].0 in t.sidToId && t.labels[i] == t.sidToId[es[i].0])
    && (t.next > 0 ==> t.next - 1 in t.labels)
    && (forall s :: s in t.sidToId ==> Among(es, s))
  }

  lemma FillNamed(t: Tables, es: seq<(Sid, Vector)>, i: nat)
    requires es != [] && Filling(t, es[..|es| - 1]) && |t.labels| == |es| - 1 && i < |es|
    ensures var r := IndexSummary(t, es[|es| - 1].0, es[|es| - 1].1);
            |r.labels| == |es| && es[i].0 in r.sidToId && r.labels[i] == r.sidToId[es[i].0]
  {
    assert i < |es| - 1 ==> es[..|es| - 1][i] == es[i];
  }

  lemma FillAmong(t: Tables, es: seq<(Sid, Vector)>, s: Sid)
    requires es != [] && Filling(t, es[..|es| - 1])
    requires s in t.sidToId || s == es[|es| - 1].0
    ensures Among(es, s)
  {
    var init := es[..|es| - 1];
    if s in t.sidToId {
      assert Among(init, s);
      var i :| 0 <= i < |init| && init[i].0 == s;
      assert es[i].0 == s;
    }
  }

  lemma FillStep(t: Tables, es: seq<(Sid, Vector)>)
    requires es != [] && Filling(t, es[..|es| - 1]) && |t.labels| == |es| - 1
    ensures Filling(IndexSummary(t, es[|es| - 1].0, es[|es| - 1].1), es)
  {
    var (sid, v) := es[|es| - 1];
    var r := IndexSummary(t, sid, v);
    IndexSummaryConsistent(t, sid, v);
    forall i | 0 <= i < |es| ensures es[i].0 in r.sidToId && r.labels[i] == r.sidToId[es[i].0] { FillNamed(t, es, i); }
    FillCounter(t, sid, v);
    forall s | s in r.sidToId ensures Among(es, s) { FillAmong(t, es, s); }
  }

  lemma FillCounter(t: Tables, sid: Sid, v: Vector)
    requires t.next > 0 ==> t.next - 1 in t.labels
    ensures var r := IndexSummary(t, sid, v);
            && r.labels == t.labels + [LabelFor(t, sid)]
            && (r.next > 0 ==> r.next - 1 in r.labels)
  {
    var r := IndexSummary(t, sid, v);
    assert r.labels[|t.labels|] == LabelFor(t, sid);
    if sid in t.sidToId && t.next > 0 {
      var i :| 0 <= i < |t.labels| && t.labels[i] == t.next - 1;
      assert r.labels[i] == t.next - 1;
    }
  }

  lemma {:induction false} EmbeddingsFill(es: seq<(Sid, Vector)>)
    ensures Filling(IndexEmbeddings(EMPTY, es), es)
  {
    if es != [] {
      EmbeddingsFill(es[..|es| - 1]);
      LabelCount(es[..|es| - 1]);
      FillStep(IndexEmbeddings(EMPTY, es[..|es| - 1]), es);
    }
  }

  lemma NotYetNamed(es: seq<(Sid, Vector)>)
    requires es != [] && DistinctPairs(es)
    ensures es[|es| - 1].0 !in IndexEmbeddings(EMPTY, es[..|es| - 1]).sidToId
  {
    EmbeddingsFill(es[..|es| - 1]);
  }

  lemma {:induction false} EmbeddingsLayout(es: seq<(Sid, Vector)>)
    requires DistinctPairs(es)
    ensures Holds(IndexEmbeddings(EMPTY, es), es)
  {
    if es != [] {
      var init, e := es[..|es| - 1], es[|es| - 1];
      EmbeddingsLayout(init);
      NotYetNamed(es);
      NameAppends(IndexEmbeddings(EMPTY, init), e.0, e.1, init);
      assert init + [(e.0, e.1)] == es;
    }
  }

  lemma {:induction false} LabelCount(es: seq<(Sid, Vector)>)
    ensures |IndexEmbeddings(EMPTY, es).labels| == |es|
  {
    if es != [] { LabelCount(es[..|es| - 1]); }
  }

  predicate DistinctPairs(es: seq<(Sid, Vector)>) {
    forall i, j :: 0 <= i < j < |es| ==> es[i].0 != es[j].0
  }

  lemma ChunkStep(t: Tables, es: seq<(Sid, Vector)>, sid: Sid, v: Vector)
    requires Filling(t, es)
    ensures Filling(IndexChunks(t, sid, [v]), es)
  {
    var z := IndexChunks(t, sid, [v]);
    AllocateChunksEffect(t, sid, 1);
    ChunksConsistent(t, sid, 1);
    SameMapsConsistent(AllocateChunks(t, sid, 1), z);
    assert z.labels == t.labels + [t.next];
    assert z.labels[|t.labels|] == z.next - 1;
  }

  lemma {:induction false} ChunkRowsFill(t: Tables, es: seq<(Sid, Vector)>, rows: seq<(Sid, Vector)>)
    requires Filling(t, es)
    ensures Filling(IndexChunkRows(t, rows), es)
  {
    if rows != [] {
      var init, r := rows[..|rows| - 1], rows[|rows| - 1];
      ChunkRowsFill(t, es, init);
      ChunkStep(IndexChunkRows(t, init), es, r.0, r.1);
    }
  }

  lemma {:induction false} ChunkRowsLayout(t: Tables, es: seq<(Sid, Vector)>, rows: seq<(Sid, Vector)>)
    requires Holds(t, es)
    ensures Holds(IndexChunkRows(t, rows), es + rows)
  {
    if rows != [] {
      var init, r := rows[..|rows| - 1], rows[|rows| - 1];
      ChunkRowsLayout(t, es, init);
      ChunksAppend(IndexChunkRows(t, init), r.0, [r.1], es + init);
      assert es + init + Tagged(r.0, [r.1]) == es + rows;
    } else {
      assert es + rows == es;
    }
  }

  /**
   Cold hydration: the counter reset to the largest label plus one is the counter itself,
   the maps agree, and the rows are unique exactly when storage returned each session once;
   then row `i` is the i-th embedding, and the wanted chunk rows follow.
   */
  lemma HydrationLayout(briefs: seq<Brief>, es: seq<(Sid, Vector)>, rows: seq<(Sid, Vector)>)
    ensures var h := Hydrated(briefs, es, rows);
            && Consistent(h.t)
            && (es != [] ==> h.t.labels != [] && MaxLabel(h.t.labels) + 1 == h.t.next)
            && (UniqueRows(h.t) <==> DistinctPairs(es))
            && (es != [] && DistinctPairs(es) ==>
                  Holds(h.t, es + Filter(rows, Wanted(PutAll([], briefs)))))
  {
    var h := Hydrated(briefs, es, rows);
    if es != [] {
      var wanted := Filter(rows, Wanted(PutAll([], briefs)));
      EmbeddingsFill(es);
      ChunkRowsFill(IndexEmbeddings(EMPTY, es), es, wanted);
      assert h.t.labels[0] < h.t.next;
      if DistinctPairs(es) {
        EmbeddingsLayout(es);
        ChunkRowsLayout(IndexEmbeddings(EMPTY, es), es, wanted);
        RangeDistinct(0, h.t.next);
      } else {
        var i, j :| 0 <= i < j < |es| && es[i].0 == es[j].0;
        assert h.t.labels[i] == h.t.labels[j];
      }
    }
  }

  predicate LastOf(briefs: seq<Brief>, i: int, sid: Sid) {
    0 <= i < |briefs| && briefs[i].sid == sid && forall j :: i < j < |briefs| ==> briefs[j].sid != sid
  }

  /** What RAM holds for the session is the last brief of the list, the one at `i`, or nothing if there is none. */
  predicate Loaded(ram: seq<Brief>, briefs: seq<Brief>, sid: Sid, i: int) {
    match Find(ram, sid)
    case Some(b) => LastOf(briefs, i, sid) && briefs[i] == b
    case None => forall j :: 0 <= j < |briefs| ==> briefs[j].sid != sid
  }

  lemma LoadedNext(ram: seq<Brief>, init: seq<Brief>, last: Brief, sid: Sid, i: int)
    requires Loaded(ram, init, sid, i)
    ensures Loaded(Put(ram, last), init + [last], sid, if last.sid == sid then |init| else i)
  {
    PutFind(ram, last, sid);
  }

  /** Of the briefs given for a session hydration keeps the last, and it knows no other sessions. */
  lemma {:induction false} LoadedBriefs(briefs: seq<Brief>, sid: Sid) returns (i: int)
    ensures Loaded(PutAll([], briefs), briefs, sid, i)
  {
    i := 0;
    if briefs != [] {
      var init, last := briefs[..|briefs| - 1], briefs[|briefs| - 1];
      i := LoadedBriefs(init, sid);
      LoadedNext(PutAll([], init), init, last, sid, i);
      i := if last.sid == sid then |init| else i;
      assert init + [last] == briefs;
    }
  }

  function ChunksFor(rows: seq<(Sid, Vector)>, sid: Sid): seq<Vector> {
    if rows == [] then []
    else ChunksFor(rows[..|rows| - 1], sid) + if rows[|rows| - 1].0 == sid then [rows[|rows| - 1].1] else []
  }

  lemma {:induction false} FindExact(ram: seq<Brief>, b: Brief)
    requires DistinctSids(ram) && b in ram
    ensures Find(ram, b.sid) == Some(b)
  {
    if ram[0] != b {
      FindExact(ram[1..], b);
      var i :| 0 <= i < |ram| && ram[i] == b;
      assert ram[0].sid != ram[i].sid;
    }
  }

  lemma {:induction false} PutFind(ram: seq<Brief>, b: Brief, sid: Sid)
    ensures Find(Put(ram, b), sid) == if sid == b.sid then Some(b) else Find(ram, sid)
  {
    if ram != [] { PutFind(ram[1..], b, sid); }
  }

  lemma AttachFind(ram: seq<Brief>, at: Sid, v: Vector, sid: Sid)
    ensures Find(AttachChunk(ram, at, v), sid)
         == match Find(ram, sid)
            case Some(b) => Some(b.(chunks := b.chunks + if sid == at then [v] else []))
            case None => None
  {
    match Find(ram, at)
    case Some(b) =>
      PutFind(ram, b.(chunks := b.chunks + [v]), sid);
      if sid != at && Find(ram, sid).Some? { assert Find(ram, sid).value.chunks + [] == Find(ram, sid).value.chunks; }
    case None =>
      if Find(ram, sid).Some? { assert Find(ram, sid).value.chunks + [] == Find(ram, sid).value.chunks; }
  }

  /** Hydration hangs each session's chunk rows on its brief, in stored order. */
  lemma {:induction false} AttachedChunks(ram: seq<Brief>, rows: seq<(Sid, Vector)>, sid: Sid)
    ensures Find(AttachChunks(ram, rows), sid)
         == match Find(ram, sid)
            case Some(b) => Some(b.(chunks := b.chunks + ChunksFor(rows, sid)))
            case None => None
  {
    if rows != [] {
      var init, r := rows[..|rows| - 1], rows[|rows| - 1];
      AttachedChunks(ram, init, sid);
      AttachFind(AttachChunks(ram, init), r.0, r.1, sid);
      if Find(ram, sid).Some? {
        Assoc(Find(ram, sid).value.chunks, ChunksFor(init, sid), if r.0 == sid then [r.1] else []);
      }
    } else if Find(ram, sid).Some? {
      assert Find(ram, sid).value.chunks + [] == Find(ram, sid).value.chunks;
    }
  }

  lemma {:induction false} PutAllDistinct(ram: seq<Brief>, briefs: seq<Brief>)
    requires DistinctSids(ram)
    ensures DistinctSids(PutAll(ram, briefs))
  {
    if briefs != [] {
      PutAllDistinct(ram, briefs[..|briefs| - 1]);
      PutDistinct(PutAll(ram, briefs[..|briefs| - 1]), briefs[|briefs| - 1]);
    }
  }

  lemma {:induction false} AttachDistinct(ram: seq<Brief>, rows: seq<(Sid, Vector)>)
    requires DistinctSids(ram)
    ensures DistinctSids(AttachChunks(ram, rows))
  {
    if rows != [] {
      var init, r := rows[..|rows| - 1], rows[|rows| - 1];
      AttachDistinct(ram, init);
      var mid := AttachChunks(ram, init);
      match Find(mid, r.0)
      case Some(b) => PutDistinct(mid, b.(chunks := b.chunks + [r.1]));
      case None =>
    }
  }

  /** Every run starts from here. */
  lemma HydratedInv(briefs: seq<Brief>, es: seq<(Sid, Vector)>, rows: seq<(Sid, Vector)>)
    ensures Inv(Hydrated(briefs, es, rows))
  {
    var ram := PutAll([], briefs);
    HydrationLayout(briefs, es, rows);
    PutAllDistinct([], briefs);
    AttachDistinct(ram, Filter(rows, Wanted(ram)));
  }

  lemma {:induction false} ChunksForMembers(rows: seq<(Sid, Vector)>, sid: Sid, v: Vector)
    ensures v in ChunksFor(rows, sid) <==> (sid, v) in rows
  {
    if rows != [] {
      ChunksForMembers(rows[..|rows| - 1], sid, v);
      assert rows == rows[..|rows| - 1] + [rows[|rows| - 1]];
    }
  }
}
