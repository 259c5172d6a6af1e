/**
 The stateful side of the session index: the matrix, the label maps and RAM as mutable
 fields, each method tied to the table functions of `SessionIndex` and `SessionRuns`.
 */
module SystemContext {
  import opened Sorting
  import opened SessionIndex
  import opened SessionSearch
  import opened Eviction
  import opened SessionRuns

  function KeyAt(ds: seq<real>, i: nat): real {
    if i < |ds| then ds[i] else 0.0
  }

  method ArgSort(ds: seq<real>) returns (order: seq<nat>)
    ensures IsArgsort(order, ds)
  {
    var leq := (a: nat, b: nat) => KeyAt(ds, a) <= KeyAt(ds, b);
    order := Sort(Range(0, |ds|), leq);
    SortSorted(Range(0, |ds|), leq);
    forall i | 0 <= i < |order| ensures order[i] < |ds| {
      assert order[i] in multiset(Range(0, |ds|));
    }
    forall i, j | 0 <= i < j < |order| ensures ds[order[i]] <= ds[order[j]] {
      assert leq(order[i], order[j]);
    }
  }

  function DistanceTo(dist: (Vector, Vector) -> real, query: Vector): (f: Vector -> real)
    ensures forall v :: f(v) == dist(query, v)
  {
    v => dist(query, v)
  }

  /** How many rows the slice `[:k]` takes; a negative `k` counts from the end. */
  function Sliced(k: int, count: nat): (m: nat)
    ensures m <= count
  {
    if k >= count then count else if k >= 0 then k else if k + count >= 0 then k + count else 0
  }

  /** Labels and distances of the rows the slice takes, in the order given. */
  ghost predicate IsNearest(vectors: seq<Vector>, labels: seq<nat>, dist: Vector -> real, k: int,
                            order: seq<nat>, found: seq<nat>, ds: seq<real>) {
    && |vectors| == |labels| == |order|
    && IsArgsort(order, Distances(vectors, dist))
    && var m := Sliced(k, |order|);
       found == Pick(labels, order[..m]) && ds == Pick(Distances(vectors, dist), order[..m])
  }

  class MatrixSearch {
    var vectors: seq<Vector>
    var labels: seq<nat>

    constructor ()
      ensures vectors == [] && labels == []
    {
      vectors, labels := [], [];
    }

    method AddItems(vs: seq<Vector>, ids: seq<nat>)
      requires |vs| == |ids|
      modifies this
      ensures vectors == old(vectors) + vs && labels == old(labels) + ids
    {
      vectors := vectors + vs;
      labels := labels + ids;
    }

    method Clear()
      modifies this
      ensures vectors == [] && labels == []
    {
      vectors, labels := [], [];
    }

    /** The unweighted query: the first rows of some ascending order of the distances. */
    method KnnQuery(dist: Vector -> real, k: int) returns (found: seq<nat>, ds: seq<real>, ghost order: seq<nat>)
      requires |vectors| == |labels|
      ensures IsNearest(vectors, labels, dist, k, order, found, ds)
      ensures 0 <= k ==> |found| == |ds| == if k < |labels| then k else |labels|
      ensures k < 0 ==> |found| == |ds| == if 0 < |labels| + k then |labels| + k else 0
    {
      var count := |labels|;
      if count == 0 {
        return [], [], [];
      }
      var all := Distances(vectors, dist);
      var idx := ArgSort(all);
      ArgsortLength(idx, all);
      var m := Sliced(if k < count then k else count, count);
      return Pick(labels, idx[..m]), Pick(all, idx[..m]), idx;
    }
  }

  class SystemContext {
    var ramIndex: seq<Brief>
    var sidToId: map<Sid, nat>
    var idToSid: map<nat, Sid>
    var sidToChunkLabels: map<Sid, seq<nat>>
    var nextSessionLabel: nat
    var currentIntent: Option<Vector>
    const sessionIndex: MatrixSearch

    constructor ()
      ensures fresh(sessionIndex) && Valid() && View() == EMPTY && ramIndex == []
    {
      ramIndex, sidToId, idToSid, sidToChunkLabels := [], map[], map[], map[];
      nextSessionLabel, currentIntent := 0, None;
      sessionIndex := new MatrixSearch();
    }

    /** The tables as a value, with `labels` and `vectors` for the matrix rows. */
    ghost function Draft(labels: seq<nat>, vectors: seq<Vector>): Tables
      reads this
    {
      Tables(sidToId, idToSid, sidToChunkLabels, nextSessionLabel, labels, vectors)
    }

    ghost function View(): Tables
      reads this, sessionIndex
    {
      Draft(sessionIndex.labels, sessionIndex.vectors)
    }

    /** The maps, the counter and the matrix agree, and RAM holds each session once. */
    ghost predicate Valid()
      reads this, sessionIndex
    {
      Inv(State(ramIndex, View()))
    }

    // ---------------------------------------------------------------------- labels

    method GetSessionLabel(sid: Sid) returns (lbl: nat)
      modifies this`nextSessionLabel
      ensures lbl == LabelFor(old(View()), sid)
      ensures View() == AfterGetLabel(old(View()), sid)
    {
      if sid in sidToId {
        return sidToId[sid];
      }
      lbl := nextSessionLabel;
      nextSessionLabel := nextSessionLabel + 1;
    }

    method AllocateChunkLabel(sid: Sid) returns (lbl: nat)
      modifies this`nextSessionLabel, this`idToSid, this`sidToChunkLabels
      ensures lbl == old(nextSessionLabel)
      ensures forall ls, vs :: Draft(ls, vs) == AllocateChunk(old(Draft(ls, vs)), sid)
    {
      lbl := nextSessionLabel;
      nextSessionLabel := nextSessionLabel + 1;
      idToSid := idToSid[lbl := sid];
      sidToChunkLabels := sidToChunkLabels[sid := (if sid in sidToChunkLabels then sidToChunkLabels[sid] else []) + [lbl]];
    }

    /** Forgets a session's labels and returns them, the summary label first. */
    method ReleaseSessionLabels(sid: Sid) returns (dropped: seq<nat>)
      modifies this`sidToId, this`idToSid, this`sidToChunkLabels
      ensures dropped == LabelsOf(old(View()), sid)
      ensures View() == Release(old(View()), sid)
    {
      dropped := [];
      if sid in sidToId {
        var lbl := sidToId[sid];
        sidToId := sidToId - {sid};
        idToSid := idToSid - {lbl};
        dropped := [lbl];
      }
      var chunkLabels := if sid in sidToChunkLabels then sidToChunkLabels[sid] else [];
      sidToChunkLabels := sidToChunkLabels - {sid};
      ghost var summary := dropped;
      for i := 0 to |chunkLabels|
        invariant dropped == summary + chunkLabels[..i]
        invariant idToSid == old(idToSid) - (set l | l in dropped)
        invariant sidToId == old(sidToId) - {sid} && sidToChunkLabels == old(sidToChunkLabels) - {sid}
      {
        idToSid := idToSid - {chunkLabels[i]};
        dropped := dropped + [chunkLabels[i]];
      }
    }

    // --------------------------------------------------------------------- writers

    /** Labels and rows for one session's chunk vectors, under the session's name. */
    method IndexChunkVectors(sid: Sid, chunks: seq<Vector>)
      modifies this`nextSessionLabel, this`idToSid, this`sidToChunkLabels, sessionIndex
      ensures View() == IndexChunks(old(View()), sid, chunks)
    {
      var labels := [];
      ghost var before := View();
      for i := 0 to |chunks|
        invariant labels == Range(before.next, i)
        invariant View() == AllocateChunks(before, sid, i)
        invariant sessionIndex.labels == before.labels && sessionIndex.vectors == before.vectors
      {
        AllocateChunksNext(before, sid, i);
        var lbl := AllocateChunkLabel(sid);
        labels := labels + [lbl];
      }
      if chunks != [] {
        sessionIndex.AddItems(chunks, labels);
      }
    }

    /** How a new session enters the index: label, row, both maps, then its chunks. */
    method IndexSessionVectors(sid: Sid, v: Vector, chunks: seq<Vector>)
      requires Valid()
      modifies this`nextSessionLabel, this`idToSid, this`sidToId, this`sidToChunkLabels, sessionIndex
      ensures Valid()
      ensures View() == IndexSession(old(View()), sid, v, chunks)
    {
      ghost var before := View();
      var lbl := GetSessionLabel(sid);
      sessionIndex.AddItems([v], [lbl]);
      idToSid := idToSid[lbl := sid];
      sidToId := sidToId[sid := lbl];
      assert View() == IndexSummary(before, sid, v);
      IndexChunkVectors(sid, chunks);
      AllocateChunksNext(IndexSummary(before, sid, v), sid, |chunks|);
      IndexSessionConsistent(before, sid, v, chunks);
    }

    // -------------------------------------------------------------------- eviction

    /** Labels for a brief's chunk vectors, appended to the rows to be added. */
    method FileChunks(sid: Sid, chunks: seq<Vector>, vectors0: seq<Vector>, labels0: seq<nat>)
      returns (vectors: seq<Vector>, labels: seq<nat>)
      requires |vectors0| == |labels0|
      modifies this`idToSid, this`sidToChunkLabels, this`nextSessionLabel
      ensures |vectors| == |labels|
      ensures Draft(labels, vectors) == IndexChunks(old(Draft(labels0, vectors0)), sid, chunks)
    {
      vectors, labels := vectors0, labels0;
      ghost var named := Draft(labels, vectors);
      NoChunks(named, sid);
      for j := 0 to |chunks|
        invariant |vectors| == |labels|
        invariant Draft(labels, vectors) == IndexChunks(named, sid, chunks[..j])
      {
        IndexChunksStep(named, sid, chunks, j);
        var chunkLabel := AllocateChunkLabel(sid);
        vectors := vectors + [chunks[j]];
        labels := labels + [chunkLabel];
      }
      assert chunks[..|chunks|] == chunks;
    }

    /** Labels for a brief with an embedding, summary first; the others stay out. */
    method FileBrief(sb: Brief, vectors0: seq<Vector>, labels0: seq<nat>) returns (vectors: seq<Vector>, labels: seq<nat>)
      requires |vectors0| == |labels0| && sb.sid !in sidToId
      modifies this`sidToId, this`idToSid, this`sidToChunkLabels, this`nextSessionLabel
      ensures |vectors| == |labels|
      ensures Draft(labels, vectors) == IndexBrief(old(Draft(labels0, vectors0)), sb)
    {
      vectors, labels := vectors0, labels0;
      if sb.embedding.Some? {
        ghost var before := Draft(labels0, vectors0);
        var lbl := nextSessionLabel;
        nextSessionLabel := nextSessionLabel + 1;
        sidToId := sidToId[sb.sid := lbl];
        idToSid := idToSid[lbl := sb.sid];
        vectors := vectors + [sb.embedding.value];
        labels := labels + [lbl];
        assert Draft(labels, vectors) == IndexSummary(before, sb.sid, sb.embedding.value);
        vectors, labels := FileChunks(sb.sid, sb.chunks, vectors, labels);
      }
    }

    /** Rebuilds tables and matrix from RAM alone. */
    method RebuildSessionIndex()
      requires DistinctSids(ramIndex)
      modifies this`sidToId, this`idToSid, this`sidToChunkLabels, this`nextSessionLabel, sessionIndex
      ensures Valid()
      ensures View() == Rebuilt(ramIndex)
    {
      sessionIndex.Clear();
      sidToId, idToSid, sidToChunkLabels := map[], map[], map[];
      nextSessionLabel := 0;
      var vectors, labels := [], [];
      for i := 0 to |ramIndex|
        invariant sessionIndex.labels == [] && sessionIndex.vectors == []
        invariant |vectors| == |labels|
        invariant Draft(labels, vectors) == Rebuilt(ramIndex[..i])
      {
        RebuiltNext(ramIndex, i);
        vectors, labels := FileBrief(ramIndex[i], vectors, labels);
      }
      assert ramIndex[..|ramIndex|] == ramIndex;
      if vectors != [] {
        sessionIndex.AddItems(vectors, labels);
      }
      assert View() == Rebuilt(ramIndex);
      RebuiltInv(ramIndex);
    }

    /** One turn of the eviction loop: skip a protected session, forget any other. */
    method EvictOne(sb: Brief, env: Env) returns (went: bool)
      modifies this`ramIndex, this`sidToId, this`idToSid, this`sidToChunkLabels
      ensures went == CanEvict(sb, env)
      ensures ramIndex == if went then Drop(old(ramIndex), sb.sid) else old(ramIndex)
      ensures View() == if went then Release(old(View()), sb.sid) else old(View())
    {
      if !CanEvict(sb, env) {
        return false;
      }
      ramIndex := Drop(ramIndex, sb.sid);
      var _ := ReleaseSessionLabels(sb.sid);
      return true;
    }

    /** Goes down the list until `n` sessions have been forgotten. */
    method EvictInOrder(sessions: seq<Brief>, n: nat, env: Env)
      returns (evicted: nat, ghost victims: seq<Brief>, ghost seen: nat)
      modifies this`ramIndex, this`sidToId, this`idToSid, this`sidToChunkLabels
      ensures seen <= |sessions| && (victims, ramIndex) == EvictState(old(ramIndex), sessions, env, seen)
      ensures evicted == |victims| <= n && (seen == |sessions| || evicted == n)
      ensures victims == [] ==> View() == old(View())
    {
      ghost var ram := ramIndex;
      victims, evicted := [], 0;
      var i := 0;
      while i < |sessions| && evicted < n
        invariant i <= |sessions| && (victims, ramIndex) == EvictState(ram, sessions, env, i)
        invariant evicted == |victims| <= n
        invariant victims == [] ==>
                    sidToId == old(sidToId) && idToSid == old(idToSid) && sidToChunkLabels == old(sidToChunkLabels)
      {
        var went := EvictOne(sessions[i], env);
        victims := if went then victims + [sessions[i]] else victims;
        evicted := if went then evicted + 1 else evicted;
        i := i + 1;
      }
      seen := i;
    }

    /** Evicts up to `n` sessions of least priority and reports how many went. */
    method EvictNOldest(n: int, env: Env) returns (evicted: nat)
      requires Valid()
      modifies this`ramIndex, this`sidToId, this`idToSid, this`sidToChunkLabels, this`nextSessionLabel, sessionIndex
      ensures Valid()
      ensures State(ramIndex, View()) == AfterEvict(State(old(ramIndex), old(View())), env, n)
      ensures evicted == |Victims(old(ramIndex), env, n)|
    {
      if n <= 0 {
        NothingToEvict(State(ramIndex, View()), env, n);
        return 0;
      }
      ghost var before := State(ramIndex, View());
      var sessions := Sort(ramIndex, ByPriority(env.now));
      ghost var victims;
      ghost var seen;
      evicted, victims, seen := EvictInOrder(sessions, n, env);
      EvictStateDone(before.ram, sessions, env, n, seen);
      NoVictims(before.ram);
      if evicted > 0 {
        SubDistinct(before.ram, Outside(victims));
        RebuildSessionIndex();
      }
      StepKeepsInv(before, Evict(env, n));
    }

    /** One periodic check: the count rule first, the memory rule only if it has nothing to do. */
    method CheckAndEvict(env: Env)
      requires Valid()
      modifies this`ramIndex, this`sidToId, this`idToSid, this`sidToChunkLabels, this`nextSessionLabel, sessionIndex
      ensures Valid()
      ensures State(ramIndex, View()) == AfterEvict(State(old(ramIndex), old(View())), env, Quota(|old(ramIndex)|, env))
    {
      var count := |ramIndex|;
      if count as real > env.window as real * 0.8 {
        var n := (count as real - env.window as real * 0.7).Floor;
        assert n == Quota(count, env);
        var _ := EvictNOldest(n, env);
        return;
      }
      NothingToEvict(State(ramIndex, View()), env, 0);
      if env.baselineReady {
        var evictable := env.rssMb - env.baselineMb;
        if evictable > env.softLimitMb {
          var tenth := (count as real * 0.10).Floor;
          var n := if tenth < 1 then 1 else tenth;
          assert n == Quota(count, env);
          var _ := EvictNOldest(n, env);
        }
      }
    }

    // ------------------------------------------------------------------- hydration

    method LoadBriefs(briefs: seq<Brief>)
      modifies this`ramIndex
      ensures ramIndex == PutAll(old(ramIndex), briefs)
    {
      for i := 0 to |briefs|
        invariant ramIndex == PutAll(old(ramIndex), briefs[..i])
      {
        assert briefs[..i + 1][..i] == briefs[..i];
        ramIndex := Put(ramIndex, briefs[i]);
      }
      assert briefs[..|briefs|] == briefs;
    }

    method LabelSummaries(embeddings: seq<(Sid, Vector)>) returns (vectors: seq<Vector>, labels: seq<nat>)
      modifies this`sidToId, this`idToSid, this`nextSessionLabel
      ensures |vectors| == |labels|
      ensures Draft(labels, vectors) == IndexEmbeddings(old(Draft([], [])), embeddings)
    {
      vectors, labels := [], [];
      for i := 0 to |embeddings|
        invariant |vectors| == |labels|
        invariant Draft(labels, vectors) == IndexEmbeddings(old(Draft([], [])), embeddings[..i])
      {
        assert embeddings[..i + 1][..i] == embeddings[..i];
        var (sid, vec) := embeddings[i];
        var lbl := GetSessionLabel(sid);
        idToSid := idToSid[lbl := sid];
        sidToId := sidToId[sid := lbl];
        vectors := vectors + [vec];
        labels := labels + [lbl];
      }
      assert embeddings[..|embeddings|] == embeddings;
    }

    /** A label and a row for one stored chunk vector, which its brief takes along. */
    method LabelChunk(sid: Sid, vec: Vector, vectors0: seq<Vector>, labels0: seq<nat>)
      returns (vectors: seq<Vector>, labels: seq<nat>)
      modifies this`ramIndex, this`idToSid, this`sidToChunkLabels, this`nextSessionLabel
      ensures vectors == vectors0 + [vec] && |labels| == |labels0| + 1
      ensures ramIndex == AttachChunk(old(ramIndex), sid, vec)
      ensures Draft(labels, vectors) == AddItems(AllocateChunk(old(Draft(labels0, vectors0)), sid), [vec], [old(nextSessionLabel)])
    {
      var chunkLabel := AllocateChunkLabel(sid);
      vectors := vectors0 + [vec];
      labels := labels0 + [chunkLabel];
      ramIndex := AttachChunk(ramIndex, sid, vec);
    }

    method LabelChunks(chunkRows: seq<(Sid, Vector)>, vectors0: seq<Vector>, labels0: seq<nat>)
      returns (vectors: seq<Vector>, labels: seq<nat>)
      requires |vectors0| == |labels0|
      modifies this`ramIndex, this`idToSid, this`sidToChunkLabels, this`nextSessionLabel
      ensures |vectors| == |labels|
      ensures var wanted := Filter(chunkRows, Wanted(old(ramIndex)));
              && ramIndex == AttachChunks(old(ramIndex), wanted)
              && Draft(labels, vectors) == IndexChunkRows(old(Draft(labels0, vectors0)), wanted)
    {
      vectors, labels := vectors0, labels0;
      ghost var ram, start := ramIndex, Draft(labels0, vectors0);
      ghost var wanted: seq<(Sid, Vector)> := [];
      for i := 0 to |chunkRows|
        invariant wanted == Filter(chunkRows[..i], Wanted(ram))
        invariant ramIndex == AttachChunks(ram, wanted)
        invariant |vectors| == |labels|
        invariant Draft(labels, vectors) == IndexChunkRows(start, wanted)
      {
        var (sid, vec) := chunkRows[i];
        FilterNext(chunkRows, i, Wanted(ram));
        AttachedChunks(ram, wanted, sid);
        if InRam(ramIndex, sid) {
          WantedStep(start, wanted, sid, vec);
          AttachStep(ram, wanted, sid, vec);
          vectors, labels := LabelChunk(sid, vec, vectors, labels);
          wanted := wanted + [(sid, vec)];
        }
      }
      assert chunkRows[..|chunkRows|] == chunkRows;
    }

    /** Cold bootstrap from stored briefs, summary embeddings and chunk rows. */
    method Hydrate(briefs: seq<Brief>, embeddings: seq<(Sid, Vector)>, chunkRows: seq<(Sid, Vector)>)
      requires View() == EMPTY && ramIndex == []
      modifies this`ramIndex, this`sidToId, this`idToSid, this`sidToChunkLabels, this`nextSessionLabel, sessionIndex
      ensures Valid()
      ensures State(ramIndex, View()) == Hydrated(briefs, embeddings, chunkRows)
    {
      LoadBriefs(briefs);
      if embeddings == [] {
        HydratedInv(briefs, embeddings, chunkRows);
        return;
      }
      var vectors, labels := LabelSummaries(embeddings);
      vectors, labels := LabelChunks(chunkRows, vectors, labels);
      sessionIndex.AddItems(vectors, labels);
      ghost var filled := View();
      nextSessionLabel := if labels != [] then MaxLabel(labels) + 1 else 0;
      HydratedNext(briefs, embeddings, chunkRows);
      assert State(ramIndex, View()) == State(ramIndex, filled) == Hydrated(briefs, embeddings, chunkRows);
      HydratedInv(briefs, embeddings, chunkRows);
    }

    // ---------------------------------------------------------------------- search

    /** Labels back to sessions in RAM, each once. */
    method Deduplicate(labels: seq<nat>) returns (candidates: seq<Brief>)
      ensures Sids(candidates) == FirstSeen(Hits(idToSid, ramIndex, labels))
      ensures forall i :: 0 <= i < |candidates| ==> candidates[i] in ramIndex
    {
      candidates := [];
      var seen: set<Sid> := {};
      ghost var hits := Hits(idToSid, ramIndex, labels);
      for i := 0 to |labels|
        invariant Sids(candidates) == FirstSeen(hits[..i])
        invariant forall s :: s in seen <==> s in FirstSeen(hits[..i])
        invariant forall j :: 0 <= j < |candidates| ==> candidates[j] in ramIndex
      {
        assert hits[..i + 1][..i] == hits[..i];
        if labels[i] in idToSid {
          var sid := idToSid[labels[i]];
          if sid != "" && InRam(ramIndex, sid) && sid !in seen {
            seen := seen + {sid};
            candidates := candidates + [Find(ramIndex, sid).value];
          }
        }
      }
      assert hits[..|hits|] == hits;
    }

    /** Candidates of a semantic search, nearest session first. */
    method SemanticCandidates(query: Vector, dist: (Vector, Vector) -> real, k: int)
      returns (candidates: seq<Brief>)
      requires |sessionIndex.labels| == |sessionIndex.vectors|
      modifies this`currentIntent
      ensures View() == old(View())
      ensures currentIntent == if |sessionIndex.labels| == 0 then old(currentIntent) else Some(query)
      ensures forall i :: 0 <= i < |candidates| ==> candidates[i] in ramIndex
      ensures 0 <= k ==> IsAnswer(View(), ramIndex, DistanceTo(dist, query), k, Sids(candidates))
      ensures 0 <= k ==> FindsNear(View(), ramIndex, DistanceTo(dist, query), k, Sids(candidates))
      ensures 0 <= k ==> FindsOnlyNear(View(), ramIndex, DistanceTo(dist, query), k, Sids(candidates))
      ensures k < 0 && |sessionIndex.labels| <= -k ==> candidates == []
      ensures k < 0 && -k < |sessionIndex.labels| ==>
                IsAnswer(View(), ramIndex, DistanceTo(dist, query), |sessionIndex.labels| + k, Sids(candidates))
    {
      if |sessionIndex.labels| == 0 {
        candidates := [];
        EmptyAnswers(View(), ramIndex, DistanceTo(dist, query), k, Sids(candidates));
        return;
      }
      currentIntent := Some(query);
      var labels, distances, order := sessionIndex.KnnQuery(DistanceTo(dist, query), k);
      candidates := Deduplicate(labels);
      NearestAnswers(View(), ramIndex, DistanceTo(dist, query), k, order, labels, distances, Sids(candidates));
    }
  }

  /** An empty matrix answers with nothing. */
  lemma EmptyAnswers(t: Tables, ram: seq<Brief>, dist: Vector -> real, k: int, c: seq<Sid>)
    requires |t.labels| == |t.vectors| == 0 && c == []
    ensures 0 <= k ==> IsAnswer(t, ram, dist, k, c) && FindsNear(t, ram, dist, k, c) && FindsOnlyNear(t, ram, dist, k, c)
  {
    if 0 <= k {
      assert IsArgsort([], Distances(t.vectors, dist));
      assert AnswersFor(t, ram, k, [], c);
      FindsTheNearest(t, ram, dist, k, c);
    }
  }

  /** The nearest rows, each session once, are an answer to the query. */
  lemma NearestAnswers(t: Tables, ram: seq<Brief>, dist: Vector -> real, k: int,
                       order: seq<nat>, found: seq<nat>, ds: seq<real>, c: seq<Sid>)
    requires c == FirstSeen(Hits(t.idToSid, ram, found))
    requires |t.labels| == |t.vectors| && IsNearest(t.vectors, t.labels, dist, k, order, found, ds)
    ensures 0 <= k ==> IsAnswer(t, ram, dist, k, c) && FindsNear(t, ram, dist, k, c) && FindsOnlyNear(t, ram, dist, k, c)
    ensures k < 0 ==> IsAnswer(t, ram, dist, if 0 < |t.labels| + k then |t.labels| + k else 0, c)
    ensures k < 0 && |t.labels| <= -k ==> c == []
  {
    if 0 <= k {
      assert AnswersFor(t, ram, k, order, c);
      FindsTheNearest(t, ram, dist, k, c);
    } else {
      assert AnswersFor(t, ram, if 0 < |t.labels| + k then |t.labels| + k else 0, order, c);
    }
  }

  function Sids(briefs: seq<Brief>): (r: seq<Sid>)
    ensures |r| == |briefs| && forall i :: 0 <= i < |r| ==> r[i] == briefs[i].sid
  {
    seq(|briefs|, i requires 0 <= i < |briefs| => briefs[i].sid)
  }

  lemma FilterNext<T(!new)>(xs: seq<T>, i: nat, keep: T -> bool)
    requires i < |xs|
    ensures Filter(xs[..i + 1], keep) == if keep(xs[i]) then Filter(xs[..i], keep) + [xs[i]] else Filter(xs[..i], keep)
  {
    assert xs[..i + 1] == xs[..i] + [xs[i]];
    FilterAppend(xs[..i], [xs[i]], keep);
    assert Filter(xs[..i], keep) + [] == Filter(xs[..i], keep);
  }

  /** The loop may stop early, with its quota met, or at the end of the list. */
  lemma QuotaOfPrefix<T(!new)>(xs: seq<T>, keep: T -> bool, n: nat, i: nat)
    requires i <= |xs| && |Filter(xs[..i], keep)| <= n
    requires i == |xs| || |Filter(xs[..i], keep)| == n
    ensures Take(Filter(xs, keep), n) == Filter(xs[..i], keep)
  {
    FilterAppend(xs[..i], xs[i..], keep);
    assert xs == xs[..i] + xs[i..];
    if i == |xs| { assert xs[i..] == []; }
  }

  lemma AttachStep(ram: seq<Brief>, rows: seq<(Sid, Vector)>, sid: Sid, v: Vector)
    ensures AttachChunks(ram, rows + [(sid, v)]) == AttachChunk(AttachChunks(ram, rows), sid, v)
  {
    var more := rows + [(sid, v)];
    assert more[..|more| - 1] == rows;
  }

  lemma WantedStep(t: Tables, wanted: seq<(Sid, Vector)>, sid: Sid, v: Vector)
    ensures var r := IndexChunkRows(t, wanted);
            IndexChunkRows(t, wanted + [(sid, v)]) == AddItems(AllocateChunk(r, sid), [v], [r.next])
  {
    var more, r := wanted + [(sid, v)], IndexChunkRows(t, wanted);
    assert more[..|more| - 1] == wanted;
    IndexChunksStep(r, sid, [v], 0);
    NoChunks(r, sid);
    assert [v][..0] == [] && [v][..1] == [v];
  }

  lemma RebuiltNext(ram: seq<Brief>, i: nat)
    requires DistinctSids(ram) && i < |ram|
    ensures ram[i].sid !in Rebuilt(ram[..i]).sidToId
    ensures Rebuilt(ram[..i + 1]) == IndexBrief(Rebuilt(ram[..i]), ram[i])
  {
    RebuiltLayout(ram[..i]);
    assert !EmbeddedIn(ram[..i], ram[i].sid);
    assert ram[..i + 1][..i] == ram[..i];
  }

  lemma HydratedNext(briefs: seq<Brief>, es: seq<(Sid, Vector)>, rows: seq<(Sid, Vector)>)
    requires es != []
    ensures var t := Hydrated(briefs, es, rows).t;
            t.labels != [] && MaxLabel(t.labels) + 1 == t.next
  {
    HydrationLayout(briefs, es, rows);
  }

  lemma IndexChunksStep(t: Tables, sid: Sid, chunks: seq<Vector>, j: nat)
    requires j < |chunks|
    ensures var r := IndexChunks(t, sid, chunks[..j]);
            IndexChunks(t, sid, chunks[..j + 1]) == AddItems(AllocateChunk(r, sid), [chunks[j]], [r.next])
  {
    AllocateChunksNext(t, sid, j);
    assert Range(t.next, j + 1) == Range(t.next, j) + [t.next + j];
    assert chunks[..j + 1] == chunks[..j] + [chunks[j]];
    var r := IndexChunks(t, sid, chunks[..j]);
    assert r.vectors + [chunks[j]] == t.vectors + chunks[..j + 1];
    assert r.labels + [r.next] == t.labels + Range(t.next, j + 1);
  }

  /** Who has left and who has stayed once the loop is through `i` sessions of the priority order. */
  function EvictState(ram: seq<Brief>, sessions: seq<Brief>, env: Env, i: nat): (seq<Brief>, seq<Brief>)
    requires i <= |sessions|
    decreases i
  {
    if i == 0 then ([], ram)
    else
      var (victims, left) := EvictState(ram, sessions, env, i - 1);
      var sb := sessions[i - 1];
      if CanEvict(sb, env) then (victims + [sb], Drop(left, sb.sid)) else (victims, left)
  }

  lemma {:induction false} EvictStateVictims(ram: seq<Brief>, xs: seq<Brief>, env: Env, i: nat)
    requires i <= |xs|
    ensures EvictState(ram, xs, env, i).0 == Filter(xs[..i], Evictable(env))
  {
    if i > 0 {
      EvictStateVictims(ram, xs, env, i - 1);
      VictimsNext(xs, env, i - 1);
    } else {
      assert xs[..0] == [];
    }
  }

  lemma VictimsNext(xs: seq<Brief>, env: Env, i: nat)
    requires i < |xs|
    ensures var before := Filter(xs[..i], Evictable(env));
            Filter(xs[..i + 1], Evictable(env)) == if CanEvict(xs[i], env) then before + [xs[i]] else before
  {
    FilterNext(xs, i, Evictable(env));
  }

  lemma {:induction false} EvictStateLeft(ram: seq<Brief>, xs: seq<Brief>, env: Env, i: nat)
    requires DistinctSids(ram) && i <= |xs| && forall j :: 0 <= j < |xs| ==> xs[j] in ram
    ensures EvictState(ram, xs, env, i).1 == Survivors(ram, EvictState(ram, xs, env, i).0)
  {
    if i == 0 {
      NoVictims(ram);
    } else {
      EvictStateLeft(ram, xs, env, i - 1);
      DropVictim(ram, EvictState(ram, xs, env, i - 1).0, xs[i - 1]);
    }
  }

  lemma EvictStateDone(ram: seq<Brief>, sessions: seq<Brief>, env: Env, n: nat, i: nat)
    requires DistinctSids(ram) && sessions == Sort(ram, ByPriority(env.now)) && i <= |sessions|
    requires var (victims, left) := EvictState(ram, sessions, env, i); |victims| <= n && (i == |sessions| || |victims| == n)
    ensures EvictState(ram, sessions, env, i) == (Victims(ram, env, n), Survivors(ram, Victims(ram, env, n)))
  {
    forall j | 0 <= j < |sessions| ensures sessions[j] in ram { SortMembers(ram, ByPriority(env.now), sessions[j]); }
    EvictStateVictims(ram, sessions, env, i);
    EvictStateLeft(ram, sessions, env, i);
    QuotaOfPrefix(sessions, Evictable(env), n, i);
  }

  lemma NoVictims(ram: seq<Brief>)
    ensures Survivors(ram, []) == ram
  {
    KeepAll(ram, Outside([]));
  }

  lemma DropVictim(ram: seq<Brief>, victims: seq<Brief>, v: Brief)
    requires DistinctSids(ram) && v in ram
    ensures Drop(Survivors(ram, victims), v.sid) == Survivors(ram, victims + [v])
  {
    forall b | b in ram ensures (b.sid != v.sid) == (b != v) {
      var i :| 0 <= i < |ram| && ram[i] == b;
      var j :| 0 <= j < |ram| && ram[j] == v;
    }
    DropOne(ram, victims, v);
  }

  lemma {:induction false} DropOne(xs: seq<Brief>, victims: seq<Brief>, v: Brief)
    requires forall b :: b in xs ==> (b.sid != v.sid) == (b != v)
    ensures Drop(Filter(xs, Outside(victims)), v.sid) == Filter(xs, Outside(victims + [v]))
  {
    if xs != [] {
      DropOne(xs[1..], victims, v);
      FilterAppend(if Outside(victims)(xs[0]) then [xs[0]] else [], Filter(xs[1..], Outside(victims)), (b: Brief) => b.sid != v.sid);
      assert xs[0] in victims + [v] <==> xs[0] in victims || xs[0] == v;
    }
  }
}
