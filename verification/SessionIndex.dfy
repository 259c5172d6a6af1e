/**
 The two-level session index as values: the label tables of the system context and the
 rows of the vector matrix, with one function per table operation, the invariant they
 keep, and what every run of operations guarantees.
 */
module SessionIndex {
  import opened Sorting

  datatype Option<+T> = None | Some(value: T)

  type Sid = string
  type Vector = seq<real>

  /** One session in RAM: its summary vector, its chunk vectors and the eviction fields. */
  datatype Brief = Brief(
    sid: Sid,
    embedding: Option<Vector>,
    chunks: seq<Vector>,
    importance: string,
    intensity: real,
    createdAt: int,
    conflict: bool,
    deadline: Option<int>,
    urgencyExpired: bool)

  /** `labels[i]` is the label of matrix row `vectors[i]`. */
  datatype Tables = Tables(
    sidToId: map<Sid, nat>,
    idToSid: map<nat, Sid>,
    chunkLabels: map<Sid, seq<nat>>,
    next: nat,
    labels: seq<nat>,
    vectors: seq<Vector>)

  const EMPTY := Tables(map[], map[], map[], 0, [], [])

  // ---------------------------------------------------------------- label operations

  function Range(lo: nat, n: nat): (r: seq<nat>)
    ensures |r| == n && forall i :: 0 <= i < n ==> r[i] == lo + i
  {
    seq(n, i requires 0 <= i < n => lo + i)
  }

  function ChunkLabelsOf(t: Tables, sid: Sid): seq<nat> {
    if sid in t.chunkLabels then t.chunkLabels[sid] else []
  }

  /** Every label a session holds, the summary label first. */
  function LabelsOf(t: Tables, sid: Sid): seq<nat> {
    (if sid in t.sidToId then [t.sidToId[sid]] else []) + ChunkLabelsOf(t, sid)
  }

  /** The label a session's summary gets: its own if it has one, else the next fresh one. */
  function LabelFor(t: Tables, sid: Sid): nat {
    if sid in t.sidToId then t.sidToId[sid] else t.next
  }

  function AfterGetLabel(t: Tables, sid: Sid): Tables {
    if sid in t.sidToId then t else t.(next := t.next + 1)
  }

  /** Get a label and record it in both directions, without a row. */
  function Name(t: Tables, sid: Sid): Tables {
    var lbl := LabelFor(t, sid);
    AfterGetLabel(t, sid).(sidToId := t.sidToId[sid := lbl], idToSid := t.idToSid[lbl := sid])
  }

  function AddItems(t: Tables, vectors: seq<Vector>, labels: seq<nat>): Tables {
    t.(vectors := t.vectors + vectors, labels := t.labels + labels)
  }

  function AllocateChunk(t: Tables, sid: Sid): Tables {
    t.(next := t.next + 1,
       idToSid := t.idToSid[t.next := sid],
       chunkLabels := t.chunkLabels[sid := ChunkLabelsOf(t, sid) + [t.next]])
  }

  function AllocateChunks(t: Tables, sid: Sid, n: nat): Tables
    decreases n
  {
    if n == 0 then t else AllocateChunk(AllocateChunks(t, sid, n - 1), sid)
  }

  function IndexChunks(t: Tables, sid: Sid, chunks: seq<Vector>): Tables {
    AddItems(AllocateChunks(t, sid, |chunks|), chunks, Range(t.next, |chunks|))
  }

  function IndexSummary(t: Tables, sid: Sid, v: Vector): Tables {
    AddItems(Name(t, sid), [v], [LabelFor(t, sid)])
  }

  /** The discipline of every writer: label the summary, add its row, then the chunks. */
  function IndexSession(t: Tables, sid: Sid, v: Vector, chunks: seq<Vector>): Tables {
    IndexChunks(IndexSummary(t, sid, v), sid, chunks)
  }

  function IndexBrief(t: Tables, b: Brief): Tables {
    if b.embedding.None? then t else IndexSession(t, b.sid, b.embedding.value, b.chunks)
  }

  function Release(t: Tables, sid: Sid): Tables {
    t.(sidToId := t.sidToId - {sid},
       idToSid := t.idToSid - (set l | l in LabelsOf(t, sid)),
       chunkLabels := t.chunkLabels - {sid})
  }

  /** The tables a rebuild leaves: every brief that has an embedding, in RAM order. */
  function Rebuilt(ram: seq<Brief>): Tables {
    if ram == [] then EMPTY else IndexBrief(Rebuilt(ram[..|ram| - 1]), ram[|ram| - 1])
  }

  // ------------------------------------------------------------------- the invariant

  predicate Resolves(t: Tables, lbl: nat) {
    lbl in t.idToSid
  }

  predicate Owns(t: Tables, sid: Sid, lbl: nat) {
    lbl in LabelsOf(t, sid)
  }

  /** The three maps agree, and labels come only from below the counter. */
  ghost predicate Consistent(t: Tables) {
    && |t.labels| == |t.vectors|
    && (forall i :: 0 <= i < |t.labels| ==> t.labels[i] < t.next)
    && (forall l: nat :: Resolves(t, l) ==> l < t.next)
    && (forall sid, l: nat :: Owns(t, sid, l) <==> Resolves(t, l) && t.idToSid[l] == sid)
    && (forall sid :: Distinct(LabelsOf(t, sid)))
  }

  ghost predicate UniqueRows(t: Tables) {
    Distinct(t.labels)
  }

  /** `r` is `t` with `n` more labels, the next ones of the counter, all held by `sid`. */
  ghost predicate ChunksAdded(t: Tables, r: Tables, sid: Sid, n: nat) {
    && r.next == t.next + n
    && r.sidToId == t.sidToId && r.labels == t.labels && r.vectors == t.vectors
    && (forall s :: ChunkLabelsOf(r, s) == Grown(t, sid, n, s))
    && (forall l: nat :: l in r.idToSid <==> l in t.idToSid || t.next <= l < t.next + n)
    && (forall l: nat :: l in r.idToSid ==> r.idToSid[l] == if t.next <= l < t.next + n then sid else t.idToSid[l])
  }

  /** The labels `s` holds once `sid` has had `n` more. */
  function Grown(t: Tables, sid: Sid, n: nat, s: Sid): seq<nat> {
    ChunkLabelsOf(t, s) + if s == sid then Range(t.next, n) else []
  }

  lemma OneMoreLabel(t: Tables, m: Tables, sid: Sid, n: nat, s: Sid)
    requires m.next == t.next + n && ChunkLabelsOf(m, s) == Grown(t, sid, n, s)
    ensures ChunkLabelsOf(AllocateChunk(m, sid), s) == Grown(t, sid, n + 1, s)
  {
    if s == sid {
      assert Range(t.next, n + 1) == Range(t.next, n) + [m.next];
      Assoc(ChunkLabelsOf(t, s), Range(t.next, n), [m.next]);
    }
  }

  lemma OneMoreChunk(t: Tables, m: Tables, sid: Sid, n: nat)
    requires ChunksAdded(t, m, sid, n)
    ensures ChunksAdded(t, AllocateChunk(m, sid), sid, n + 1)
  {
    forall s ensures ChunkLabelsOf(AllocateChunk(m, sid), s) == Grown(t, sid, n + 1, s) {
      OneMoreLabel(t, m, sid, n, s);
    }
  }

  lemma {:induction false} AllocateChunksEffect(t: Tables, sid: Sid, n: nat)
    ensures ChunksAdded(t, AllocateChunks(t, sid, n), sid, n)
  {
    if n > 0 {
      AllocateChunksEffect(t, sid, n - 1);
      OneMoreChunk(t, AllocateChunks(t, sid, n - 1), sid, n - 1);
    }
  }

  lemma {:induction false} AllocateChunksNext(t: Tables, sid: Sid, n: nat)
    ensures AllocateChunks(t, sid, n).next == t.next + n
    ensures AllocateChunks(t, sid, n).labels == t.labels && AllocateChunks(t, sid, n).vectors == t.vectors
  {
    if n > 0 { AllocateChunksNext(t, sid, n - 1); }
  }

  lemma NameLabels(t: Tables, sid: Sid, s: Sid)
    ensures LabelsOf(Name(t, sid), s) == if s == sid && sid !in t.sidToId then [t.next] + LabelsOf(t, s) else LabelsOf(t, s)
  {
  }

  lemma NameOwner(t: Tables, sid: Sid, s: Sid, l: nat)
    requires Consistent(t)
    ensures var r := Name(t, sid);
            && (Owns(r, s, l) <==> Resolves(r, l) && r.idToSid[l] == s)
            && (Resolves(r, l) ==> l < r.next)
  {
    NameLabels(t, sid, s);
    assert Owns(t, s, l) <==> Resolves(t, l) && t.idToSid[l] == s;
    if sid in t.sidToId {
      assert Owns(t, sid, t.sidToId[sid]);
    }
  }

  lemma NameConsistent(t: Tables, sid: Sid)
    requires Consistent(t)
    ensures Consistent(Name(t, sid))
  {
    var r := Name(t, sid);
    assert sid in t.sidToId ==> Owns(t, sid, t.sidToId[sid]);
    forall l: nat | Resolves(r, l) ensures l < r.next { NameOwner(t, sid, sid, l); }
    forall s: Sid, l: nat ensures Owns(r, s, l) <==> Resolves(r, l) && r.idToSid[l] == s { NameOwner(t, sid, s, l); }
    forall s: Sid ensures Distinct(LabelsOf(r, s)) {
      NameLabels(t, sid, s);
      assert !Owns(t, s, t.next);
    }
  }

  lemma RangeMembers(lo: nat, n: nat, l: nat)
    ensures l in Range(lo, n) <==> lo <= l < lo + n
  {
    if lo <= l < lo + n { assert Range(lo, n)[l - lo] == l; }
  }

  /** A session's own labels followed by fresh ones. */
  lemma MoreLabels(t: Tables, r: Tables, sid: Sid, n: nat, s: Sid)
    requires Consistent(t) && ChunksAdded(t, r, sid, n)
    ensures LabelsOf(r, s) == LabelsOf(t, s) + if s == sid then Range(t.next, n) else []
    ensures Distinct(LabelsOf(r, s))
  {
    var had := LabelsOf(t, s);
    assert ChunkLabelsOf(r, s) == Grown(t, sid, n, s);
    assert Distinct(had);
    forall i | 0 <= i < |had| ensures had[i] < t.next {
      assert Owns(t, s, had[i]);
    }
  }

  lemma ChunksConsistent(t: Tables, sid: Sid, n: nat)
    requires Consistent(t)
    ensures Consistent(AllocateChunks(t, sid, n))
  {
    var r := AllocateChunks(t, sid, n);
    AllocateChunksEffect(t, sid, n);
    forall s: Sid ensures Distinct(LabelsOf(r, s)) { MoreLabels(t, r, sid, n, s); }
    forall l: nat | Resolves(r, l) ensures l < r.next { assert Resolves(t, l) || t.next <= l < t.next + n; }
    forall s: Sid, l: nat
      ensures Owns(r, s, l) <==> Resolves(r, l) && r.idToSid[l] == s
    {
      MoreLabels(t, r, sid, n, s);
      RangeMembers(t.next, n, l);
      assert Owns(t, s, l) <==> Resolves(t, l) && t.idToSid[l] == s;
    }
  }

  lemma SameMapsConsistent(t: Tables, r: Tables)
    requires Consistent(t)
    requires r.sidToId == t.sidToId && r.idToSid == t.idToSid && r.chunkLabels == t.chunkLabels && r.next == t.next
    requires |r.labels| == |r.vectors| && forall i :: 0 <= i < |r.labels| ==> r.labels[i] < r.next
    ensures Consistent(r)
  {
    forall l: nat | Resolves(r, l) ensures l < r.next { assert Resolves(t, l); }
    forall s: Sid ensures LabelsOf(r, s) == LabelsOf(t, s) && Distinct(LabelsOf(r, s)) { assert Distinct(LabelsOf(t, s)); }
    forall s: Sid, l: nat
      ensures Owns(r, s, l) <==> Resolves(r, l) && r.idToSid[l] == s
    {
      assert Owns(t, s, l) <==> Resolves(t, l) && t.idToSid[l] == s;
    }
  }

  lemma LabelForBelow(t: Tables, sid: Sid)
    requires Consistent(t)
    ensures LabelFor(t, sid) < Name(t, sid).next
    ensures sid in t.sidToId ==> Resolves(t, t.sidToId[sid])
  {
    if sid in t.sidToId { assert Owns(t, sid, t.sidToId[sid]); }
  }

  /** Whatever the session, indexing it keeps the maps in agreement. */
  lemma IndexSessionConsistent(t: Tables, sid: Sid, v: Vector, chunks: seq<Vector>)
    requires Consistent(t)
    ensures Consistent(IndexSession(t, sid, v, chunks))
  {
    var s := IndexSummary(t, sid, v);
    NameConsistent(t, sid);
    LabelForBelow(t, sid);
    SameMapsConsistent(Name(t, sid), s);
    ChunksConsistent(s, sid, |chunks|);
    AllocateChunksEffect(s, sid, |chunks|);
    SameMapsConsistent(AllocateChunks(s, sid, |chunks|), IndexSession(t, sid, v, chunks));
  }

  /** A released session holds nothing, its labels stop resolving, and no other session notices. */
  lemma ReleaseExact(t: Tables, sid: Sid)
    requires Consistent(t)
    ensures Consistent(Release(t, sid))
    ensures LabelsOf(Release(t, sid), sid) == []
    ensures forall l: nat :: Owns(t, sid, l) ==> !Resolves(Release(t, sid), l)
    ensures forall s :: s != sid ==> LabelsOf(Release(t, sid), s) == LabelsOf(t, s)
    ensures Release(t, sid).next == t.next
  {
    var r := Release(t, sid);
    forall s: Sid ensures LabelsOf(r, s) == if s == sid then [] else LabelsOf(t, s) {
    }
    forall l: nat ensures Resolves(r, l) <==> Resolves(t, l) && !Owns(t, sid, l) {
    }
    forall s: Sid, l: nat
      ensures Owns(r, s, l) <==> Resolves(r, l) && r.idToSid[l] == s
    {
      assert Owns(t, s, l) <==> Resolves(t, l) && t.idToSid[l] == s;
      assert Owns(t, sid, l) <==> Resolves(t, l) && t.idToSid[l] == sid;
    }
    forall s: Sid ensures Distinct(LabelsOf(r, s)) { assert Distinct(LabelsOf(t, s)); }
  }

  /** No label ever names two sessions. */
  lemma LabelNamesOneSession(t: Tables, a: Sid, b: Sid, lbl: nat)
    requires Consistent(t)
    requires Owns(t, a, lbl) && Owns(t, b, lbl)
    ensures a == b
  {
  }

  /**
   Index rows stay unique exactly when the session being indexed has no row yet: an
   observed session that already has one gets a second row under the same label.
   */
  lemma IndexSessionUnique(t: Tables, sid: Sid, v: Vector, chunks: seq<Vector>)
    requires Consistent(t) && UniqueRows(t)
    ensures UniqueRows(IndexSession(t, sid, v, chunks)) <==> !(sid in t.sidToId && t.sidToId[sid] in t.labels)
  {
    var s, r := IndexSummary(t, sid, v), IndexSession(t, sid, v, chunks);
    AllocateChunksEffect(s, sid, |chunks|);
    LabelForBelow(t, sid);
    var own, fresh_ := LabelFor(t, sid), Range(s.next, |chunks|);
    assert r.labels == t.labels + [own] + fresh_;
    if sid in t.sidToId && own in t.labels {
      var i :| 0 <= i < |t.labels| && t.labels[i] == own;
      assert r.labels[i] == r.labels[|t.labels|];
    } else {
      assert own !in t.labels;
    }
  }

  lemma NoChunks(t: Tables, sid: Sid)
    ensures IndexChunks(t, sid, []) == t
  {
    assert t.vectors + [] == t.vectors && t.labels + Range(t.next, 0) == t.labels;
  }

  // --------------------------------------------------- what a rebuild leaves behind

  function EntriesOf(b: Brief): seq<(Sid, Vector)> {
    if b.embedding.None? then []
    else [(b.sid, b.embedding.value)] + Tagged(b.sid, b.chunks)
  }

  /** Summary plus chunk vectors of every brief that has an embedding, in RAM order. */
  function Entries(ram: seq<Brief>): seq<(Sid, Vector)> {
    if ram == [] then [] else Entries(ram[..|ram| - 1]) + EntriesOf(ram[|ram| - 1])
  }

  predicate DistinctSids(ram: seq<Brief>) {
    forall i, j :: 0 <= i < j < |ram| ==> ram[i].sid != ram[j].sid
  }

  /** Labels are 0..next-1 and row `i` is exactly entry `i`, session and vector. */
  ghost predicate Holds(t: Tables, entries: seq<(Sid, Vector)>) {
    && t.next == |entries| == |t.vectors|
    && t.labels == Range(0, t.next)
    && (forall l: nat :: Resolves(t, l) <==> l < t.next)
    && (forall i :: 0 <= i < |entries| ==> Resolves(t, i) && t.idToSid[i] == entries[i].0 && t.vectors[i] == entries[i].1)
  }

  function Tagged(sid: Sid, vectors: seq<Vector>): (r: seq<(Sid, Vector)>)
    ensures |r| == |vectors| && forall i :: 0 <= i < |r| ==> r[i] == (sid, vectors[i])
  {
    seq(|vectors|, i requires 0 <= i < |vectors| => (sid, vectors[i]))
  }

  lemma NameAppends(t: Tables, sid: Sid, v: Vector, entries: seq<(Sid, Vector)>)
    requires Holds(t, entries) && sid !in t.sidToId
    ensures Holds(IndexSummary(t, sid, v), entries + [(sid, v)])
  {
    var r := IndexSummary(t, sid, v);
    forall l: nat ensures Resolves(r, l) <==> l < r.next { assert Resolves(t, l) <==> l < t.next; }
    forall i | 0 <= i < |entries| ensures Resolves(r, i) && r.idToSid[i] == entries[i].0 { assert Resolves(t, i); }
    assert r.labels == Range(0, r.next);
  }

  lemma ChunksAppend(t: Tables, sid: Sid, chunks: seq<Vector>, entries: seq<(Sid, Vector)>)
    requires Holds(t, entries)
    ensures Holds(IndexChunks(t, sid, chunks), entries + Tagged(sid, chunks))
  {
    var r := IndexChunks(t, sid, chunks);
    AllocateChunksEffect(t, sid, |chunks|);
    forall l: nat ensures Resolves(r, l) <==> l < r.next { assert Resolves(t, l) <==> l < t.next; }
    forall i | 0 <= i < |entries| ensures Resolves(r, i) && r.idToSid[i] == entries[i].0 { assert Resolves(t, i); }
    assert r.labels == Range(0, r.next);
  }

  lemma IndexSessionAppends(t: Tables, b: Brief, entries: seq<(Sid, Vector)>)
    requires Holds(t, entries) && b.sid !in t.sidToId
    ensures Holds(IndexBrief(t, b), entries + EntriesOf(b))
    ensures IndexBrief(t, b).sidToId == if b.embedding.None? then t.sidToId else t.sidToId[b.sid := t.next]
  {
    if b.embedding.Some? {
      var v := b.embedding.value;
      NameAppends(t, b.sid, v, entries);
      ChunksAppend(IndexSummary(t, b.sid, v), b.sid, b.chunks, entries + [(b.sid, v)]);
      AllocateChunksEffect(IndexSummary(t, b.sid, v), b.sid, |b.chunks|);
      assert entries + [(b.sid, v)] + Tagged(b.sid, b.chunks) == entries + EntriesOf(b);
    } else {
      assert entries + EntriesOf(b) == entries;
    }
  }

  ghost predicate EmbeddedIn(ram: seq<Brief>, sid: Sid) {
    exists i :: 0 <= i < |ram| && ram[i].sid == sid && ram[i].embedding.Some?
  }

  lemma RangeDistinct(lo: nat, n: nat)
    ensures Distinct(Range(lo, n))
  {
  }

  lemma EmbeddedSnoc(ram: seq<Brief>, sid: Sid)
    requires ram != []
    ensures EmbeddedIn(ram, sid)
       <==> EmbeddedIn(ram[..|ram| - 1], sid) || (sid == ram[|ram| - 1].sid && ram[|ram| - 1].embedding.Some?)
  {
    var init := ram[..|ram| - 1];
    if EmbeddedIn(init, sid) {
      var i :| 0 <= i < |init| && init[i].sid == sid && init[i].embedding.Some?;
      assert ram[i] == init[i];
    }
    if EmbeddedIn(ram, sid) {
      var i :| 0 <= i < |ram| && ram[i].sid == sid && ram[i].embedding.Some?;
      assert i < |init| ==> init[i] == ram[i];
    }
  }

  lemma LastIsNew(ram: seq<Brief>)
    requires DistinctSids(ram) && ram != []
    ensures DistinctSids(ram[..|ram| - 1]) && !EmbeddedIn(ram[..|ram| - 1], ram[|ram| - 1].sid)
  {
    var init := ram[..|ram| - 1];
    forall i | 0 <= i < |init| ensures init[i].sid != ram[|ram| - 1].sid {
      assert init[i] == ram[i];
    }
  }

  lemma IndexBriefConsistent(t: Tables, b: Brief)
    requires Consistent(t)
    ensures Consistent(IndexBrief(t, b))
  {
    if b.embedding.Some? { IndexSessionConsistent(t, b.sid, b.embedding.value, b.chunks); }
  }

  /** After a rebuild, labels are exactly 0..next-1 and the rows are exactly the RAM entries. */
  lemma {:induction false} RebuiltLayout(ram: seq<Brief>)
    requires DistinctSids(ram)
    ensures Holds(Rebuilt(ram), Entries(ram))
    ensures Consistent(Rebuilt(ram)) && UniqueRows(Rebuilt(ram))
    ensures forall s :: s in Rebuilt(ram).sidToId <==> EmbeddedIn(ram, s)
  {
    RangeDistinct(0, Rebuilt(ram).next);
    if ram != [] {
      var init, b := ram[..|ram| - 1], ram[|ram| - 1];
      LastIsNew(ram);
      RebuiltLayout(init);
      IndexSessionAppends(Rebuilt(init), b, Entries(init));
      IndexBriefConsistent(Rebuilt(init), b);
      forall s: Sid ensures EmbeddedIn(ram, s) <==> EmbeddedIn(init, s) || (s == b.sid && b.embedding.Some?) {
        EmbeddedSnoc(ram, s);
      }
    }
  }

  /** The brief is the session's and has the vector, as summary or as chunk. */
  predicate Offers(b: Brief, sid: Sid, v: Vector) {
    b.sid == sid && b.embedding.Some? && (v == b.embedding.value || v in b.chunks)
  }

  lemma EntriesOffered(b: Brief, sid: Sid, v: Vector)
    ensures (sid, v) in EntriesOf(b) <==> Offers(b, sid, v)
  {
    if Offers(b, sid, v) {
      if v != b.embedding.value {
        var i :| 0 <= i < |b.chunks| && b.chunks[i] == v;
        assert EntriesOf(b)[i + 1] == (sid, v);
      } else {
        assert EntriesOf(b)[0] == (sid, v);
      }
    }
  }

  /** A pair is indexed by a rebuild iff it is a summary or chunk vector of an embedded brief. */
  lemma {:induction false} EntryIffVector(ram: seq<Brief>, sid: Sid, v: Vector)
    ensures (sid, v) in Entries(ram) <==> exists b :: b in ram && Offers(b, sid, v)
    ensures (sid, v) in Entries(ram) <==>
              exists b :: b in ram && b.sid == sid && b.embedding.Some? && (v == b.embedding.value || v in b.chunks)
  {
    if ram != [] {
      var init, b := ram[..|ram| - 1], ram[|ram| - 1];
      assert ram == init + [b];
      EntryIffVector(init, sid, v);
      EntriesOffered(b, sid, v);
    }
  }

  function VectorsOf(b: Brief): seq<Vector> {
    if b.embedding.None? then [] else [b.embedding.value] + b.chunks
  }

  /** The session's labels, summary first, lead to its vectors in the same order. */
  ghost predicate Filed(t: Tables, sid: Sid, vectors: seq<Vector>) {
    && |LabelsOf(t, sid)| == |vectors|
    && forall j :: 0 <= j < |vectors| ==>
         LabelsOf(t, sid)[j] < |t.vectors| && t.vectors[LabelsOf(t, sid)[j]] == vectors[j]
  }

  lemma IndexChunksLabels(t: Tables, sid: Sid, chunks: seq<Vector>, s: Sid)
    ensures LabelsOf(IndexChunks(t, sid, chunks), s) == LabelsOf(t, s) + if s == sid then Range(t.next, |chunks|) else []
    ensures IndexChunks(t, sid, chunks).vectors == t.vectors + chunks
  {
    var m, r := AllocateChunks(t, sid, |chunks|), IndexChunks(t, sid, chunks);
    AllocateChunksEffect(t, sid, |chunks|);
    assert ChunkLabelsOf(r, s) == ChunkLabelsOf(m, s) == Grown(t, sid, |chunks|, s);
    Assoc(if s in t.sidToId then [t.sidToId[s]] else [], ChunkLabelsOf(t, s), if s == sid then Range(t.next, |chunks|) else []);
  }

  lemma IndexSummaryLabels(t: Tables, sid: Sid, v: Vector, s: Sid)
    requires sid !in t.sidToId && LabelsOf(t, sid) == []
    ensures LabelsOf(IndexSummary(t, sid, v), s) == LabelsOf(t, s) + if s == sid then [t.next] else []
    ensures IndexSummary(t, sid, v).vectors == t.vectors + [v]
  {
    var r := IndexSummary(t, sid, v);
    assert ChunkLabelsOf(r, s) == ChunkLabelsOf(t, s);
    assert ChunkLabelsOf(t, sid) == [];
  }

  lemma RangeAfter(lo: nat, n: nat)
    ensures [lo] + Range(lo + 1, n) == Range(lo, 1 + n)
  {
  }

  lemma IndexBriefLabels(t: Tables, b: Brief, s: Sid)
    requires LabelsOf(t, b.sid) == []
    ensures LabelsOf(IndexBrief(t, b), s) == LabelsOf(t, s) + if s == b.sid then Range(t.next, |VectorsOf(b)|) else []
    ensures IndexBrief(t, b).vectors == t.vectors + VectorsOf(b)
  {
    assert b.sid !in t.sidToId by { assert b.sid in t.sidToId ==> |LabelsOf(t, b.sid)| > 0; }
    if b.embedding.Some? {
      EmbeddedLabels(t, b, s);
    } else {
      assert Range(t.next, 0) == [] && VectorsOf(b) == [];
    }
  }

  lemma EmbeddedLabels(t: Tables, b: Brief, s: Sid)
    requires b.sid !in t.sidToId && LabelsOf(t, b.sid) == [] && b.embedding.Some?
    ensures LabelsOf(IndexBrief(t, b), s) == LabelsOf(t, s) + if s == b.sid then Range(t.next, |VectorsOf(b)|) else []
    ensures IndexBrief(t, b).vectors == t.vectors + VectorsOf(b)
  {
    var v, n := b.embedding.value, |b.chunks|;
    var named := IndexSummary(t, b.sid, v);
    IndexSummaryLabels(t, b.sid, v, s);
    IndexChunksLabels(named, b.sid, b.chunks, s);
    Assoc(t.vectors, [v], b.chunks);
    var more, last := if s == b.sid then [t.next] else [], if s == b.sid then Range(named.next, n) else [];
    Assoc(LabelsOf(t, s), more, last);
    assert more + last == if s == b.sid then Range(t.next, |VectorsOf(b)|) else [] by {
      if s == b.sid { RangeAfter(t.next, n); }
    }
  }

  lemma RebuiltCount(ram: seq<Brief>)
    requires DistinctSids(ram)
    ensures Rebuilt(ram).next == |Rebuilt(ram).vectors|
  {
    RebuiltLayout(ram);
  }

  /** A rebuilt session's labels, summary first, lead to its own vectors in order. */
  lemma {:induction false} RebuiltFiled(ram: seq<Brief>, i: nat)
    requires DistinctSids(ram) && i < |ram|
    ensures Filed(Rebuilt(ram), ram[i].sid, VectorsOf(ram[i]))
  {
    var init, b := ram[..|ram| - 1], ram[|ram| - 1];
    var t := Rebuilt(init);
    assert !EmbeddedIn(init, b.sid);
    NoLabelsOutside(init, b.sid);
    if i < |init| {
      RebuiltFiled(init, i);
      FiledFurther(t, b, ram[i].sid, VectorsOf(ram[i]));
    } else {
      RebuiltCount(init);
      FiledFresh(t, b);
    }
  }

  /** More rows behind the old ones leave what has been filed where it was. */
  lemma FiledFurther(t: Tables, b: Brief, sid: Sid, vectors: seq<Vector>)
    requires LabelsOf(t, b.sid) == [] && Filed(t, sid, vectors) && sid != b.sid
    ensures Filed(IndexBrief(t, b), sid, vectors)
  {
    IndexBriefLabels(t, b, sid);
    assert LabelsOf(IndexBrief(t, b), sid) == LabelsOf(t, sid);
  }

  lemma FiledFresh(t: Tables, b: Brief)
    requires t.next == |t.vectors| && LabelsOf(t, b.sid) == []
    ensures Filed(IndexBrief(t, b), b.sid, VectorsOf(b))
  {
    IndexBriefLabels(t, b, b.sid);
    assert LabelsOf(IndexBrief(t, b), b.sid) == Range(t.next, |VectorsOf(b)|);
  }

  lemma {:induction false} EntriesEmbedded(ram: seq<Brief>, i: nat)
    requires i < |Entries(ram)|
    ensures EmbeddedIn(ram, Entries(ram)[i].0)
  {
    var init, b := ram[..|ram| - 1], ram[|ram| - 1];
    if i < |Entries(init)| {
      EntriesEmbedded(init, i);
      var j :| 0 <= j < |init| && init[j].sid == Entries(init)[i].0 && init[j].embedding.Some?;
      assert ram[j] == init[j];
    } else {
      EntryOfBrief(b, i - |Entries(init)|);
      assert Entries(ram)[i] == EntriesOf(b)[i - |Entries(init)|];
      assert ram[|init|] == b;
    }
  }

  lemma EntryOfBrief(b: Brief, j: nat)
    requires j < |EntriesOf(b)|
    ensures b.embedding.Some? && EntriesOf(b)[j] == (b.sid, VectorsOf(b)[j])
  {
  }

  lemma NoLabelsOutside(ram: seq<Brief>, sid: Sid)
    requires DistinctSids(ram) && !EmbeddedIn(ram, sid)
    ensures LabelsOf(Rebuilt(ram), sid) == []
  {
    var t := Rebuilt(ram);
    RebuiltLayout(ram);
    forall l: nat ensures !Owns(t, sid, l) {
      assert Resolves(t, l) <==> l < t.next;
      if l < t.next { EntriesEmbedded(ram, l); }
    }
    assert LabelsOf(t, sid) != [] ==> Owns(t, sid, LabelsOf(t, sid)[0]);
  }
}
