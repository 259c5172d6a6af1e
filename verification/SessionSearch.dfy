/**
 Search over the session index: k nearest rows, then the first row of each session still
 in RAM. The theorems say this answers the question asked of sessions: the result is the
 head of the ranking a scan over all sessions would give.
 */
module SessionSearch {
  import opened Sorting
  import opened SessionIndex

  function Find(ram: seq<Brief>, sid: Sid): (r: Option<Brief>)
    ensures r.Some? ==> r.value in ram && r.value.sid == sid
    ensures r.None? ==> forall b :: b in ram ==> b.sid != sid
  {
    if ram == [] then None
    else if ram[0].sid == sid then Some(ram[0])
    else Find(ram[1..], sid)
  }

  predicate InRam(ram: seq<Brief>, sid: Sid) {
    Find(ram, sid).Some?
  }

  /** The session a label stands for in a search; "" when the hit is ignored. */
  function Hit(idToSid: map<nat, Sid>, ram: seq<Brief>, lbl: nat): Sid {
    if lbl in idToSid && InRam(ram, idToSid[lbl]) then idToSid[lbl] else ""
  }

  function Hits(idToSid: map<nat, Sid>, ram: seq<Brief>, labels: seq<nat>): (r: seq<Sid>)
    ensures |r| == |labels| && forall i :: 0 <= i < |r| ==> r[i] == Hit(idToSid, ram, labels[i])
  {
    seq(|labels|, i requires 0 <= i < |labels| => Hit(idToSid, ram, labels[i]))
  }

  /** Each session once, at its first occurrence. */
  function FirstSeen(sids: seq<Sid>): seq<Sid> {
    if sids == [] then []
    else
      var init, s := FirstSeen(sids[..|sids| - 1]), sids[|sids| - 1];
      if s != "" && s !in init then init + [s] else init
  }

  function Distances(vectors: seq<Vector>, dist: Vector -> real): (r: seq<real>)
    ensures |r| == |vectors| && forall i :: 0 <= i < |r| ==> r[i] == dist(vectors[i])
  {
    seq(|vectors|, i requires 0 <= i < |vectors| => dist(vectors[i]))
  }

  /** Any order `np.argsort` may return; equal distances may come in any order. */
  ghost predicate IsArgsort(order: seq<nat>, ds: seq<real>) {
    && multiset(order) == multiset(Range(0, |ds|))
    && (forall i :: 0 <= i < |order| ==> order[i] < |ds|)
    && (forall i, j :: 0 <= i < j < |order| ==> ds[order[i]] <= ds[order[j]])
  }

  function Pick<T>(xs: seq<T>, order: seq<nat>): (r: seq<T>)
    requires forall i :: 0 <= i < |order| ==> order[i] < |xs|
    ensures |r| == |order| && forall i :: 0 <= i < |r| ==> r[i] == xs[order[i]]
  {
    seq(|order|, i requires 0 <= i < |order| => xs[order[i]])
  }

  // ------------------------------------------------------- the simple scan it refines

  /** Distance of a session: the least over all of its rows. */
  function Nearest(sids: seq<Sid>, ds: seq<real>, sid: Sid): (d: real)
    requires |sids| == |ds| && sid in sids
    ensures exists i :: 0 <= i < |sids| && sids[i] == sid && ds[i] == d
    ensures forall i :: 0 <= i < |sids| && sids[i] == sid ==> d <= ds[i]
  {
    var n := |sids| - 1;
    assert sids == sids[..n] + [sids[n]];
    if sids[n] == sid && sid !in sids[..n] then ds[n]
    else
      var d := Nearest(sids[..n], ds[..n], sid);
      if sids[n] == sid && ds[n] < d then ds[n] else d
  }

  /** All visible sessions exactly once, by increasing distance. */
  ghost predicate IsRanking(r: seq<Sid>, sids: seq<Sid>, ds: seq<real>)
    requires |sids| == |ds|
  {
    && Distinct(r)
    && (forall s :: s in r <==> s in sids && s != "")
    && (forall i, j :: 0 <= i < j < |r| ==> Nearest(sids, ds, r[i]) <= Nearest(sids, ds, r[j]))
  }

  ghost predicate Ascending(ds: seq<real>) {
    forall i, j :: 0 <= i < j < |ds| ==> ds[i] <= ds[j]
  }

  lemma NearestPrefix(sids: seq<Sid>, ds: seq<real>, s: Sid)
    requires |sids| == |ds| > 0 && Ascending(ds)
    ensures s in sids[..|sids| - 1] ==> s in sids && Nearest(sids, ds, s) == Nearest(sids[..|sids| - 1], ds[..|sids| - 1], s) <= ds[|sids| - 1]
  {
    var n := |sids| - 1;
    if s in sids[..n] {
      var i :| 0 <= i < n && sids[..n][i] == s && ds[..n][i] == Nearest(sids[..n], ds[..n], s);
      assert sids[i] == s && ds[i] <= ds[n];
    }
  }

  lemma {:induction false} FirstSeenMembers(sids: seq<Sid>, s: Sid)
    ensures s in FirstSeen(sids) <==> s in sids && s != ""
  {
    if sids != [] {
      FirstSeenMembers(sids[..|sids| - 1], s);
      assert sids == sids[..|sids| - 1] + [sids[|sids| - 1]];
    }
  }

  lemma {:induction false} FirstSeenRanks(sids: seq<Sid>, ds: seq<real>)
    requires |sids| == |ds| && Ascending(ds)
    ensures IsRanking(FirstSeen(sids), sids, ds)
  {
    forall s: Sid ensures s in FirstSeen(sids) <==> s in sids && s != "" { FirstSeenMembers(sids, s); }
    if sids != [] {
      var n := |sids| - 1;
      var init, r := FirstSeen(sids[..n]), FirstSeen(sids);
      FirstSeenRanks(sids[..n], ds[..n]);
      forall i | 0 <= i < |init| ensures r[i] == init[i] && Nearest(sids, ds, r[i]) == Nearest(sids[..n], ds[..n], init[i]) <= ds[n] {
        FirstSeenMembers(sids[..n], init[i]);
        NearestPrefix(sids, ds, init[i]);
      }
      forall i, j | 0 <= i < j < |r| ensures Nearest(sids, ds, r[i]) <= Nearest(sids, ds, r[j]) {
        if j == |init| {
          FirstSeenMembers(sids[..n], r[j]);
          assert Nearest(sids, ds, r[j]) == ds[n];
        }
      }
    }
  }

  lemma {:induction false} FirstSeenPrefix(sids: seq<Sid>, k: nat)
    requires k <= |sids|
    ensures FirstSeen(sids[..k]) <= FirstSeen(sids)
  {
    if k == |sids| {
      assert sids[..k] == sids;
    } else {
      FirstSeenPrefix(sids[..|sids| - 1], k);
      assert sids[..|sids| - 1][..k] == sids[..k];
    }
  }

  lemma ArgsortCovers(order: seq<nat>, ds: seq<real>, i: nat)
    requires IsArgsort(order, ds) && i < |ds|
    ensures i in order && |order| == |ds|
  {
    assert Range(0, |ds|)[i] == i;
    assert i in multiset(order);
    ArgsortLength(order, ds);
  }

  lemma ArgsortLength(order: seq<nat>, ds: seq<real>)
    requires IsArgsort(order, ds)
    ensures |order| == |ds|
  {
    assert |multiset(order)| == |order| && |multiset(Range(0, |ds|))| == |ds|;
  }

  /** Reading the rows in sorted order changes neither the sessions nor their distances. */
  lemma PickKeepsNearest(sids: seq<Sid>, ds: seq<real>, order: seq<nat>, s: Sid)
    requires |sids| == |ds| && IsArgsort(order, ds)
    ensures s in Pick(sids, order) <==> s in sids
    ensures s in sids ==> Nearest(Pick(sids, order), Pick(ds, order), s) == Nearest(sids, ds, s)
  {
    var ps, pd := Pick(sids, order), Pick(ds, order);
    if s in ps {
      var j :| 0 <= j < |ps| && ps[j] == s;
      assert sids[order[j]] == s;
    }
    if s in sids {
      var i :| 0 <= i < |sids| && sids[i] == s && ds[i] == Nearest(sids, ds, s);
      ArgsortCovers(order, ds, i);
      var j :| 0 <= j < |order| && order[j] == i;
      assert ps[j] == s && pd[j] == ds[i];
      var m :| 0 <= m < |ps| && ps[m] == s && pd[m] == Nearest(ps, pd, s);
      assert sids[order[m]] == s && ds[order[m]] == pd[m];
    }
  }

  lemma RankingOfPick(r: seq<Sid>, sids: seq<Sid>, ds: seq<real>, order: seq<nat>)
    requires |sids| == |ds| && IsArgsort(order, ds) && IsRanking(r, Pick(sids, order), Pick(ds, order))
    ensures IsRanking(r, sids, ds)
  {
    forall s: Sid ensures s in r <==> s in sids && s != "" {
      PickKeepsNearest(sids, ds, order, s);
    }
    forall i, j | 0 <= i < j < |r| ensures Nearest(sids, ds, r[i]) <= Nearest(sids, ds, r[j]) {
      PickKeepsNearest(sids, ds, order, r[i]);
      PickKeepsNearest(sids, ds, order, r[j]);
    }
  }

  /** `c` is a possible result of asking for `k` neighbours. */
  ghost predicate IsAnswer(t: Tables, ram: seq<Brief>, dist: Vector -> real, k: nat, c: seq<Sid>)
    requires |t.labels| == |t.vectors|
  {
    exists order :: IsArgsort(order, Distances(t.vectors, dist)) && AnswersFor(t, ram, k, order, c)
  }

  predicate AnswersFor(t: Tables, ram: seq<Brief>, k: nat, order: seq<nat>, c: seq<Sid>)
    requires |t.labels| == |t.vectors|
    requires forall i :: 0 <= i < |order| ==> order[i] < |t.vectors|
  {
    c == FirstSeen(Hits(t.idToSid, ram, Pick(t.labels, order[..if k < |order| then k else |order|])))
  }

  /**
   Search refines the scan: whatever way equal distances are ordered, the candidates are a
   prefix of a full ranking of the sessions in RAM by their least distance.
   */
  lemma SearchRefinesScan(t: Tables, ram: seq<Brief>, dist: Vector -> real, k: nat, c: seq<Sid>)
    requires |t.labels| == |t.vectors|
    requires IsAnswer(t, ram, dist, k, c)
    ensures exists full :: IsRanking(full, Hits(t.idToSid, ram, t.labels), Distances(t.vectors, dist)) && c <= full
    ensures |t.labels| <= k ==> IsRanking(c, Hits(t.idToSid, ram, t.labels), Distances(t.vectors, dist))
  {
    var ds, sids := Distances(t.vectors, dist), Hits(t.idToSid, ram, t.labels);
    var order :| IsArgsort(order, ds) && AnswersFor(t, ram, k, order, c);
    RankingOfOrder(sids, ds, order);
    AnswerIsPrefix(t, ram, k, order, c);
    ArgsortLength(order, ds);
  }

  lemma RankingOfOrder(sids: seq<Sid>, ds: seq<real>, order: seq<nat>)
    requires |sids| == |ds| && IsArgsort(order, ds)
    ensures IsRanking(FirstSeen(Pick(sids, order)), sids, ds)
  {
    FirstSeenRanks(Pick(sids, order), Pick(ds, order));
    RankingOfPick(FirstSeen(Pick(sids, order)), sids, ds, order);
  }

  lemma AnswerIsPrefix(t: Tables, ram: seq<Brief>, k: nat, order: seq<nat>, c: seq<Sid>)
    requires |t.labels| == |t.vectors| && forall i :: 0 <= i < |order| ==> order[i] < |t.vectors|
    requires AnswersFor(t, ram, k, order, c)
    ensures c <= FirstSeen(Pick(Hits(t.idToSid, ram, t.labels), order))
    ensures |order| <= k ==> c == FirstSeen(Pick(Hits(t.idToSid, ram, t.labels), order))
  {
    var ps := Pick(Hits(t.idToSid, ram, t.labels), order);
    var m := if k < |order| then k else |order|;
    assert Hits(t.idToSid, ram, Pick(t.labels, order[..m])) == ps[..m];
    FirstSeenPrefix(ps, m);
    if |order| <= k { assert ps[..m] == ps; }
  }

  /** A visible session left out has every row at least as far as every row returned. */
  lemma LeftOutIsFarther(t: Tables, ram: seq<Brief>, dist: Vector -> real, k: nat, order: seq<nat>, c: seq<Sid>,
                         row: nat, j: nat)
    requires |t.labels| == |t.vectors|
    requires IsArgsort(order, Distances(t.vectors, dist)) && AnswersFor(t, ram, k, order, c)
    requires row < |t.labels| && Hit(t.idToSid, ram, t.labels[row]) != "" && Hit(t.idToSid, ram, t.labels[row]) !in c
    requires j < k && j < |order|
    ensures dist(t.vectors[order[j]]) <= dist(t.vectors[row])
  {
    var ds := Distances(t.vectors, dist);
    ArgsortCovers(order, ds, row);
    var p :| 0 <= p < |order| && order[p] == row;
    var m := if k < |order| then k else |order|;
    var hits := Hits(t.idToSid, ram, Pick(t.labels, order[..m]));
    assert p < m ==> hits[p] == Hit(t.idToSid, ram, t.labels[row]);
    FirstSeenMembers(hits, Hit(t.idToSid, ram, t.labels[row]));
    assert ds[order[j]] <= ds[order[p]];
  }

  // ------------------------------------------------------- which rows `k` neighbours are

  /** The rows nearer than `d`. */
  ghost function Nearer(ds: seq<real>, d: real): set<int> {
    set j: int | 0 <= j < |ds| && ds[j] < d
  }

  /** The rows other than `row` that are as near as it. */
  ghost function Rivals(ds: seq<real>, row: nat): set<int>
    requires row < |ds|
  {
    set j: int | 0 <= j < |ds| && j != row && ds[j] <= ds[row]
  }

  /** A session in RAM is found when fewer than `k` other rows are as near as one of its rows. */
  ghost predicate FindsNear(t: Tables, ram: seq<Brief>, dist: Vector -> real, k: int, c: seq<Sid>)
    requires |t.labels| == |t.vectors|
  {
    forall row: nat :: row < |t.labels| && Hit(t.idToSid, ram, t.labels[row]) != "" && |Rivals(Distances(t.vectors, dist), row)| < k
      ==> Hit(t.idToSid, ram, t.labels[row]) in c
  }

  /** Everything found has a row with fewer than `k` rows nearer than it. */
  ghost predicate FindsOnlyNear(t: Tables, ram: seq<Brief>, dist: Vector -> real, k: int, c: seq<Sid>)
    requires |t.labels| == |t.vectors|
  {
    forall s :: s in c ==>
      exists row: nat :: row < |t.labels| && Hit(t.idToSid, ram, t.labels[row]) == s && |Nearer(Distances(t.vectors, dist), dist(t.vectors[row]))| < k
  }

  ghost function Members(order: seq<nat>): set<int> {
    set x: int | x in order
  }

  lemma {:induction false} MembersCount(order: seq<nat>)
    requires Distinct(order)
    ensures |Members(order)| == |order|
  {
    if order != [] {
      var n := |order| - 1;
      MembersCount(order[..n]);
      assert order == order[..n] + [order[n]];
      assert Members(order) == Members(order[..n]) + {order[n]};
    }
  }

  lemma SubsetCount(a: set<int>, b: set<int>)
    requires a <= b
    ensures |a| <= |b|
  {
    assert b == a + (b - a);
  }

  lemma ArgsortDistinct(order: seq<nat>, ds: seq<real>)
    requires IsArgsort(order, ds)
    ensures Distinct(order)
  {
    forall i, j | 0 <= i < j < |order| ensures order[i] != order[j] {
      DistinctMultiplicity(Range(0, |ds|), order[i]);
      assert order == order[..j] + order[j..];
      assert order[i] in multiset(order[..j]) && order[j] in multiset(order[j..]);
    }
  }

  /** The place of a row in the order lies between the rows nearer and the rows as near. */
  lemma PlaceOfRow(order: seq<nat>, ds: seq<real>, p: nat)
    requires IsArgsort(order, ds) && p < |order|
    ensures |Nearer(ds, ds[order[p]])| <= p <= |Rivals(ds, order[p])|
  {
    ArgsortDistinct(order, ds);
    MembersCount(order[..p]);
    forall j | j in Nearer(ds, ds[order[p]]) ensures j in Members(order[..p]) {
      ArgsortCovers(order, ds, j);
      var q :| 0 <= q < |order| && order[q] == j;
      assert order[..p][q] == j;
    }
    SubsetCount(Nearer(ds, ds[order[p]]), Members(order[..p]));
    SubsetCount(Members(order[..p]), Rivals(ds, order[p]));
  }

  /** The hits among the first `m` rows of the order. */
  function FirstHits(t: Tables, ram: seq<Brief>, order: seq<nat>, m: nat): (r: seq<Sid>)
    requires m <= |order| && forall i :: 0 <= i < |order| ==> order[i] < |t.labels|
    ensures |r| == m && forall i :: 0 <= i < m ==> r[i] == Hit(t.idToSid, ram, t.labels[order[i]])
  {
    Hits(t.idToSid, ram, Pick(t.labels, order[..m]))
  }

  lemma NearRowIsAmong(t: Tables, ram: seq<Brief>, ds: seq<real>, order: seq<nat>, m: nat, row: nat)
    requires |t.labels| == |ds| && IsArgsort(order, ds) && m <= |order| && row < |ds|
    requires m == |order| || |Rivals(ds, row)| < m
    ensures Hit(t.idToSid, ram, t.labels[row]) in FirstHits(t, ram, order, m)
  {
    ArgsortCovers(order, ds, row);
    var p :| 0 <= p < |order| && order[p] == row;
    PlaceOfRow(order, ds, p);
    assert FirstHits(t, ram, order, m)[p] == Hit(t.idToSid, ram, t.labels[row]);
  }

  lemma AmongIsNearRow(t: Tables, ram: seq<Brief>, ds: seq<real>, order: seq<nat>, m: nat, s: Sid) returns (row: nat)
    requires |t.labels| == |ds| && IsArgsort(order, ds) && m <= |order| && s in FirstHits(t, ram, order, m)
    ensures row < |ds| && Hit(t.idToSid, ram, t.labels[row]) == s && |Nearer(ds, ds[row])| < m
  {
    var p :| 0 <= p < m && FirstHits(t, ram, order, m)[p] == s;
    row := order[p];
    PlaceOfRow(order, ds, p);
  }

  lemma NearestAreFound(t: Tables, ram: seq<Brief>, dist: Vector -> real, k: nat, order: seq<nat>, m: nat, c: seq<Sid>)
    requires |t.labels| == |t.vectors| && IsArgsort(order, Distances(t.vectors, dist)) && m <= |order| && (m == k || m == |order|)
    requires forall s :: s in c <==> s in FirstHits(t, ram, order, m) && s != ""
    ensures FindsNear(t, ram, dist, k, c)
  {
    var ds := Distances(t.vectors, dist);
    forall row: nat | row < |t.labels| && Hit(t.idToSid, ram, t.labels[row]) != "" && |Rivals(ds, row)| < k
      ensures Hit(t.idToSid, ram, t.labels[row]) in c
    {
      NearRowIsAmong(t, ram, ds, order, m, row);
    }
  }

  lemma FoundAreNearest(t: Tables, ram: seq<Brief>, dist: Vector -> real, k: nat, order: seq<nat>, m: nat, c: seq<Sid>)
    requires |t.labels| == |t.vectors| && IsArgsort(order, Distances(t.vectors, dist)) && m <= |order| && m <= k
    requires forall s :: s in c <==> s in FirstHits(t, ram, order, m) && s != ""
    ensures FindsOnlyNear(t, ram, dist, k, c)
  {
    var ds := Distances(t.vectors, dist);
    forall s | s in c
      ensures exists row: nat :: row < |t.labels| && Hit(t.idToSid, ram, t.labels[row]) == s && |Nearer(ds, dist(t.vectors[row]))| < k
    {
      var row := AmongIsNearRow(t, ram, ds, order, m, s);
    }
  }

  lemma AllFirstSeen(sids: seq<Sid>, c: seq<Sid>)
    requires c == FirstSeen(sids)
    ensures forall s :: s in c <==> s in sids && s != ""
  {
    forall s ensures s in c <==> s in sids && s != "" { FirstSeenMembers(sids, s); }
  }

  lemma FindsByOrder(t: Tables, ram: seq<Brief>, dist: Vector -> real, k: nat, order: seq<nat>, c: seq<Sid>)
    requires |t.labels| == |t.vectors| && IsArgsort(order, Distances(t.vectors, dist)) && AnswersFor(t, ram, k, order, c)
    ensures FindsNear(t, ram, dist, k, c) && FindsOnlyNear(t, ram, dist, k, c)
  {
    var m := if k < |order| then k else |order|;
    AllFirstSeen(FirstHits(t, ram, order, m), c);
    NearestAreFound(t, ram, dist, k, order, m, c);
    FoundAreNearest(t, ram, dist, k, order, m, c);
  }

  /** Every session with a row among the `k` nearest is found, and no other session is. */
  lemma FindsTheNearest(t: Tables, ram: seq<Brief>, dist: Vector -> real, k: nat, c: seq<Sid>)
    requires |t.labels| == |t.vectors| && IsAnswer(t, ram, dist, k, c)
    ensures FindsNear(t, ram, dist, k, c) && FindsOnlyNear(t, ram, dist, k, c)
  {
    var order :| IsArgsort(order, Distances(t.vectors, dist)) && AnswersFor(t, ram, k, order, c);
    FindsByOrder(t, ram, dist, k, order, c);
  }

  // --------------------------------------------- the index against the briefs themselves

  /** Row `i` leads to the session. */
  predicate RowOf(t: Tables, sid: Sid, i: int) {
    0 <= i < |t.labels| && i < |t.vectors| && t.labels[i] in t.idToSid && t.idToSid[t.labels[i]] == sid
  }

  /** Some row leads to the session and holds the vector. */
  ghost predicate Held(t: Tables, sid: Sid, v: Vector) {
    exists i :: RowOf(t, sid, i) && t.vectors[i] == v
  }

  /** The rows of the session hold exactly the brief's own vectors. */
  ghost predicate Indexed(t: Tables, b: Brief) {
    forall v :: Held(t, b.sid, v) <==> v in VectorsOf(b)
  }

  ghost predicate Faithful(t: Tables, ram: seq<Brief>) {
    forall b :: b in ram ==> Indexed(t, b)
  }

  /** What a scan over the briefs themselves would compute. */
  ghost predicate IsBriefDistance(b: Brief, dist: Vector -> real, d: real) {
    && (exists v :: v in VectorsOf(b) && dist(v) == d)
    && (forall v :: v in VectorsOf(b) ==> d <= dist(v))
  }

  /** The row a hit on `b` comes from holds one of its vectors. */
  lemma HitHolds(t: Tables, ram: seq<Brief>, b: Brief, i: nat)
    requires |t.labels| == |t.vectors| && b.sid != "" && Indexed(t, b) && i < |t.labels|
    requires Hits(t.idToSid, ram, t.labels)[i] == b.sid
    ensures t.vectors[i] in VectorsOf(b)
  {
    assert RowOf(t, b.sid, i);
    assert Held(t, b.sid, t.vectors[i]);
  }

  /** Each of its vectors has a row that is a hit on `b`. */
  lemma HitFor(t: Tables, ram: seq<Brief>, b: Brief, v: Vector) returns (i: nat)
    requires |t.labels| == |t.vectors| && b in ram && b.sid != "" && Indexed(t, b) && v in VectorsOf(b)
    ensures i < |t.labels| && t.vectors[i] == v && Hits(t.idToSid, ram, t.labels)[i] == b.sid
  {
    assert Held(t, b.sid, v);
    i :| RowOf(t, b.sid, i) && t.vectors[i] == v;
    assert InRam(ram, b.sid);
  }

  /**
   Where the index is faithful to a brief, search can find it iff it has an embedding, and
   its distance is the least over its own summary and chunk vectors.
   */
  lemma FaithfulNearest(t: Tables, ram: seq<Brief>, dist: Vector -> real, b: Brief)
    requires |t.labels| == |t.vectors| && b in ram && b.sid != "" && Indexed(t, b)
    ensures b.sid in Hits(t.idToSid, ram, t.labels) <==> b.embedding.Some?
    ensures b.embedding.Some? ==>
              IsBriefDistance(b, dist, Nearest(Hits(t.idToSid, ram, t.labels), Distances(t.vectors, dist), b.sid))
  {
    var sids, ds := Hits(t.idToSid, ram, t.labels), Distances(t.vectors, dist);
    forall i | 0 <= i < |sids| && sids[i] == b.sid ensures t.vectors[i] in VectorsOf(b) { HitHolds(t, ram, b, i); }
    if b.embedding.Some? {
      var _ := HitFor(t, ram, b, b.embedding.value);
      var d := Nearest(sids, ds, b.sid);
      forall v | v in VectorsOf(b) ensures d <= dist(v) {
        var i := HitFor(t, ram, b, v);
        assert ds[i] == dist(v);
      }
    }
  }

  /**
   End to end: where the index is faithful, candidates come in the order of the distances the
   briefs themselves have, and an embedded brief is missing only if it is no closer than
   each of them.
   */
  lemma FaithfulSearchRanksBriefs(t: Tables, ram: seq<Brief>, dist: Vector -> real, k: nat, c: seq<Sid>,
                                  a: Brief, da: real, b: Brief, db: real)
    requires |t.labels| == |t.vectors| && Faithful(t, ram) && IsAnswer(t, ram, dist, k, c)
    requires a in ram && b in ram && a.sid != "" && b.sid != ""
    requires IsBriefDistance(a, dist, da) && IsBriefDistance(b, dist, db)
    ensures forall i, j :: 0 <= i < j < |c| && c[i] == a.sid && c[j] == b.sid ==> da <= db
    ensures a.sid in c && b.sid !in c ==> da <= db
  {
    var sids, ds := Hits(t.idToSid, ram, t.labels), Distances(t.vectors, dist);
    SearchRefinesScan(t, ram, dist, k, c);
    var full :| IsRanking(full, sids, ds) && c <= full;
    FaithfulNearest(t, ram, dist, a);
    FaithfulNearest(t, ram, dist, b);
    PrefixOfRanking(full, sids, ds, c, a.sid, b.sid);
  }

  lemma OneBriefPerSid(ram: seq<Brief>, b: Brief)
    requires DistinctSids(ram) && b in ram
    ensures forall x :: x in ram && x.sid == b.sid ==> x == b
  {
    var j :| 0 <= j < |ram| && ram[j] == b;
    forall x | x in ram && x.sid == b.sid ensures x == b {
      var i :| 0 <= i < |ram| && ram[i] == x;
    }
  }

  /** What a rebuild leaves is faithful to RAM, whatever the tables were before. */
  lemma RebuiltFaithful(ram: seq<Brief>)
    requires DistinctSids(ram)
    ensures Faithful(Rebuilt(ram), ram)
  {
    forall b, v | b in ram ensures Held(Rebuilt(ram), b.sid, v) <==> v in VectorsOf(b) { RebuiltHolds(ram, b, v); }
  }

  lemma RebuiltHolds(ram: seq<Brief>, b: Brief, v: Vector)
    requires DistinctSids(ram) && b in ram
    ensures Held(Rebuilt(ram), b.sid, v) <==> v in VectorsOf(b)
  {
    RebuiltLayout(ram);
    HeldIsEntry(Rebuilt(ram), Entries(ram), b.sid, v);
    EntryIffVector(ram, b.sid, v);
    OneBriefPerSid(ram, b);
    assert Offers(b, b.sid, v) <==> v in VectorsOf(b);
  }

  lemma HeldIsEntry(t: Tables, entries: seq<(Sid, Vector)>, sid: Sid, v: Vector)
    requires Holds(t, entries)
    ensures Held(t, sid, v) <==> (sid, v) in entries
  {
    forall i | 0 <= i < |entries| ensures RowOf(t, sid, i) && t.vectors[i] == v <==> entries[i] == (sid, v) {
      assert Resolves(t, i) && t.labels[i] == i;
    }
    if (sid, v) in entries {
      var i :| 0 <= i < |entries| && entries[i] == (sid, v);
      assert RowOf(t, sid, i);
    }
  }

  lemma PrefixOfRanking(full: seq<Sid>, sids: seq<Sid>, ds: seq<real>, c: seq<Sid>, x: Sid, y: Sid)
    requires |sids| == |ds| && IsRanking(full, sids, ds) && c <= full
    requires x in sids && y in sids && y != ""
    ensures forall i, j :: 0 <= i < j < |c| && c[i] == x && c[j] == y ==> Nearest(sids, ds, x) <= Nearest(sids, ds, y)
    ensures x in c && y !in c ==> Nearest(sids, ds, x) <= Nearest(sids, ds, y)
  {
    if x in c && y !in c {
      var i :| 0 <= i < |c| && c[i] == x;
      var j :| 0 <= j < |full| && full[j] == y;
      assert c == full[..|c|];
      assert y !in full[..|c|];
      assert i < |c| <= j;
    }
  }
}
