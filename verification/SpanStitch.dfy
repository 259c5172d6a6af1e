/**
 Joining word-adjacent spans of one type, the mask that maps subtokens to words, and the
 extraction pipeline built from them.
 */
module SpanStitch {
  import opened Sorting
  import opened SpanDecode

  const STITCHABLE: set<string> := {"date"}

  function ByPosition(): (Span, Span) -> bool {
    (a: Span, b: Span) => a.start < b.start || (a.start == b.start && a.end <= b.end)
  }

  predicate Joinable(last: Span, span: Span) {
    span.entityType == last.entityType && span.entityType in STITCHABLE && span.start == last.end + 1
  }

  function MinReal(a: real, b: real): real {
    if b < a then b else a
  }

  function JoinSpans(last: Span, span: Span): Span {
    Span(last.start, span.end, last.entityType, MinReal(last.score, span.score))
  }

  /** The next span extends the last one or starts another. */
  function Attach(m: seq<Span>, x: Span): (r: seq<Span>)
    ensures r != []
  {
    if m != [] && Joinable(m[|m| - 1], x) then m[..|m| - 1] + [JoinSpans(m[|m| - 1], x)] else m + [x]
  }

  function Stitch(xs: seq<Span>): (r: seq<Span>)
    ensures xs != [] ==> r != []
  {
    if xs == [] then [] else Attach(Stitch(xs[..|xs| - 1]), xs[|xs| - 1])
  }

  function StitchAdjacent(spans: seq<Span>): seq<Span> {
    Stitch(Sort(spans, ByPosition()))
  }

  method StitchAdjacentSpans(spans: seq<Span>) returns (merged: seq<Span>)
    ensures merged == StitchAdjacent(spans)
  {
    if spans == [] {
      return [];
    }
    var ordered := Sort(spans, ByPosition());
    merged := [ordered[0]];
    for i := 1 to |ordered|
      invariant merged != [] && merged == Stitch(ordered[..i])
    {
      StitchNext(ordered, i);
      var last, span := merged[|merged| - 1], ordered[i];
      if Joinable(last, span) {
        merged := merged[..|merged| - 1] + [JoinSpans(last, span)];
      } else {
        merged := merged + [span];
      }
    }
    assert ordered[..|ordered|] == ordered;
  }

  lemma StitchNext(xs: seq<Span>, i: nat)
    requires 0 < i < |xs|
    ensures Stitch(xs[..i + 1]) == Attach(Stitch(xs[..i]), xs[i])
  {
    assert xs[..i + 1][..i] == xs[..i];
  }

  // ------------------------------------------------------------ what stitching means

  /** The consecutive input spans each output span stands for. */
  function Blocks(xs: seq<Span>): (r: seq<seq<Span>>)
    ensures |r| == |Stitch(xs)|
  {
    if xs == [] then []
    else AttachBlock(Blocks(xs[..|xs| - 1]), Stitch(xs[..|xs| - 1]), xs[|xs| - 1])
  }

  function AttachBlock(b: seq<seq<Span>>, m: seq<Span>, x: Span): (r: seq<seq<Span>>)
    requires |b| == |m|
    ensures |r| == |Attach(m, x)|
  {
    if m != [] && Joinable(m[|m| - 1], x) then b[..|b| - 1] + [b[|b| - 1] + [x]] else b + [[x]]
  }

  function Flat(blocks: seq<seq<Span>>): seq<Span> {
    if blocks == [] then [] else Flat(blocks[..|blocks| - 1]) + blocks[|blocks| - 1]
  }

  function LeastScore(block: seq<Span>): (s: real)
    requires block != []
    ensures exists i :: 0 <= i < |block| && block[i].score == s
    ensures forall i :: 0 <= i < |block| ==> s <= block[i].score
  {
    if |block| == 1 then block[0].score
    else
      var least := LeastScore(block[..|block| - 1]);
      MinReal(least, block[|block| - 1].score)
  }

  /** `s` runs from the first part to the last, keeps their type, and is as sure as the least sure of them. */
  ghost predicate StandsFor(s: Span, block: seq<Span>) {
    && block != []
    && s == Span(block[0].start, block[|block| - 1].end, block[0].entityType, LeastScore(block))
    && (forall i :: 0 <= i < |block| ==> block[i].entityType == s.entityType)
    && (forall i :: 0 <= i < |block| - 1 ==> block[i + 1].start == block[i].end + 1)
    && (|block| > 1 ==> s.entityType in STITCHABLE)
  }

  lemma LeastSnoc(block: seq<Span>, x: Span)
    requires block != []
    ensures LeastScore(block + [x]) == MinReal(LeastScore(block), x.score)
  {
    assert (block + [x])[..|block|] == block;
  }

  lemma ExtendBlock(m: Span, block: seq<Span>, x: Span)
    requires StandsFor(m, block) && Joinable(m, x)
    ensures StandsFor(JoinSpans(m, x), block + [x])
  {
    var more := block + [x];
    LeastSnoc(block, x);
    forall i | 0 <= i < |more| ensures more[i].entityType == m.entityType {
      assert i < |block| ==> more[i] == block[i];
    }
    forall i | 0 <= i < |more| - 1 ensures more[i + 1].start == more[i].end + 1 {
      assert more[i] == block[i];
      assert i + 1 < |block| ==> more[i + 1] == block[i + 1];
    }
  }

  lemma FlatSnoc(b: seq<seq<Span>>, block: seq<Span>)
    ensures Flat(b + [block]) == Flat(b) + block
  {
    assert (b + [block])[..|b|] == b;
  }

  lemma FlatExtend(b: seq<seq<Span>>, x: Span)
    requires b != []
    ensures Flat(b[..|b| - 1] + [b[|b| - 1] + [x]]) == Flat(b) + [x]
  {
    var init, last := b[..|b| - 1], b[|b| - 1];
    FlatSnoc(init, last + [x]);
    assert Flat(init) + (last + [x]) == Flat(init) + last + [x];
  }

  lemma FlatAttach(b: seq<seq<Span>>, m: seq<Span>, x: Span)
    requires |b| == |m|
    ensures Flat(AttachBlock(b, m, x)) == Flat(b) + [x]
  {
    FlatSnoc(b, [x]);
    if b != [] { FlatExtend(b, x); }
  }

  lemma {:induction false} BlocksFlat(xs: seq<Span>)
    ensures Flat(Blocks(xs)) == xs
  {
    if xs != [] {
      var init, x := xs[..|xs| - 1], xs[|xs| - 1];
      assert xs == init + [x];
      BlocksSnoc(init, x);
      BlocksFlat(init);
      FlatAttach(Blocks(init), Stitch(init), x);
    }
  }

  lemma BlocksSnoc(init: seq<Span>, x: Span)
    ensures Blocks(init + [x]) == AttachBlock(Blocks(init), Stitch(init), x)
  {
    assert (init + [x])[..|init|] == init;
  }

  lemma {:induction false} BlocksStandFor(xs: seq<Span>, i: nat)
    requires i < |Stitch(xs)|
    ensures StandsFor(Stitch(xs)[i], Blocks(xs)[i])
  {
    if |xs| > 1 {
      var init, x := xs[..|xs| - 1], xs[|xs| - 1];
      var b, m := Blocks(init), Stitch(init);
      var l := |m| - 1;
      if Joinable(m[l], x) && i == l {
        BlocksStandFor(init, l);
        ExtendBlock(m[l], b[l], x);
      } else if i <= l {
        BlocksStandFor(init, i);
      }
    }
  }

  /** Stitching is a partition into runs: the blocks concatenate to the input and each span stands for one. */
  lemma StitchBlocks(xs: seq<Span>)
    ensures Flat(Blocks(xs)) == xs
    ensures forall i :: 0 <= i < |Stitch(xs)| ==> StandsFor(Stitch(xs)[i], Blocks(xs)[i])
  {
    BlocksFlat(xs);
    forall i | 0 <= i < |Stitch(xs)| ensures StandsFor(Stitch(xs)[i], Blocks(xs)[i]) {
      BlocksStandFor(xs, i);
    }
  }

  /** Nothing more could be joined: no two neighbours of the result are joinable. */
  lemma {:induction false} StitchMaximal(xs: seq<Span>)
    ensures forall i :: 0 <= i < |Stitch(xs)| - 1 ==> !Joinable(Stitch(xs)[i], Stitch(xs)[i + 1])
  {
    if |xs| > 1 {
      StitchMaximal(xs[..|xs| - 1]);
    }
  }

  lemma {:induction false} StitchNothing(xs: seq<Span>)
    requires forall i :: 0 <= i < |xs| - 1 ==> !Joinable(xs[i], xs[i + 1])
    ensures Stitch(xs) == xs
  {
    if |xs| > 1 {
      var init := xs[..|xs| - 1];
      forall i | 0 <= i < |init| - 1 ensures !Joinable(init[i], init[i + 1]) {
        assert xs[i] == init[i] && xs[i + 1] == init[i + 1];
      }
      StitchNothing(init);
      assert !Joinable(xs[|xs| - 2], xs[|xs| - 1]);
    }
  }

  predicate AllProper(xs: seq<Span>) {
    forall i :: 0 <= i < |xs| ==> ProperSpan(xs[i])
  }

  lemma {:induction false} StitchProper(xs: seq<Span>)
    requires AllProper(xs)
    ensures AllProper(Stitch(xs))
  {
    if |xs| > 1 { StitchProper(xs[..|xs| - 1]); }
  }

  lemma {:induction false} StitchSorted(xs: seq<Span>)
    requires AllProper(xs) && SortedBy(xs, ByPosition())
    ensures SortedBy(Stitch(xs), ByPosition())
    ensures xs != [] ==> Stitch(xs)[|Stitch(xs)| - 1].start <= xs[|xs| - 1].start
    ensures xs != [] ==> Stitch(xs)[|Stitch(xs)| - 1].end == xs[|xs| - 1].end
  {
    if |xs| > 1 {
      var init, x, y := xs[..|xs| - 1], xs[|xs| - 1], xs[|xs| - 2];
      assert init[|init| - 1] == y && forall i :: 0 <= i < |init| ==> init[i] == xs[i];
      StitchSorted(init);
      StitchProper(init);
      assert ByPosition()(y, x);
      AttachSorted(Stitch(init), x);
    }
  }

  lemma AttachSorted(m: seq<Span>, x: Span)
    requires m != [] && AllProper(m) && ProperSpan(x) && SortedBy(m, ByPosition())
    requires m[|m| - 1].start <= x.start && (m[|m| - 1].start == x.start ==> m[|m| - 1].end <= x.end)
    ensures SortedBy(Attach(m, x), ByPosition())
    ensures Attach(m, x)[|Attach(m, x)| - 1].start <= x.start
    ensures Attach(m, x)[|Attach(m, x)| - 1].end == x.end
  {
    var r, l := Attach(m, x), |m| - 1;
    forall i, j | 0 <= i < j < |r| ensures ByPosition()(r[i], r[j]) {
      assert i < l ==> ByPosition()(m[i], m[l]);
      assert j < l ==> ByPosition()(m[i], m[j]);
    }
  }

  /** The result is in order of position: by first word, and by last word among those that start together. */
  lemma StitchedInOrder(spans: seq<Span>)
    requires AllProper(spans)
    ensures var r := StitchAdjacent(spans);
            forall i, j :: 0 <= i < j < |r| ==> r[i].start < r[j].start || (r[i].start == r[j].start && r[i].end <= r[j].end)
  {
    var ordered := Sort(spans, ByPosition());
    assert TotalPreorder(ByPosition());
    SortSorted(spans, ByPosition());
    forall i | 0 <= i < |ordered| ensures ProperSpan(ordered[i]) { SortMembers(spans, ByPosition(), ordered[i]); }
    StitchSorted(ordered);
    var r := StitchAdjacent(spans);
    forall i, j | 0 <= i < j < |r| ensures r[i].start < r[j].start || (r[i].start == r[j].start && r[i].end <= r[j].end) {
      assert ByPosition()(r[i], r[j]);
    }
  }

  /** Stitching what has been stitched changes nothing. */
  lemma StitchIdempotent(spans: seq<Span>)
    requires AllProper(spans)
    ensures StitchAdjacent(StitchAdjacent(spans)) == StitchAdjacent(spans)
  {
    var ordered := Sort(spans, ByPosition());
    assert TotalPreorder(ByPosition());
    SortSorted(spans, ByPosition());
    forall i | 0 <= i < |ordered| ensures ProperSpan(ordered[i]) {
      SortMembers(spans, ByPosition(), ordered[i]);
    }
    StitchSorted(ordered);
    StitchMaximal(ordered);
    StitchesNothing(Stitch(ordered));
  }

  predicate Covers(xs: seq<Span>, entityType: string, word: int) {
    exists i :: 0 <= i < |xs| && xs[i].entityType == entityType && xs[i].start <= word <= xs[i].end
  }

  /** The joined spans cover exactly the same words with exactly the same types. */
  lemma {:induction false} StitchCovers(xs: seq<Span>, entityType: string, word: int)
    requires AllProper(xs)
    ensures Covers(Stitch(xs), entityType, word) <==> Covers(xs, entityType, word)
  {
    if xs != [] {
      var init, x := xs[..|xs| - 1], xs[|xs| - 1];
      StitchCovers(init, entityType, word);
      StitchProper(init);
      CoversAppend(init, x, entityType, word);
      assert xs == init + [x];
      AttachCovers(Stitch(init), x, entityType, word);
    }
  }

  lemma AttachCovers(m: seq<Span>, x: Span, entityType: string, word: int)
    requires AllProper(m) && ProperSpan(x)
    ensures Covers(Attach(m, x), entityType, word)
       <==> Covers(m, entityType, word) || (x.entityType == entityType && x.start <= word <= x.end)
  {
    var l := |m| - 1;
    CoversAppend(m, x, entityType, word);
    if m != [] && Joinable(m[l], x) {
      assert ProperSpan(m[l]);
      CoversAppend(m[..l], m[l], entityType, word);
      CoversAppend(m[..l], JoinSpans(m[l], x), entityType, word);
      assert m == m[..l] + [m[l]];
    }
  }

  lemma CoversAppend(xs: seq<Span>, x: Span, entityType: string, word: int)
    ensures Covers(xs + [x], entityType, word)
       <==> Covers(xs, entityType, word) || (x.entityType == entityType && x.start <= word <= x.end)
  {
    var r := xs + [x];
    if Covers(xs, entityType, word) {
      var i :| 0 <= i < |xs| && xs[i].entityType == entityType && xs[i].start <= word <= xs[i].end;
      assert r[i] == xs[i];
    }
    assert r[|xs|] == x;
  }

  predicate InReadingOrder(xs: seq<Span>) {
    forall i, j :: 0 <= i < j < |xs| ==> xs[i].end < xs[j].start
  }

  /** Disjoint spans stay disjoint. */
  lemma {:induction false} StitchDisjoint(xs: seq<Span>)
    requires AllProper(xs) && InReadingOrder(xs)
    ensures InReadingOrder(Stitch(xs))
    ensures xs != [] ==> Stitch(xs)[|Stitch(xs)| - 1].end == xs[|xs| - 1].end
  {
    if |xs| > 1 {
      var init, x := xs[..|xs| - 1], xs[|xs| - 1];
      StitchDisjoint(init);
      StitchProper(init);
      assert xs[|xs| - 2].end < x.start;
      AttachDisjoint(Stitch(init), x);
    }
  }

  lemma AttachDisjoint(m: seq<Span>, x: Span)
    requires m != [] && AllProper(m) && InReadingOrder(m) && m[|m| - 1].end < x.start
    ensures InReadingOrder(Attach(m, x))
    ensures Attach(m, x)[|Attach(m, x)| - 1].end == x.end
  {
    var r, l := Attach(m, x), |m| - 1;
    forall i, j | 0 <= i < j < |r| ensures r[i].end < r[j].start {
      assert i < l ==> m[i].end < m[l].start <= m[l].end;
      assert j < l ==> m[i].end < m[j].start;
    }
  }

  // ------------------------------------------------------- the whole function, any order

  predicate Apart(a: Span, b: Span) {
    a.end < b.start || b.end < a.start
  }

  predicate PairwiseDisjoint(xs: seq<Span>) {
    forall i, j :: 0 <= i < j < |xs| ==> Apart(xs[i], xs[j])
  }

  /** Nothing is left to join, wherever it stands in the list. */
  predicate NothingJoinable(xs: seq<Span>) {
    forall i, j :: 0 <= i < |xs| && 0 <= j < |xs| && i != j ==> !Joinable(xs[i], xs[j])
  }

  lemma {:induction false} InsertDisjoint(x: Span, xs: seq<Span>)
    requires ProperSpan(x) && AllProper(xs) && InReadingOrder(xs)
    requires forall i :: 0 <= i < |xs| ==> Apart(x, xs[i])
    ensures InReadingOrder(Insert(x, xs, ByPosition()))
  {
    if xs == [] || ByPosition()(x, xs[0]) {
      assert xs != [] ==> Apart(x, xs[0]) && ProperSpan(xs[0]);
    } else {
      var rest := Insert(x, xs[1..], ByPosition());
      InsertDisjoint(x, xs[1..]);
      assert Apart(x, xs[0]) && xs[0].end < x.start;
      forall j | 0 <= j < |rest| ensures xs[0].end < rest[j].start { InsertedMember(x, xs[1..], rest[j]); }
    }
  }

  lemma InsertedMember(x: Span, xs: seq<Span>, y: Span)
    requires y in Insert(x, xs, ByPosition())
    ensures y == x || y in xs
  {
    assert y in multiset(Insert(x, xs, ByPosition()));
  }

  lemma {:induction false} SortDisjoint(xs: seq<Span>)
    requires AllProper(xs) && PairwiseDisjoint(xs)
    ensures InReadingOrder(Sort(xs, ByPosition())) && AllProper(Sort(xs, ByPosition()))
  {
    var sorted := Sort(xs, ByPosition());
    forall i | 0 <= i < |sorted| ensures ProperSpan(sorted[i]) { SortMembers(xs, ByPosition(), sorted[i]); }
    if xs != [] {
      SortDisjoint(xs[1..]);
      var rest := Sort(xs[1..], ByPosition());
      forall i | 0 <= i < |rest| ensures Apart(xs[0], rest[i]) {
        SortMembers(xs[1..], ByPosition(), rest[i]);
      }
      InsertDisjoint(xs[0], Sort(xs[1..], ByPosition()));
    }
  }

  /** An input span that its successor does not join: some output span ends there. */
  predicate Closes(xs: seq<Span>, p: nat) {
    p < |xs| && (p == |xs| - 1 || !Joinable(xs[p], xs[p + 1]))
  }

  /** An input span that does not join its predecessor: some output span starts there. */
  predicate Opens(xs: seq<Span>, p: nat) {
    p < |xs| && (p == 0 || !Joinable(xs[p - 1], xs[p]))
  }

  lemma {:induction false} StitchLast(xs: seq<Span>)
    requires xs != []
    ensures Stitch(xs)[|Stitch(xs)| - 1].end == xs[|xs| - 1].end
    ensures Stitch(xs)[|Stitch(xs)| - 1].entityType == xs[|xs| - 1].entityType
  {
  }

  /** Whether the last input span is joined depends on its predecessor alone. */
  lemma JoinsLast(xs: seq<Span>)
    requires |xs| > 1
    ensures var m := Stitch(xs[..|xs| - 1]);
            Joinable(m[|m| - 1], xs[|xs| - 1]) <==> Joinable(xs[|xs| - 2], xs[|xs| - 1])
  {
    StitchLast(xs[..|xs| - 1]);
  }

  /** Each output span ends where some input span closes. */
  lemma {:induction false} EndOf(xs: seq<Span>, i: nat) returns (p: nat)
    requires i < |Stitch(xs)|
    ensures Closes(xs, p) && (i < |Stitch(xs)| - 1 ==> p < |xs| - 1)
    ensures Stitch(xs)[i].end == xs[p].end && Stitch(xs)[i].entityType == xs[p].entityType
  {
    if i == |Stitch(xs)| - 1 {
      StitchLast(xs);
      p := |xs| - 1;
    } else {
      JoinsLast(xs);
      p := EndOf(xs[..|xs| - 1], i);
    }
  }

  lemma {:induction false} EndAt(xs: seq<Span>, p: nat) returns (i: nat)
    requires Closes(xs, p)
    ensures i < |Stitch(xs)| && (p < |xs| - 1 ==> i < |Stitch(xs)| - 1)
    ensures Stitch(xs)[i].end == xs[p].end && Stitch(xs)[i].entityType == xs[p].entityType
  {
    if p == |xs| - 1 {
      StitchLast(xs);
      i := |Stitch(xs)| - 1;
    } else {
      JoinsLast(xs);
      i := EndAt(xs[..|xs| - 1], p);
    }
  }

  lemma AttachKeepsStart(m: seq<Span>, x: Span, i: nat)
    requires i < |m|
    ensures i < |Attach(m, x)|
    ensures Attach(m, x)[i].start == m[i].start && Attach(m, x)[i].entityType == m[i].entityType
  {
  }

  /** Each output span starts where some input span opens. */
  lemma {:induction false} StartOf(xs: seq<Span>, i: nat) returns (p: nat)
    requires i < |Stitch(xs)|
    ensures Opens(xs, p)
    ensures Stitch(xs)[i].start == xs[p].start && Stitch(xs)[i].entityType == xs[p].entityType
  {
    var init, x := xs[..|xs| - 1], xs[|xs| - 1];
    if |xs| > 1 { JoinsLast(xs); }
    if i < |Stitch(init)| {
      AttachKeepsStart(Stitch(init), x, i);
      p := StartOf(init, i);
    } else {
      p := |xs| - 1;
    }
  }

  lemma {:induction false} StartAt(xs: seq<Span>, p: nat) returns (i: nat)
    requires Opens(xs, p)
    ensures i < |Stitch(xs)|
    ensures Stitch(xs)[i].start == xs[p].start && Stitch(xs)[i].entityType == xs[p].entityType
  {
    var init, x := xs[..|xs| - 1], xs[|xs| - 1];
    if p < |xs| - 1 {
      i := StartAt(init, p);
      AttachKeepsStart(Stitch(init), x, i);
    } else {
      if |xs| > 1 { JoinsLast(xs); }
      i := |Stitch(xs)| - 1;
    }
  }

  /** Every joinable pair is used up: the first joins its successor, or the second its predecessor. */
  predicate PairsUsedUp(xs: seq<Span>) {
    forall i: nat, j: nat :: i < |xs| && j < |xs| && Joinable(xs[i], xs[j]) ==> !Closes(xs, i) || !Opens(xs, j)
  }

  lemma {:induction false} StitchJoinsAll(xs: seq<Span>)
    requires AllProper(xs)
    ensures NothingJoinable(Stitch(xs)) <==> PairsUsedUp(xs)
  {
    var r := Stitch(xs);
    StitchProper(xs);
    if PairsUsedUp(xs) {
      forall a, b | 0 <= a < |r| && 0 <= b < |r| && a != b ensures !Joinable(r[a], r[b]) {
        var p := EndOf(xs, a);
        var q := StartOf(xs, b);
        assert Joinable(r[a], r[b]) <==> Joinable(xs[p], xs[q]);
      }
    } else {
      var i: nat, j: nat :| i < |xs| && j < |xs| && Joinable(xs[i], xs[j]) && Closes(xs, i) && Opens(xs, j);
      var a := EndAt(xs, i);
      var b := StartAt(xs, j);
      assert ProperSpan(r[a]);
      assert Joinable(r[a], r[b]) && a != b;
    }
  }

  /**
   Exactly when stitching leaves nothing to join, for spans of any order and overlap: in
   position order, every joinable pair has its first joined to what follows or its second to
   what precedes.
   */
  lemma StitchedJoinsAll(spans: seq<Span>)
    requires AllProper(spans)
    ensures NothingJoinable(StitchAdjacent(spans)) <==> PairsUsedUp(Sort(spans, ByPosition()))
  {
    var sorted := Sort(spans, ByPosition());
    forall i | 0 <= i < |sorted| ensures ProperSpan(sorted[i]) { SortMembers(spans, ByPosition(), sorted[i]); }
    StitchJoinsAll(sorted);
  }

  /** Whatever the order and the overlaps, the same words are covered with the same types. */
  lemma StitchedCovers(spans: seq<Span>, entityType: string, word: int)
    requires AllProper(spans)
    ensures Covers(StitchAdjacent(spans), entityType, word) <==> Covers(spans, entityType, word)
  {
    var sorted := Sort(spans, ByPosition());
    forall i | 0 <= i < |sorted| ensures ProperSpan(sorted[i]) { SortMembers(spans, ByPosition(), sorted[i]); }
    StitchCovers(sorted, entityType, word);
    forall x ensures x in sorted <==> x in spans { SortMembers(spans, ByPosition(), x); }
    CoversIsMembership(sorted, entityType, word);
    CoversIsMembership(spans, entityType, word);
  }

  lemma CoversIsMembership(xs: seq<Span>, entityType: string, word: int)
    ensures Covers(xs, entityType, word) <==> exists x :: x in xs && x.entityType == entityType && x.start <= word <= x.end
  {
    if x :| x in xs && x.entityType == entityType && x.start <= word <= x.end {
      var i :| 0 <= i < |xs| && xs[i] == x;
    }
  }

  /** Disjoint spans, in any order, stitch to disjoint spans in reading order with nothing left to join. */
  lemma StitchedDisjoint(spans: seq<Span>)
    requires AllProper(spans) && PairwiseDisjoint(spans)
    ensures InReadingOrder(StitchAdjacent(spans)) && NothingJoinable(StitchAdjacent(spans))
  {
    var sorted := Sort(spans, ByPosition());
    SortDisjoint(spans);
    StitchDisjoint(sorted);
    InOrderUsedUp(sorted);
    StitchedJoinsAll(spans);
  }

  /** Of disjoint dates in the result no two stand next to each other. */
  lemma AdjacentDatesJoined(spans: seq<Span>, a: Span, b: Span)
    requires AllProper(spans) && PairwiseDisjoint(spans)
    requires a in StitchAdjacent(spans) && b in StitchAdjacent(spans) && a.entityType == b.entityType == "date"
    ensures b.start != a.end + 1
  {
    var r := StitchAdjacent(spans);
    StitchedDisjoint(spans);
    var i :| 0 <= i < |r| && r[i] == a;
    var j :| 0 <= j < |r| && r[j] == b;
    if i == j {
      var sorted := Sort(spans, ByPosition());
      forall i | 0 <= i < |sorted| ensures ProperSpan(sorted[i]) { SortMembers(spans, ByPosition(), sorted[i]); }
      StitchProper(sorted);
    } else {
      assert !Joinable(r[i], r[j]);
    }
  }

  function OfType(entityType: string): Span -> bool {
    (s: Span) => s.entityType == entityType
  }

  lemma FilterLast(init: seq<Span>, last: Span, entityType: string)
    ensures Filter(init + [last], OfType(entityType)) == Filter(init, OfType(entityType)) + Filter([last], OfType(entityType))
  {
    FilterAppend(init, [last], OfType(entityType));
  }

  lemma AttachOthers(m: seq<Span>, x: Span, entityType: string)
    requires entityType != "date"
    ensures Filter(Attach(m, x), OfType(entityType)) == Filter(m, OfType(entityType)) + Filter([x], OfType(entityType))
  {
    if m != [] && Joinable(m[|m| - 1], x) {
      var init, last := m[..|m| - 1], m[|m| - 1];
      assert m == init + [last];
      FilterLast(init, last, entityType);
      FilterLast(init, JoinSpans(last, x), entityType);
    } else {
      FilterLast(m, x, entityType);
    }
  }

  lemma OthersNext(m: seq<Span>, init: seq<Span>, x: Span, entityType: string)
    requires entityType != "date" && Filter(m, OfType(entityType)) == Filter(init, OfType(entityType))
    ensures Filter(Attach(m, x), OfType(entityType)) == Filter(init + [x], OfType(entityType))
  {
    AttachOthers(m, x, entityType);
    FilterLast(init, x, entityType);
  }

  lemma {:induction false} StitchOthers(xs: seq<Span>, entityType: string)
    requires entityType != "date"
    ensures Filter(Stitch(xs), OfType(entityType)) == Filter(xs, OfType(entityType))
  {
    if xs != [] {
      var init, x := xs[..|xs| - 1], xs[|xs| - 1];
      StitchOthers(init, entityType);
      OthersNext(Stitch(init), init, x, entityType);
      assert init + [x] == xs;
    }
  }

  /** Spans of any type but "date" come through one for one, whatever they stand next to. */
  lemma OnlyDatesAreJoined(spans: seq<Span>, entityType: string)
    requires entityType != "date"
    ensures multiset(Filter(StitchAdjacent(spans), OfType(entityType))) == multiset(Filter(spans, OfType(entityType)))
  {
    var sorted := Sort(spans, ByPosition());
    StitchOthers(sorted, entityType);
    FilterPermuted(sorted, spans, OfType(entityType));
  }

  lemma InOrderUsedUp(xs: seq<Span>)
    requires AllProper(xs) && InReadingOrder(xs)
    ensures PairsUsedUp(xs)
  {
    forall i: nat, j: nat | i < |xs| && j < |xs| && j != i + 1 ensures !Joinable(xs[i], xs[j]) {
      if j < i {
        assert xs[j].start <= xs[j].end < xs[i].start <= xs[i].end;
      } else if j > i + 1 {
        assert xs[i].end < xs[i + 1].start <= xs[i + 1].end < xs[j].start;
      }
    }
  }

  /** Spans without conflicts, sorted three ways at once, come out of selection as they are. */
  lemma SelectsAll(spans: seq<Span>)
    requires ConflictFree(spans, false, false)
    requires SortedBy(spans, ByScore()) && SortedBy(spans, ByStart())
    ensures Greedy(spans, false, false) == spans
  {
    SortIdentity(spans, ByScore());
    KeptAll(spans, false, false);
    SortIdentity(spans, ByStart());
  }

  /** Nested results may keep a joinable pair apart, when another span sorts between the two. */
  lemma NestedLeavesJoinable(a: Span, b: Span, c: Span)
    requires a == Span(0, 0, "date", 0.9) && b == Span(0, 1, "person", 0.8) && c == Span(1, 1, "date", 0.7)
    ensures Greedy([a, b, c], false, false) == [a, b, c]
    ensures StitchAdjacent([a, b, c]) == [a, b, c] && Joinable(a, c)
  {
    assert "date" != "person" by { assert |"date"| != |"person"|; }
    ThreeSelected(a, b, c);
    ThreeStitched(a, b, c);
  }

  lemma ThreeSelected(a: Span, b: Span, c: Span)
    requires a.score >= b.score >= c.score && a.start <= b.start <= c.start
    requires !Conflicts(a, b, false, false) && !Conflicts(b, c, false, false) && !Conflicts(a, c, false, false)
    ensures Greedy([a, b, c], false, false) == [a, b, c]
  {
    SelectsAll([a, b, c]);
  }

  lemma ThreeStitched(a: Span, b: Span, c: Span)
    requires ByPosition()(a, b) && ByPosition()(b, c) && ByPosition()(a, c)
    requires !Joinable(a, b) && !Joinable(b, c)
    ensures StitchAdjacent([a, b, c]) == [a, b, c]
  {
    StitchesNothing([a, b, c]);
  }

  lemma StitchesNothing(xs: seq<Span>)
    requires SortedBy(xs, ByPosition()) && forall i :: 0 <= i < |xs| - 1 ==> !Joinable(xs[i], xs[i + 1])
    ensures StitchAdjacent(xs) == xs
  {
    SortIdentity(xs, ByPosition());
    StitchNothing(xs);
  }

  // --------------------------------------------------------------------- words mask

  datatype WordId = Special | Word(id: nat)

  predicate OpensWord(wordIds: seq<WordId>, promptLen: nat, i: nat)
    requires i < |wordIds|
  {
    wordIds[i].Word? && wordIds[i].id >= promptLen && (i == 0 || wordIds[i - 1] != wordIds[i])
  }

  function WordsMask(wordIds: seq<WordId>, promptLen: nat): (mask: seq<nat>)
    ensures |mask| == |wordIds|
    ensures forall i :: 0 <= i < |mask| ==>
              mask[i] == if OpensWord(wordIds, promptLen, i) then wordIds[i].id - promptLen + 1 else 0
  {
    seq(|wordIds|, i requires 0 <= i < |wordIds| =>
      if OpensWord(wordIds, promptLen, i) then wordIds[i].id - promptLen + 1 else 0)
  }

  method BuildWordsMask(wordIds: seq<WordId>, promptLen: nat) returns (mask: seq<nat>)
    ensures mask == WordsMask(wordIds, promptLen)
  {
    mask := [];
    var previous := Special;
    for i := 0 to |wordIds|
      invariant |mask| == i && forall j :: 0 <= j < i ==> mask[j] == WordsMask(wordIds, promptLen)[j]
      invariant previous == if i == 0 then Special else wordIds[i - 1]
    {
      var wordId := wordIds[i];
      if wordId.Special? || wordId.id < promptLen {
        mask := mask + [0];
      } else if wordId == previous {
        mask := mask + [0];
      } else {
        mask := mask + [wordId.id - promptLen + 1];
      }
      previous := wordId;
    }
  }

  /** The subtokens of word `w` sit side by side. */
  ghost predicate Contiguous(wordIds: seq<WordId>, w: nat) {
    forall i, j, k :: 0 <= i < j < k < |wordIds| && wordIds[i] == Word(w) && wordIds[k] == Word(w) ==> wordIds[j] == Word(w)
  }

  /** Position `i` carries the number of word `w`. */
  ghost predicate Numbers(wordIds: seq<WordId>, promptLen: nat, w: nat, i: int)
    requires w >= promptLen
  {
    0 <= i < |wordIds| && WordsMask(wordIds, promptLen)[i] == w - promptLen + 1
  }

  ghost predicate NumberedOnce(wordIds: seq<WordId>, promptLen: nat, w: nat)
    requires w >= promptLen
  {
    && (exists i :: Numbers(wordIds, promptLen, w, i))
    && (forall i, j :: Numbers(wordIds, promptLen, w, i) && Numbers(wordIds, promptLen, w, j) ==> i == j)
  }

  lemma NumbersExact(wordIds: seq<WordId>, promptLen: nat, w: nat, i: int)
    requires w >= promptLen
    ensures Numbers(wordIds, promptLen, w, i)
       <==> 0 <= i < |wordIds| && wordIds[i] == Word(w) && (i == 0 || wordIds[i - 1] != Word(w))
  {
  }

  lemma {:induction false} FirstSubtoken(wordIds: seq<WordId>, lo: nat, i: nat) returns (s: nat)
    requires lo <= i < |wordIds|
    ensures lo <= s <= i && wordIds[s] == wordIds[i]
    ensures s == lo || wordIds[s - 1] != wordIds[i]
    decreases i
  {
    s := i;
    while s > lo && wordIds[s - 1] == wordIds[i]
      invariant lo <= s <= i && wordIds[s] == wordIds[i]
    {
      s := s - 1;
    }
  }

  lemma ContiguousOnce(wordIds: seq<WordId>, promptLen: nat, w: nat, a: int, b: int)
    requires w >= promptLen && Contiguous(wordIds, w)
    requires Numbers(wordIds, promptLen, w, a) && Numbers(wordIds, promptLen, w, b)
    ensures a >= b
  {
    NumbersExact(wordIds, promptLen, w, a);
    NumbersExact(wordIds, promptLen, w, b);
  }

  lemma BrokenTwice(wordIds: seq<WordId>, promptLen: nat, w: nat)
    requires w >= promptLen && !Contiguous(wordIds, w)
    ensures exists a, b :: a != b && Numbers(wordIds, promptLen, w, a) && Numbers(wordIds, promptLen, w, b)
  {
    var a, j, k :| 0 <= a < j < k < |wordIds| && wordIds[a] == Word(w) && wordIds[k] == Word(w) && wordIds[j] != Word(w);
    var first := FirstSubtoken(wordIds, 0, a);
    var second := FirstSubtoken(wordIds, j, k);
    NumbersExact(wordIds, promptLen, w, first);
    NumbersExact(wordIds, promptLen, w, second);
  }

  /** A surviving text word is numbered exactly once iff its subtokens are contiguous. */
  lemma MaskNumbersOnce(wordIds: seq<WordId>, promptLen: nat, w: nat)
    requires w >= promptLen && Word(w) in wordIds
    ensures NumberedOnce(wordIds, promptLen, w) <==> Contiguous(wordIds, w)
  {
    var i :| 0 <= i < |wordIds| && wordIds[i] == Word(w);
    var s := FirstSubtoken(wordIds, 0, i);
    NumbersExact(wordIds, promptLen, w, s);
    if Contiguous(wordIds, w) {
      forall a, b | Numbers(wordIds, promptLen, w, a) && Numbers(wordIds, promptLen, w, b) ensures a == b {
        ContiguousOnce(wordIds, promptLen, w, a, b);
        ContiguousOnce(wordIds, promptLen, w, b, a);
      }
    } else {
      BrokenTwice(wordIds, promptLen, w);
    }
  }

  function MaxOf(mask: seq<nat>): (m: nat)
    requires mask != []
    ensures m in mask && forall x :: x in mask ==> x <= m
  {
    if |mask| == 1 then mask[0]
    else
      var m := MaxOf(mask[1..]);
      assert mask == [mask[0]] + mask[1..];
      if m < mask[0] then mask[0] else m
  }

  // ----------------------------------------------------------------------- pipeline

  /** A span candidate whose probability passed the threshold. */
  datatype Candidate = Candidate(start: nat, width: nat, classIndex: nat, score: real)

  datatype Result<+T> = Ok(value: T) | Error(message: string)

  predicate Fits(c: Candidate, numWords: nat) {
    c.start + c.width + 1 <= numWords
  }

  function SpanOf(c: Candidate, idToClass: map<nat, string>): Span
    requires c.classIndex + 1 in idToClass
  {
    Span(c.start, c.start + c.width, idToClass[c.classIndex + 1], c.score)
  }

  function SpansOf(cs: seq<Candidate>, idToClass: map<nat, string>): (r: seq<Span>)
    requires AllKnown(cs, idToClass)
    ensures |r| == |cs| && forall i :: 0 <= i < |r| ==> r[i] == SpanOf(cs[i], idToClass)
  {
    seq(|cs|, i requires 0 <= i < |cs| => SpanOf(cs[i], idToClass))
  }

  function Fitting(numWords: nat): Candidate -> bool {
    c => Fits(c, numWords)
  }

  predicate AllKnown(cs: seq<Candidate>, idToClass: map<nat, string>) {
    forall i :: 0 <= i < |cs| ==> cs[i].classIndex + 1 in idToClass
  }

  method LabelSpans(valid: seq<Candidate>, idToClass: map<nat, string>) returns (r: Result<seq<Span>>)
    ensures r.Ok? <==> AllKnown(valid, idToClass)
    ensures r.Ok? ==> r.value == SpansOf(valid, idToClass)
  {
    var spans: seq<Span> := [];
    for i := 0 to |valid|
      invariant forall j :: 0 <= j < i ==> valid[j].classIndex + 1 in idToClass
      invariant |spans| == i && forall j :: 0 <= j < i ==> spans[j] == SpanOf(valid[j], idToClass)
    {
      if valid[i].classIndex + 1 !in idToClass {
        return Error("class id is not in id_to_class");
      }
      spans := spans + [Span(valid[i].start, valid[i].start + valid[i].width, idToClass[valid[i].classIndex + 1], valid[i].score)];
    }
    assert spans == SpansOf(valid, idToClass);
    return Ok(spans);
  }

  /** Spans running past the last word are dropped, a class the labels do not know is an error. */
  method DecodeSpans(candidates: seq<Candidate>, numWords: nat, idToClass: map<nat, string>, flat: bool, multiLabel: bool)
    returns (r: Result<seq<Span>>)
    ensures var valid := Filter(candidates, Fitting(numWords));
            && (r.Ok? <==> AllKnown(valid, idToClass))
            && (r.Ok? ==> r.value == Greedy(SpansOf(valid, idToClass), flat, multiLabel))
  {
    r := LabelSpans(Filter(candidates, Fitting(numWords)), idToClass);
    if r.Ok? {
      var kept := GreedySearch(r.value, flat, multiLabel);
      r := Ok(kept);
    }
  }

  datatype Entity = Entity(entityType: string, score: real, charStart: nat, charEnd: nat)

  predicate InBounds(s: Span, numWords: nat) {
    0 <= s.start <= s.end < numWords
  }

  predicate WithinOffsets(s: Span, offsets: seq<(nat, nat)>) {
    0 <= s.start < |offsets| && 0 <= s.end < |offsets|
  }

  /** From the first character of the first word to the last character of the last. */
  function EntityAt(s: Span, offsets: seq<(nat, nat)>): Entity
    requires WithinOffsets(s, offsets)
  {
    Entity(s.entityType, s.score, offsets[s.start].0, offsets[s.end].1)
  }

  /** Raises iff some span lies outside the offsets; otherwise one entity per span, in order. */
  method SpansToEntities(spans: seq<Span>, offsets: seq<(nat, nat)>) returns (r: Result<seq<Entity>>)
    requires forall i :: 0 <= i < |spans| ==> 0 <= spans[i].start && 0 <= spans[i].end
    ensures r.Ok? <==> forall i :: 0 <= i < |spans| ==> WithinOffsets(spans[i], offsets)
    ensures r.Ok? ==> Locates(r.value, spans, offsets)
  {
    var entities: seq<Entity> := [];
    for i := 0 to |spans|
      invariant |entities| == i
      invariant forall j :: 0 <= j < i ==>
                  WithinOffsets(spans[j], offsets) && entities[j] == EntityAt(spans[j], offsets)
    {
      var span := spans[i];
      if span.start >= |offsets| || span.end >= |offsets| {
        return Error("span outside word_offsets");
      }
      entities := entities + [Entity(span.entityType, span.score, offsets[span.start].0, offsets[span.end].1)];
    }
    return Ok(entities);
  }

  lemma {:induction false} StitchInBounds(xs: seq<Span>, numWords: nat)
    requires forall i :: 0 <= i < |xs| ==> InBounds(xs[i], numWords)
    ensures forall i :: 0 <= i < |Stitch(xs)| ==> InBounds(Stitch(xs)[i], numWords)
  {
    if xs != [] {
      StitchInBounds(xs[..|xs| - 1], numWords);
      AttachInBounds(Stitch(xs[..|xs| - 1]), xs[|xs| - 1], numWords);
    }
  }

  lemma AttachInBounds(m: seq<Span>, x: Span, numWords: nat)
    requires InBounds(x, numWords) && forall i :: 0 <= i < |m| ==> InBounds(m[i], numWords)
    ensures forall i :: 0 <= i < |Attach(m, x)| ==> InBounds(Attach(m, x)[i], numWords)
  {
  }

  lemma StitchedWithinOffsets(kept: seq<Span>, numWords: nat, offsets: seq<(nat, nat)>)
    requires numWords == |offsets|
    requires forall i :: 0 <= i < |kept| ==> InBounds(kept[i], numWords)
    ensures forall i :: 0 <= i < |StitchAdjacent(kept)| ==> WithinOffsets(StitchAdjacent(kept)[i], offsets)
  {
    var ordered := Sort(kept, ByPosition());
    forall i | 0 <= i < |ordered| ensures InBounds(ordered[i], numWords) {
      SortMembers(kept, ByPosition(), ordered[i]);
    }
    StitchInBounds(ordered, numWords);
    forall i | 0 <= i < |Stitch(ordered)| ensures WithinOffsets(Stitch(ordered)[i], offsets) {
      assert InBounds(Stitch(ordered)[i], numWords);
    }
  }

  lemma GreedyInBounds(spans: seq<Span>, flat: bool, multiLabel: bool, numWords: nat)
    requires forall i :: 0 <= i < |spans| ==> InBounds(spans[i], numWords)
    ensures forall i :: 0 <= i < |Greedy(spans, flat, multiLabel)| ==> InBounds(Greedy(spans, flat, multiLabel)[i], numWords)
  {
    GreedyExact(spans, flat, multiLabel);
    var r := Greedy(spans, flat, multiLabel);
    forall i | 0 <= i < |r| ensures InBounds(r[i], numWords) {
      assert r[i] in multiset(r);
      assert r[i] in multiset(spans);
    }
  }

  /** One entity for each span, in order. */
  predicate Locates(es: seq<Entity>, spans: seq<Span>, offsets: seq<(nat, nat)>) {
    && |es| == |spans|
    && forall i :: 0 <= i < |es| ==> WithinOffsets(spans[i], offsets) && es[i] == EntityAt(spans[i], offsets)
  }

  /** What the candidates of `n` words come to: the fitting ones, labelled, selected, stitched. */
  function Extracted(candidates: seq<Candidate>, n: nat, idToClass: map<nat, string>, flat: bool): seq<Span>
    requires AllKnown(Filter(candidates, Fitting(n)), idToClass)
  {
    StitchAdjacent(Greedy(SpansOf(Filter(candidates, Fitting(n)), idToClass), flat, false))
  }

  lemma KeptInBounds(valid: seq<Candidate>, numWords: nat, idToClass: map<nat, string>, flat: bool)
    requires AllKnown(valid, idToClass) && forall c :: c in valid ==> Fits(c, numWords)
    ensures var kept := Greedy(SpansOf(valid, idToClass), flat, false);
            forall i :: 0 <= i < |kept| ==> InBounds(kept[i], numWords)
  {
    forall i | 0 <= i < |valid| ensures InBounds(SpanOf(valid[i], idToClass), numWords) {
      assert valid[i] in valid;
    }
    GreedyInBounds(SpansOf(valid, idToClass), flat, false, numWords);
  }

  /** The span a candidate stands for: `width` counts the words after the first, class ids start at 1. */
  predicate StandsForCandidate(s: Span, c: Candidate, idToClass: map<nat, string>) {
    && s.start == c.start && s.end == c.start + c.width && s.score == c.score
    && c.classIndex + 1 in idToClass && s.entityType == idToClass[c.classIndex + 1]
  }

  /**
   What decoding keeps: nothing but candidates whose last word is among the `n`, and every such
   candidate, unless it conflicts with a kept one that scores at least as high.
   */
  lemma DecodedExact(candidates: seq<Candidate>, n: nat, idToClass: map<nat, string>, flat: bool, multiLabel: bool)
    requires AllKnown(Filter(candidates, Fitting(n)), idToClass)
    ensures var r := Greedy(SpansOf(Filter(candidates, Fitting(n)), idToClass), flat, multiLabel);
            && (forall s :: s in r ==> exists c :: c in candidates && c.start + c.width < n && StandsForCandidate(s, c, idToClass))
            && (forall c, s :: c in candidates && c.start + c.width < n && StandsForCandidate(s, c, idToClass) ==>
                  s in r || Beaten(s, r, flat, multiLabel))
  {
    var spans := SpansOf(Filter(candidates, Fitting(n)), idToClass);
    var r := Greedy(spans, flat, multiLabel);
    GreedyExact(spans, flat, multiLabel);
    forall s | s in r ensures exists c :: c in candidates && c.start + c.width < n && StandsForCandidate(s, c, idToClass) {
      assert s in multiset(r) && s in multiset(spans);
      var _ := CandidateBehind(candidates, n, idToClass, s);
    }
    forall c, s | c in candidates && c.start + c.width < n && StandsForCandidate(s, c, idToClass)
      ensures s in r || Beaten(s, r, flat, multiLabel)
    {
      assert Fitting(n)(c);
      CandidateEnters(Filter(candidates, Fitting(n)), idToClass, c, s);
    }
  }

  lemma CandidateBehind(candidates: seq<Candidate>, n: nat, idToClass: map<nat, string>, s: Span) returns (c: Candidate)
    requires AllKnown(Filter(candidates, Fitting(n)), idToClass) && s in SpansOf(Filter(candidates, Fitting(n)), idToClass)
    ensures c in candidates && c.start + c.width < n && StandsForCandidate(s, c, idToClass)
  {
    var valid := Filter(candidates, Fitting(n));
    var i :| 0 <= i < |valid| && SpansOf(valid, idToClass)[i] == s;
    c := valid[i];
    assert c in valid;
  }

  lemma CandidateEnters(valid: seq<Candidate>, idToClass: map<nat, string>, c: Candidate, s: Span)
    requires AllKnown(valid, idToClass) && c in valid && StandsForCandidate(s, c, idToClass)
    ensures s in SpansOf(valid, idToClass)
  {
    var i :| 0 <= i < |valid| && valid[i] == c;
    SpanAtPlace(valid, i, idToClass, s);
  }

  lemma SpanAtPlace(valid: seq<Candidate>, i: nat, idToClass: map<nat, string>, s: Span)
    requires i < |valid| && AllKnown(valid, idToClass) && StandsForCandidate(s, valid[i], idToClass)
    ensures s in SpansOf(valid, idToClass)
  {
    assert SpansOf(valid, idToClass)[i] == SpanOf(valid[i], idToClass) == s;
  }

  /** Words in reading order, none overlapping the next. */
  predicate OffsetsForward(offsets: seq<(nat, nat)>) {
    && (forall i :: 0 <= i < |offsets| ==> offsets[i].0 <= offsets[i].1)
    && (forall i, j :: 0 <= i < j < |offsets| ==> offsets[i].1 <= offsets[j].0)
  }

  /** An entity's characters take in every word of its span and no part of any other. */
  lemma EntityTakesItsWords(es: seq<Entity>, spans: seq<Span>, offsets: seq<(nat, nat)>, i: nat, w: nat)
    requires Locates(es, spans, offsets) && OffsetsForward(offsets) && i < |es| && w < |offsets| && ProperSpan(spans[i])
    ensures es[i].entityType == spans[i].entityType && es[i].score == spans[i].score
    ensures if spans[i].start <= w <= spans[i].end then es[i].charStart <= offsets[w].0 && offsets[w].1 <= es[i].charEnd
            else offsets[w].1 <= es[i].charStart || es[i].charEnd <= offsets[w].0
    ensures es[i].charStart == offsets[spans[i].start].0 && es[i].charEnd == offsets[spans[i].end].1
  {
  }

  /**
   Flat extraction: the spans handed over are disjoint, in reading order, with no pair left to
   join, and cover exactly the words greedy selection kept, under the same types.
   */
  lemma FlatExtraction(candidates: seq<Candidate>, n: nat, idToClass: map<nat, string>)
    requires AllKnown(Filter(candidates, Fitting(n)), idToClass)
    ensures var r := Extracted(candidates, n, idToClass, true);
            var kept := Greedy(SpansOf(Filter(candidates, Fitting(n)), idToClass), true, false);
            && InReadingOrder(r) && NothingJoinable(r)
            && forall entityType, word :: Covers(r, entityType, word) <==> Covers(kept, entityType, word)
  {
    var spans := SpansOf(Filter(candidates, Fitting(n)), idToClass);
    var kept := Greedy(spans, true, false);
    FlatResultsDisjoint(spans);
    GreedyExact(spans, true, false);
    forall i | 0 <= i < |kept| ensures ProperSpan(kept[i]) {
      assert kept[i] in multiset(kept);
      assert kept[i] in multiset(spans);
    }
    StitchedDisjoint(kept);
    forall entityType, word ensures Covers(StitchAdjacent(kept), entityType, word) <==> Covers(kept, entityType, word) {
      StitchedCovers(kept, entityType, word);
    }
  }

  lemma MaskWithinWords(wordIds: seq<WordId>, promptLen: nat, wordCount: nat)
    requires wordIds != []
    requires forall i :: 0 <= i < |wordIds| && wordIds[i].Word? ==> wordIds[i].id < promptLen + wordCount
    ensures MaxOf(WordsMask(wordIds, promptLen)) <= wordCount
  {
    var mask := WordsMask(wordIds, promptLen);
    var i :| 0 <= i < |mask| && mask[i] == MaxOf(mask);
  }

  /**
   Mask, decode, greedy, stitch, convert. `offsets` are the character offsets of all text
   words, of which truncation may have dropped some; the model's candidates are a function
   of the number of words it saw. The only possible error is an unknown class.
   */
  method ExtractEntities(offsets: seq<(nat, nat)>, wordIds: seq<WordId>, promptLen: nat, model: nat -> seq<Candidate>,
                         idToClass: map<nat, string>, flat: bool)
    returns (r: Result<seq<Entity>>)
    requires wordIds != []
    requires forall i :: 0 <= i < |wordIds| && wordIds[i].Word? ==> wordIds[i].id < promptLen + |offsets|
    ensures var n := MaxOf(WordsMask(wordIds, promptLen));
            && n <= |offsets|
            && (r.Error? <==> n > 0 && !AllKnown(Filter(model(n), Fitting(n)), idToClass))
            && (r.Ok? && n == 0 ==> r.value == [])
            && (r.Ok? && n > 0 ==> Locates(r.value, Extracted(model(n), n, idToClass, flat), offsets[..n]))
  {
    var mask := BuildWordsMask(wordIds, promptLen);
    var numWords := MaxOf(mask);
    MaskWithinWords(wordIds, promptLen, |offsets|);
    if numWords == 0 {
      return Ok([]);
    }
    var candidates := model(numWords);
    var decoded := DecodeSpans(candidates, numWords, idToClass, flat, false);
    if decoded.Error? {
      return Error(decoded.message);
    }
    KeptInBounds(Filter(candidates, Fitting(numWords)), numWords, idToClass, flat);
    StitchedWithinOffsets(decoded.value, numWords, offsets[..numWords]);
    var spans := StitchAdjacentSpans(decoded.value);
    r := SpansToEntities(spans, offsets[..numWords]);
  }
}
