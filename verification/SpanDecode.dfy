/**
 GLiNER span decoding: greedy conflict resolution, stitching of adjacent spans, the
 subtoken-to-word mask, and the pipeline that joins them.
 */
module SpanDecode {
  import opened Sorting

  /** One decoded entity in word indices, inclusive at both ends. */
  datatype Span = Span(start: int, end: int, entityType: string, score: real)

  predicate ProperSpan(s: Span) {
    s.start <= s.end
  }

  // ----------------------------------------------------------------------- conflicts

  predicate IsNested(a: Span, b: Span) {
    (a.start <= b.start && a.end >= b.end) || (b.start <= a.start && b.end >= a.end)
  }

  predicate SamePlace(a: Span, b: Span) {
    a.start == b.start && a.end == b.end
  }

  predicate HasOverlapping(a: Span, b: Span, multiLabel: bool) {
    if SamePlace(a, b) then !multiLabel else !(a.start > b.end || b.start > a.end)
  }

  predicate HasOverlappingNested(a: Span, b: Span, multiLabel: bool) {
    if SamePlace(a, b) then !multiLabel else !((a.start > b.end || b.start > a.end) || IsNested(a, b))
  }

  predicate Conflicts(a: Span, b: Span, flat: bool, multiLabel: bool) {
    if flat then HasOverlapping(a, b, multiLabel) else HasOverlappingNested(a, b, multiLabel)
  }

  lemma ConflictsSymmetric(a: Span, b: Span, flat: bool, multiLabel: bool)
    ensures Conflicts(a, b, flat, multiLabel) == Conflicts(b, a, flat, multiLabel)
  {
  }

  predicate HasWord(s: Span, w: int) {
    s.start <= w <= s.end
  }

  /** Without nesting, spans conflict iff some word belongs to both. */
  lemma FlatConflictExact(a: Span, b: Span)
    requires ProperSpan(a) && ProperSpan(b)
    ensures Conflicts(a, b, true, false) <==> exists w :: HasWord(a, w) && HasWord(b, w)
  {
    var w := if a.start < b.start then b.start else a.start;
    assert Conflicts(a, b, true, false) ==> HasWord(a, w) && HasWord(b, w);
  }

  /** With nesting, they conflict iff they have a word in common and are the same words, or each has one the other lacks. */
  lemma NestedConflictExact(a: Span, b: Span)
    requires ProperSpan(a) && ProperSpan(b)
    ensures Conflicts(a, b, false, false) <==>
              && (exists w :: HasWord(a, w) && HasWord(b, w))
              && ((forall w :: HasWord(a, w) <==> HasWord(b, w))
                  || ((exists w :: HasWord(a, w) && !HasWord(b, w)) && (exists w :: HasWord(b, w) && !HasWord(a, w))))
  {
    FlatConflictExact(a, b);
    assert HasWord(a, a.start) && HasWord(a, a.end) && HasWord(b, b.start) && HasWord(b, b.end);
    assert SamePlace(a, b) <==> forall w :: HasWord(a, w) <==> HasWord(b, w);
    assert b.start <= a.start && a.end <= b.end <==> !exists w :: HasWord(a, w) && !HasWord(b, w);
    assert a.start <= b.start && b.end <= a.end <==> !exists w :: HasWord(b, w) && !HasWord(a, w);
  }

  /** With several labels to a span, the same words never conflict and different ones as before. */
  lemma MultiLabelConflictExact(a: Span, b: Span, flat: bool)
    requires ProperSpan(a) && ProperSpan(b)
    ensures Conflicts(a, b, flat, true) <==> Conflicts(a, b, flat, false) && exists w :: HasWord(a, w) != HasWord(b, w)
  {
    assert HasWord(a, a.start) && HasWord(a, a.end) && HasWord(b, b.start) && HasWord(b, b.end);
    if !SamePlace(a, b) {
      assert HasWord(a, a.start) != HasWord(b, a.start) || HasWord(a, a.end) != HasWord(b, a.end)
          || HasWord(a, b.start) != HasWord(b, b.start) || HasWord(a, b.end) != HasWord(b, b.end);
    }
  }

  function ByScore(): (Span, Span) -> bool {
    (a: Span, b: Span) => a.score >= b.score
  }

  function ByStart(): (Span, Span) -> bool {
    (a: Span, b: Span) => a.start <= b.start
  }

  predicate ConflictsWithAny(x: Span, kept: seq<Span>, flat: bool, multiLabel: bool) {
    exists i :: 0 <= i < |kept| && Conflicts(x, kept[i], flat, multiLabel)
  }

  /** What one pass over `xs`, best first, keeps. */
  function Kept(xs: seq<Span>, flat: bool, multiLabel: bool): seq<Span> {
    if xs == [] then []
    else
      var k, x := Kept(xs[..|xs| - 1], flat, multiLabel), xs[|xs| - 1];
      if ConflictsWithAny(x, k, flat, multiLabel) then k else k + [x]
  }

  function Greedy(spans: seq<Span>, flat: bool, multiLabel: bool): seq<Span> {
    Sort(Kept(Sort(spans, ByScore()), flat, multiLabel), ByStart())
  }

  /** Keeps the best spans that do not conflict, then orders them by position. */
  method GreedySearch(spans: seq<Span>, flat: bool, multiLabel: bool) returns (kept: seq<Span>)
    ensures kept == Greedy(spans, flat, multiLabel)
  {
    if spans == [] {
      return [];
    }
    var ordered := Sort(spans, ByScore());
    kept := [];
    for i := 0 to |ordered|
      invariant kept == Kept(ordered[..i], flat, multiLabel)
    {
      assert ordered[..i + 1][..i] == ordered[..i];
      if !ConflictsWithAny(ordered[i], kept, flat, multiLabel) {
        kept := kept + [ordered[i]];
      }
    }
    assert ordered[..|ordered|] == ordered;
    kept := Sort(kept, ByStart());
  }

  ghost predicate ConflictFree(r: seq<Span>, flat: bool, multiLabel: bool) {
    forall i, j :: 0 <= i < j < |r| ==> !Conflicts(r[i], r[j], flat, multiLabel)
  }

  lemma {:induction false} KeptConflictFree(xs: seq<Span>, flat: bool, multiLabel: bool)
    ensures ConflictFree(Kept(xs, flat, multiLabel), flat, multiLabel)
    ensures multiset(Kept(xs, flat, multiLabel)) <= multiset(xs)
  {
    if xs != [] {
      var init, x := xs[..|xs| - 1], xs[|xs| - 1];
      KeptConflictFree(init, flat, multiLabel);
      assert xs == init + [x];
      var k := Kept(init, flat, multiLabel);
      forall i | 0 <= i < |k| ensures Conflicts(k[i], x, flat, multiLabel) == Conflicts(x, k[i], flat, multiLabel) {
        ConflictsSymmetric(x, k[i], flat, multiLabel);
      }
    }
  }

  /** Spans without conflicts are all kept. */
  lemma {:induction false} KeptAll(xs: seq<Span>, flat: bool, multiLabel: bool)
    requires ConflictFree(xs, flat, multiLabel)
    ensures Kept(xs, flat, multiLabel) == xs
  {
    if xs != [] {
      var init, x := xs[..|xs| - 1], xs[|xs| - 1];
      KeptAll(init, flat, multiLabel);
      forall i | 0 <= i < |init| ensures !Conflicts(x, init[i], flat, multiLabel) {
        assert !Conflicts(xs[i], xs[|xs| - 1], flat, multiLabel);
        ConflictsSymmetric(x, init[i], flat, multiLabel);
      }
      assert xs == init + [x];
    }
  }

  ghost predicate Beaten(s: Span, kept: seq<Span>, flat: bool, multiLabel: bool) {
    exists k :: k in kept && Conflicts(s, k, flat, multiLabel) && k.score >= s.score
  }

  lemma {:induction false} KeptBeats(xs: seq<Span>, flat: bool, multiLabel: bool, s: Span)
    requires SortedBy(xs, ByScore()) && s in xs
    ensures s in Kept(xs, flat, multiLabel) || Beaten(s, Kept(xs, flat, multiLabel), flat, multiLabel)
  {
    var init, x := xs[..|xs| - 1], xs[|xs| - 1];
    assert xs == init + [x];
    var k := Kept(init, flat, multiLabel);
    if s in init {
      KeptBeats(init, flat, multiLabel, s);
      if s !in k {
        var b :| b in k && Conflicts(s, b, flat, multiLabel) && b.score >= s.score;
        assert b in Kept(xs, flat, multiLabel);
      }
    } else {
      assert s == x;
      if ConflictsWithAny(x, k, flat, multiLabel) { LastIsBeaten(xs, flat, multiLabel); }
    }
  }

  lemma LastIsBeaten(xs: seq<Span>, flat: bool, multiLabel: bool)
    requires xs != [] && SortedBy(xs, ByScore())
    requires ConflictsWithAny(xs[|xs| - 1], Kept(xs[..|xs| - 1], flat, multiLabel), flat, multiLabel)
    ensures Beaten(xs[|xs| - 1], Kept(xs[..|xs| - 1], flat, multiLabel), flat, multiLabel)
  {
    var init, x := xs[..|xs| - 1], xs[|xs| - 1];
    var k := Kept(init, flat, multiLabel);
    var i :| 0 <= i < |k| && Conflicts(x, k[i], flat, multiLabel);
    KeptConflictFree(init, flat, multiLabel);
    assert k[i] in multiset(k);
    var j :| 0 <= j < |init| && init[j] == k[i];
    assert ByScore()(xs[j], xs[|xs| - 1]);
    assert k[i] in k;
  }

  /** Rearranging a conflict-free list keeps it conflict-free. */
  lemma SortConflictFree(xs: seq<Span>, flat: bool, multiLabel: bool)
    requires ConflictFree(xs, flat, multiLabel)
    ensures ConflictFree(Sort(xs, ByStart()), flat, multiLabel)
  {
    SortKeepsPairs(xs, flat, multiLabel);
  }

  lemma {:induction false} SortKeepsPairs(xs: seq<Span>, flat: bool, multiLabel: bool)
    requires ConflictFree(xs, flat, multiLabel)
    ensures ConflictFree(Sort(xs, ByStart()), flat, multiLabel)
  {
    if xs != [] {
      SortKeepsPairs(xs[1..], flat, multiLabel);
      var rest := Sort(xs[1..], ByStart());
      forall y | y in rest ensures !Conflicts(xs[0], y, flat, multiLabel) {
        SortMembers(xs[1..], ByStart(), y);
        var j :| 0 <= j < |xs[1..]| && xs[1..][j] == y;
        assert xs[j + 1] == y;
      }
      InsertKeepsPairs(xs[0], rest, flat, multiLabel);
    }
  }

  lemma {:induction false} InsertKeepsPairs(x: Span, xs: seq<Span>, flat: bool, multiLabel: bool)
    requires ConflictFree(xs, flat, multiLabel)
    requires forall y :: y in xs ==> !Conflicts(x, y, flat, multiLabel)
    ensures ConflictFree(Insert(x, xs, ByStart()), flat, multiLabel)
  {
    if xs != [] && !ByStart()(x, xs[0]) {
      InsertKeepsPairs(x, xs[1..], flat, multiLabel);
      var rest := Insert(x, xs[1..], ByStart());
      forall y | y in rest ensures !Conflicts(xs[0], y, flat, multiLabel) {
        assert y in multiset(rest);
        ConflictsSymmetric(x, xs[0], flat, multiLabel);
        if y != x {
          var j :| 0 <= j < |xs[1..]| && xs[1..][j] == y;
          assert xs[j + 1] == y;
        }
      }
    }
  }

  /** The result is a conflict-free part of the input, and whatever is missing lost to a kept span at least as good. */
  lemma GreedyExact(spans: seq<Span>, flat: bool, multiLabel: bool)
    ensures var r := Greedy(spans, flat, multiLabel);
            && multiset(r) <= multiset(spans)
            && ConflictFree(r, flat, multiLabel)
            && SortedBy(r, ByStart())
            && forall s :: s in spans ==> s in r || Beaten(s, r, flat, multiLabel)
  {
    var ordered := Sort(spans, ByScore());
    var k := Kept(ordered, flat, multiLabel);
    var r := Greedy(spans, flat, multiLabel);
    assert TotalPreorder(ByScore()) && TotalPreorder(ByStart());
    SortSorted(spans, ByScore());
    SortSorted(k, ByStart());
    KeptConflictFree(ordered, flat, multiLabel);
    SortConflictFree(k, flat, multiLabel);
    forall s | s in spans ensures s in r || Beaten(s, r, flat, multiLabel) {
      SortMembers(spans, ByScore(), s);
      KeptBeats(ordered, flat, multiLabel, s);
      SortMembers(k, ByStart(), s);
      if s !in k {
        var b :| b in k && Conflicts(s, b, flat, multiLabel) && b.score >= s.score;
        SortMembers(k, ByStart(), b);
      }
    }
  }

  // ------------------------------------------------------------------- uniqueness

  predicate DistinctScores(spans: seq<Span>) {
    forall i, j :: 0 <= i < j < |spans| ==> spans[i].score != spans[j].score
  }

  /** Some span of the set conflicts with `s` and scores at least as high. */
  ghost predicate BeatenIn(s: Span, k: set<Span>, flat: bool, multiLabel: bool) {
    exists b :: b in k && Conflicts(s, b, flat, multiLabel) && b.score >= s.score
  }

  /** The property greedy search promises, of any set of spans. */
  ghost predicate IsSelection(k: set<Span>, spans: seq<Span>, flat: bool, multiLabel: bool) {
    && (forall s :: s in k ==> s in spans)
    && (forall a, b :: a in k && b in k && a != b ==> !Conflicts(a, b, flat, multiLabel))
    && (forall s :: s in spans && s !in k ==> BeatenIn(s, k, flat, multiLabel))
  }

  predicate Descending(xs: seq<Span>) {
    forall i, j :: 0 <= i < j < |xs| ==> xs[i].score > xs[j].score
  }

  lemma SelectionStep(k: set<Span>, ordered: seq<Span>, n: nat, kept: seq<Span>, flat: bool, multiLabel: bool)
    requires n < |ordered| && IsSelection(k, ordered, flat, multiLabel) && Descending(ordered)
    requires forall y :: y in kept <==> y in k && y in ordered[..n]
    ensures ConflictsWithAny(ordered[n], kept, flat, multiLabel) <==> ordered[n] !in k
  {
    var x := ordered[n];
    assert x in ordered;
    if x in k {
      forall y | y in kept ensures !Conflicts(x, y, flat, multiLabel) {
        var j :| 0 <= j < n && ordered[..n][j] == y;
        assert ordered[j].score > ordered[n].score;
      }
    } else {
      assert BeatenIn(x, k, flat, multiLabel);
      var b :| b in k && Conflicts(x, b, flat, multiLabel) && b.score >= x.score;
      AmongBetter(ordered, n, b);
      var j :| 0 <= j < |kept| && kept[j] == b;
    }
  }

  lemma AmongBetter(ordered: seq<Span>, n: nat, b: Span)
    requires n < |ordered| && Descending(ordered) && b in ordered && b != ordered[n] && b.score >= ordered[n].score
    ensures b in ordered[..n]
  {
    var i :| 0 <= i < |ordered| && ordered[i] == b;
    assert ordered[..n][i] == b;
  }

  /** The pass rejects exactly the spans outside `k`, up to position `n`. */
  ghost predicate Follows(k: set<Span>, ordered: seq<Span>, n: nat, flat: bool, multiLabel: bool)
    requires n <= |ordered|
    decreases n
  {
    n == 0 ||
    (Follows(k, ordered, n - 1, flat, multiLabel)
     && (ConflictsWithAny(ordered[n - 1], Kept(ordered[..n - 1], flat, multiLabel), flat, multiLabel) <==> ordered[n - 1] !in k))
  }

  lemma {:induction false} KeptFollows(k: set<Span>, ordered: seq<Span>, n: nat, flat: bool, multiLabel: bool)
    requires n <= |ordered| && Follows(k, ordered, n, flat, multiLabel)
    ensures forall s :: s in Kept(ordered[..n], flat, multiLabel) <==> s in k && s in ordered[..n]
    decreases n
  {
    if n > 0 {
      var init, x := ordered[..n - 1], ordered[n - 1];
      KeptFollows(k, ordered, n - 1, flat, multiLabel);
      assert ordered[..n] == init + [x];
      KeptSnoc(init, x, flat, multiLabel);
      SelectedSnoc(k, init, Kept(init, flat, multiLabel), x, ConflictsWithAny(x, Kept(init, flat, multiLabel), flat, multiLabel));
    }
  }

  lemma {:induction false} SelectionFollowed(k: set<Span>, ordered: seq<Span>, n: nat, flat: bool, multiLabel: bool)
    requires n <= |ordered| && IsSelection(k, ordered, flat, multiLabel) && Descending(ordered)
    ensures Follows(k, ordered, n, flat, multiLabel)
    decreases n
  {
    if n > 0 {
      SelectionFollowed(k, ordered, n - 1, flat, multiLabel);
      FollowedAt(k, ordered, n - 1, flat, multiLabel);
    }
  }

  lemma FollowedAt(k: set<Span>, ordered: seq<Span>, n: nat, flat: bool, multiLabel: bool)
    requires n < |ordered| && IsSelection(k, ordered, flat, multiLabel) && Descending(ordered)
    requires Follows(k, ordered, n, flat, multiLabel)
    ensures ConflictsWithAny(ordered[n], Kept(ordered[..n], flat, multiLabel), flat, multiLabel) <==> ordered[n] !in k
  {
    var kept := Kept(ordered[..n], flat, multiLabel);
    KeptFollows(k, ordered, n, flat, multiLabel);
    SelectionStep(k, ordered, n, kept, flat, multiLabel);
  }

  lemma SelectedSnoc(k: set<Span>, init: seq<Span>, kept: seq<Span>, x: Span, rejected: bool)
    requires forall y :: y in kept <==> y in k && y in init
    requires rejected <==> x !in k
    ensures forall y :: y in (if rejected then kept else kept + [x]) <==> y in k && y in init + [x]
  {
  }

  lemma KeptSnoc(init: seq<Span>, x: Span, flat: bool, multiLabel: bool)
    ensures var k := Kept(init, flat, multiLabel);
            Kept(init + [x], flat, multiLabel) == if ConflictsWithAny(x, k, flat, multiLabel) then k else k + [x]
  {
    assert (init + [x])[..|init|] == init;
  }

  lemma {:induction false} SortDistinctScores(spans: seq<Span>)
    requires DistinctScores(spans)
    ensures DistinctScores(Sort(spans, ByScore()))
  {
    if spans != [] {
      SortDistinctScores(spans[1..]);
      var rest := Sort(spans[1..], ByScore());
      forall y | y in rest ensures y.score != spans[0].score {
        SortMembers(spans[1..], ByScore(), y);
        var j :| 0 <= j < |spans[1..]| && spans[1..][j] == y;
        assert spans[j + 1] == y;
      }
      InsertDistinctScores(spans[0], rest);
    }
  }

  lemma {:induction false} InsertDistinctScores(x: Span, xs: seq<Span>)
    requires DistinctScores(xs) && forall y :: y in xs ==> y.score != x.score
    ensures DistinctScores(Insert(x, xs, ByScore()))
  {
    if xs != [] && !ByScore()(x, xs[0]) {
      InsertDistinctScores(x, xs[1..]);
      var rest := Insert(x, xs[1..], ByScore());
      forall y | y in rest ensures y.score != xs[0].score {
        assert y in multiset(rest);
        if y != x {
          var j :| 0 <= j < |xs[1..]| && xs[1..][j] == y;
          assert xs[j + 1] == y;
        }
      }
    }
  }

  lemma ScoresDescend(spans: seq<Span>)
    requires DistinctScores(spans)
    ensures Descending(Sort(spans, ByScore()))
  {
    var ordered := Sort(spans, ByScore());
    assert TotalPreorder(ByScore());
    SortSorted(spans, ByScore());
    SortDistinctScores(spans);
    forall i, j | 0 <= i < j < |ordered| ensures ordered[i].score > ordered[j].score {
      assert ByScore()(ordered[i], ordered[j]);
    }
  }

  lemma SelectionOfSorted(k: set<Span>, spans: seq<Span>, flat: bool, multiLabel: bool)
    requires IsSelection(k, spans, flat, multiLabel)
    ensures IsSelection(k, Sort(spans, ByScore()), flat, multiLabel)
  {
    forall s: Span ensures s in Sort(spans, ByScore()) <==> s in spans { SortMembers(spans, ByScore(), s); }
  }

  /** With distinct scores, greedy search finds the one and only selection. */
  lemma GreedyUnique(k: set<Span>, spans: seq<Span>, flat: bool, multiLabel: bool)
    requires DistinctScores(spans) && IsSelection(k, spans, flat, multiLabel)
    ensures k == set s | s in Greedy(spans, flat, multiLabel)
  {
    var ordered := Sort(spans, ByScore());
    ScoresDescend(spans);
    SelectionOfSorted(k, spans, flat, multiLabel);
    forall s: Span ensures s in k <==> s in Greedy(spans, flat, multiLabel) {
      SelectionMember(k, ordered, flat, multiLabel, s);
      SortMembers(Kept(ordered, flat, multiLabel), ByStart(), s);
    }
  }

  lemma SelectionMember(k: set<Span>, ordered: seq<Span>, flat: bool, multiLabel: bool, s: Span)
    requires IsSelection(k, ordered, flat, multiLabel) && Descending(ordered)
    ensures s in k <==> s in Kept(ordered, flat, multiLabel)
  {
    SelectionFollowed(k, ordered, |ordered|, flat, multiLabel);
    KeptFollows(k, ordered, |ordered|, flat, multiLabel);
    assert ordered[..|ordered|] == ordered;
  }

  // ------------------------------------------------- what conflict-free means on the page

  /** Flat single-label results are disjoint intervals in reading order. */
  lemma FlatResultsDisjoint(spans: seq<Span>)
    requires forall s :: s in spans ==> ProperSpan(s)
    ensures var r := Greedy(spans, true, false);
            forall i, j :: 0 <= i < j < |r| ==> r[i].end < r[j].start
  {
    GreedyExact(spans, true, false);
    var r := Greedy(spans, true, false);
    forall i, j | 0 <= i < j < |r| ensures r[i].end < r[j].start {
      assert r[i] in multiset(r) && r[j] in multiset(r);
      assert r[i] in spans && r[j] in spans by { assert r[i] in multiset(spans) && r[j] in multiset(spans); }
      assert ByStart()(r[i], r[j]);
      assert !Conflicts(r[i], r[j], true, false);
    }
  }

  /** Nested single-label results form a laminar family: any two are disjoint or strictly nested. */
  lemma NestedResultsLaminar(spans: seq<Span>)
    ensures var r := Greedy(spans, false, false);
            forall i, j :: 0 <= i < j < |r| ==>
              && !SamePlace(r[i], r[j])
              && (r[i].end < r[j].start || r[j].end < r[i].start || IsNested(r[i], r[j]))
  {
    GreedyExact(spans, false, false);
    var r := Greedy(spans, false, false);
    forall i, j | 0 <= i < j < |r|
      ensures !SamePlace(r[i], r[j]) && (r[i].end < r[j].start || r[j].end < r[i].start || IsNested(r[i], r[j]))
    {
      assert !Conflicts(r[i], r[j], false, false);
    }
  }
}
