/** Whitespace, stripping, joining and splitting of text, as Python's `str` and `re` do it. */
module Text {
  import Sorting

  /** `str.isspace`, which is also `\s` in a text pattern. */
  predicate IsSpace(c: char) {
    || '\t' <= c <= '\r' || '\U{1c}' <= c <= ' ' || c == '\U{85}' || c == '\U{a0}' || c == '\U{1680}'
    || '\U{2000}' <= c <= '\U{200a}' || c == '\U{2028}' || c == '\U{2029}' || c == '\U{202f}'
    || c == '\U{205f}' || c == '\U{3000}'
  }

  predicate AllSpace(s: string) {
    forall i :: 0 <= i < |s| ==> IsSpace(s[i])
  }

  predicate NoSpace(s: string) {
    forall i :: 0 <= i < |s| ==> !IsSpace(s[i])
  }

  /** The non-whitespace characters, in order: what chunking must not lose. */
  function Solid(s: string): string {
    if s == "" then "" else (if IsSpace(s[0]) then "" else [s[0]]) + Solid(s[1..])
  }

  function Concat(parts: seq<string>): string {
    if parts == [] then "" else parts[0] + Concat(parts[1..])
  }

  function Join(sep: string, parts: seq<string>): string {
    if parts == [] then ""
    else if |parts| == 1 then parts[0]
    else parts[0] + sep + Join(sep, parts[1..])
  }

  /** The first position from `i` on that is kept. */
  function Leading(s: string, drop: char -> bool, i: nat): (n: nat)
    requires i <= |s|
    ensures i <= n <= |s|
    ensures forall j :: i <= j < n ==> drop(s[j])
    ensures n < |s| ==> !drop(s[n])
    decreases |s| - i
  {
    if i < |s| && drop(s[i]) then Leading(s, drop, i + 1) else i
  }

  /** The position after the last one below `i` that is kept. */
  function Trailing(s: string, drop: char -> bool, i: nat): (n: nat)
    requires i <= |s|
    ensures n <= i
    ensures forall j :: n <= j < i ==> drop(s[j])
    ensures n > 0 ==> !drop(s[n - 1])
  {
    if i > 0 && drop(s[i - 1]) then Trailing(s, drop, i - 1) else i
  }

  function LStrip(s: string, drop: char -> bool): string {
    s[Leading(s, drop, 0)..]
  }

  function RStrip(s: string, drop: char -> bool): string {
    s[..Trailing(s, drop, |s|)]
  }

  function Strip(s: string): string {
    RStrip(LStrip(s, IsSpace), IsSpace)
  }

  lemma {:induction false} SolidAppend(a: string, b: string)
    ensures Solid(a + b) == Solid(a) + Solid(b)
  {
    if a == "" {
      assert a + b == b;
    } else {
      SolidAppend(a[1..], b);
      assert (a + b)[1..] == a[1..] + b;
      var head := if IsSpace(a[0]) then "" else [a[0]];
      assert Solid(a + b) == head + Solid(a[1..] + b);
      Sorting.Assoc(head, Solid(a[1..]), Solid(b));
    }
  }

  lemma {:induction false} SolidOfSpace(s: string)
    requires AllSpace(s)
    ensures Solid(s) == ""
  {
    if s != "" { SolidOfSpace(s[1..]); }
  }

  lemma {:induction false} SolidOfNoSpace(s: string)
    requires NoSpace(s)
    ensures Solid(s) == s
  {
    if s != "" {
      SolidOfNoSpace(s[1..]);
      assert s == [s[0]] + s[1..];
    }
  }

  /** Dropping whitespace at either end loses nothing solid. */
  lemma TrimKeepsSolid(before: string, middle: string, after: string)
    requires AllSpace(before) && AllSpace(after)
    ensures Solid(before + middle + after) == Solid(middle)
  {
    SolidOfSpace(before);
    SolidOfSpace(after);
    SolidAppend(before + middle, after);
    SolidAppend(before, middle);
  }

  /** Stripping loses only whitespace, and leaves nothing exactly when there was nothing else. */
  lemma StripKeepsSolid(s: string)
    ensures Solid(Strip(s)) == Solid(s)
    ensures Strip(s) == "" <==> Solid(s) == ""
  {
    var l := LStrip(s, IsSpace);
    var r := Strip(s);
    var n := |s| - |l|;
    var before, after := s[..n], l[|r|..];
    assert AllSpace(before) && AllSpace(after);
    assert s == before + l;
    assert l == r + after;
    Sorting.Assoc(before, r, after);
    TrimKeepsSolid(before, r, after);
    if r != "" {
      assert r[0] == l[0] && !IsSpace(r[0]);
      assert Solid(r) == [r[0]] + Solid(r[1..]);
    }
  }

  /** Stripping removes the whitespace at both ends and nothing else. */
  lemma StripExact(s: string)
    ensures exists before, after :: AllSpace(before) && AllSpace(after) && s == before + Strip(s) + after
    ensures Strip(s) != "" ==> !IsSpace(Strip(s)[0]) && !IsSpace(Strip(s)[|Strip(s)| - 1])
  {
    var l, r := LStrip(s, IsSpace), Strip(s);
    var before, after := s[..|s| - |l|], l[|r|..];
    assert s == before + r + after && AllSpace(before) && AllSpace(after);
  }

  /** Joined lists join with one separator between them. */
  lemma {:induction false} JoinAppend(sep: string, a: seq<string>, b: seq<string>)
    requires a != [] && b != []
    ensures Join(sep, a + b) == Join(sep, a) + sep + Join(sep, b)
  {
    if |a| > 1 {
      JoinAppend(sep, a[1..], b);
      assert (a + b)[1..] == a[1..] + b;
    } else {
      assert (a + b)[1..] == b;
    }
  }

  lemma {:induction false} ConcatAppend(a: seq<string>, b: seq<string>)
    ensures Concat(a + b) == Concat(a) + Concat(b)
  {
    if a == [] {
      assert a + b == b;
    } else {
      ConcatAppend(a[1..], b);
      assert (a + b)[1..] == a[1..] + b;
      assert Concat(a + b) == a[0] + Concat(a[1..] + b);
      Sorting.Assoc(a[0], Concat(a[1..]), Concat(b));
    }
  }

  /** Joining with whitespace adds nothing solid. */
  lemma {:induction false} JoinKeepsSolid(sep: string, parts: seq<string>)
    requires AllSpace(sep)
    ensures Solid(Join(sep, parts)) == Solid(Concat(parts))
  {
    if |parts| == 1 {
      assert Concat(parts) == parts[0] + "" == parts[0];
    } else if |parts| > 1 {
      JoinKeepsSolid(sep, parts[1..]);
      SolidOfSpace(sep);
      SolidAppend(parts[0] + sep, Join(sep, parts[1..]));
      SolidAppend(parts[0], sep);
      SolidAppend(parts[0], Concat(parts[1..]));
    }
  }

  // --------------------------------------------------------- splitting on a pattern

  /** Length of the match of a separator pattern at a position; 0 for no match. */
  type Matcher = (string, nat) -> nat

  /** A pattern all of whose matches are whitespace inside the text. */
  ghost predicate SpaceMatcher(m: Matcher) {
    forall t, i: nat :: i < |t| ==> i + m(t, i) <= |t| && AllSpace(t[i..i + m(t, i)])
  }

  /** `re.split`: leftmost matches, scanned without overlap. */
  function SplitFrom(t: string, m: Matcher, start: nat, i: nat): seq<string>
    requires start <= i <= |t|
    decreases |t| - i
  {
    if i == |t| then [t[start..]]
    else if 0 < m(t, i) <= |t| - i then [t[start..i]] + SplitFrom(t, m, i + m(t, i), i + m(t, i))
    else SplitFrom(t, m, start, i + 1)
  }

  function Split(t: string, m: Matcher): seq<string> {
    SplitFrom(t, m, 0, 0)
  }

  /** Where part `k` begins: at the end of the separator before it. */
  function PartStart(start: nat, cuts: seq<(nat, nat)>, k: nat): nat
    requires k <= |cuts|
  {
    if k == 0 then start else cuts[k - 1].1
  }

  /** Where part `k` ends: at the separator after it, or with the text. */
  function PartEnd(t: string, cuts: seq<(nat, nat)>, k: nat): nat
    requires k <= |cuts|
  {
    if k == |cuts| then |t| else cuts[k].0
  }

  /** The pattern matches at `i` over at least one character. */
  predicate MatchAt(t: string, m: Matcher, i: nat) {
    0 < m(t, i) && i + m(t, i) <= |t|
  }

  /** `parts` is the text from `start` on without the matches `cuts`, and no other match starts in it. */
  ghost predicate IsCutting(t: string, m: Matcher, start: nat, cuts: seq<(nat, nat)>, parts: seq<string>) {
    && |parts| == |cuts| + 1
    && (forall k :: 0 <= k < |cuts| ==> MatchAt(t, m, cuts[k].0) && cuts[k].1 == cuts[k].0 + m(t, cuts[k].0))
    && (forall k :: 0 <= k <= |cuts| ==>
          PartStart(start, cuts, k) <= PartEnd(t, cuts, k) <= |t| && parts[k] == t[PartStart(start, cuts, k)..PartEnd(t, cuts, k)])
    && (forall k, i: nat :: 0 <= k <= |cuts| && PartStart(start, cuts, k) <= i < PartEnd(t, cuts, k) ==> !MatchAt(t, m, i))
  }

  lemma {:induction false} SplitFromExact(t: string, m: Matcher, start: nat, i: nat) returns (cuts: seq<(nat, nat)>)
    requires start <= i <= |t| && forall j: nat :: start <= j < i ==> !MatchAt(t, m, j)
    ensures IsCutting(t, m, start, cuts, SplitFrom(t, m, start, i))
    decreases |t| - i
  {
    if i == |t| {
      cuts := [];
    } else if MatchAt(t, m, i) {
      var j := i + m(t, i);
      var rest := SplitFromExact(t, m, j, j);
      cuts := [(i, j)] + rest;
      FirstCut(t, m, start, (i, j), rest, SplitFrom(t, m, j, j));
    } else {
      cuts := SplitFromExact(t, m, start, i + 1);
    }
  }

  lemma FirstCut(t: string, m: Matcher, start: nat, cut: (nat, nat), cuts: seq<(nat, nat)>, parts: seq<string>)
    requires start <= cut.0 && MatchAt(t, m, cut.0) && cut.1 == cut.0 + m(t, cut.0)
    requires forall i: nat :: start <= i < cut.0 ==> !MatchAt(t, m, i)
    requires IsCutting(t, m, cut.1, cuts, parts)
    ensures IsCutting(t, m, start, [cut] + cuts, [t[start..cut.0]] + parts)
  {
    var all := [cut] + cuts;
    assert forall k :: 0 < k < |all| ==> all[k] == cuts[k - 1];
    forall k | 0 < k <= |all| ensures PartStart(start, all, k) == PartStart(cut.1, cuts, k - 1) && PartEnd(t, all, k) == PartEnd(t, cuts, k - 1) {
    }
  }

  /** Splitting cuts the text at the leftmost matches, one after the other, and nowhere else. */
  lemma SplitExact(t: string, m: Matcher)
    ensures exists cuts :: IsCutting(t, m, 0, cuts, Split(t, m))
  {
    var cuts := SplitFromExact(t, m, 0, 0);
    assert IsCutting(t, m, 0, cuts, Split(t, m));
  }

  /** A text without a match is one part. */
  lemma {:induction false} SplitNowhere(t: string, m: Matcher, i: nat)
    requires i <= |t| && forall j: nat :: j < |t| ==> !MatchAt(t, m, j)
    ensures SplitFrom(t, m, 0, i) == [t]
    decreases |t| - i
  {
    assert t[0..] == t;
    if i < |t| {
      assert !MatchAt(t, m, i);
      SplitNowhere(t, m, i + 1);
    }
  }

  lemma SolidCut(t: string, i: nat, j: nat)
    requires i <= j <= |t|
    ensures Solid(t[i..]) == Solid(t[i..j]) + Solid(t[j..])
  {
    SolidAppend(t[i..j], t[j..]);
    assert t[i..] == t[i..j] + t[j..];
  }

  lemma ConcatCons(p: string, rest: seq<string>)
    ensures Concat([p] + rest) == p + Concat(rest)
  {
    assert ([p] + rest)[1..] == rest;
  }

  lemma MatchKeepsSolid(t: string, start: nat, i: nat, j: nat, rest: seq<string>)
    requires start <= i <= j <= |t| && AllSpace(t[i..j])
    requires Solid(Concat(rest)) == Solid(t[j..])
    ensures Solid(Concat([t[start..i]] + rest)) == Solid(t[start..])
  {
    ConcatCons(t[start..i], rest);
    SolidAppend(t[start..i], Concat(rest));
    SolidCut(t, start, i);
    SolidCut(t, i, j);
    SolidOfSpace(t[i..j]);
  }

  lemma {:induction false} SplitFromKeepsSolid(t: string, m: Matcher, start: nat, i: nat)
    requires start <= i <= |t| && SpaceMatcher(m)
    ensures Solid(Concat(SplitFrom(t, m, start, i))) == Solid(t[start..])
    decreases |t| - i
  {
    if i == |t| {
      assert Concat([t[start..]]) == t[start..] + "" == t[start..];
    } else if 0 < m(t, i) {
      var j := i + m(t, i);
      SplitFromKeepsSolid(t, m, j, j);
      MatchKeepsSolid(t, start, i, j, SplitFrom(t, m, j, j));
    } else {
      SplitFromKeepsSolid(t, m, start, i + 1);
    }
  }

  /** Splitting on whitespace-only separators loses no solid character. */
  lemma SplitKeepsSolid(t: string, m: Matcher)
    requires SpaceMatcher(m)
    ensures Solid(Concat(Split(t, m))) == Solid(t)
  {
    SplitFromKeepsSolid(t, m, 0, 0);
    assert t[0..] == t;
  }

  /** End of the whitespace run that starts at `i`. */
  function RunEnd(t: string, i: nat): (e: nat)
    requires i <= |t|
    ensures i <= e <= |t| && AllSpace(t[i..e])
    ensures e == |t| || !IsSpace(t[e])
    decreases |t| - i
  {
    if i == |t| || !IsSpace(t[i]) then i
    else
      var e := RunEnd(t, i + 1);
      assert t[i..e] == [t[i]] + t[i + 1..e];
      e
  }

  /** End of the run of non-whitespace that starts at `i`. */
  function WordEnd(t: string, i: nat): (e: nat)
    requires i <= |t|
    ensures i <= e <= |t| && NoSpace(t[i..e])
    ensures e == |t| || IsSpace(t[e])
    ensures i < |t| && !IsSpace(t[i]) ==> i < e
    decreases |t| - i
  {
    if i == |t| || IsSpace(t[i]) then i
    else
      var e := WordEnd(t, i + 1);
      assert t[i..e] == [t[i]] + t[i + 1..e];
      e
  }

  /** `str.split()`: the maximal runs of non-whitespace from position `i` on. */
  function WordsFrom(t: string, i: nat): (r: seq<string>)
    requires i <= |t|
    ensures forall w :: w in r ==> w != "" && NoSpace(w)
    decreases |t| - i
  {
    var b := RunEnd(t, i);
    if b == |t| then []
    else [t[b..WordEnd(t, b)]] + WordsFrom(t, WordEnd(t, b))
  }

  function Words(t: string): (r: seq<string>)
    ensures forall w :: w in r ==> w != "" && NoSpace(w)
  {
    WordsFrom(t, 0)
  }

  lemma {:induction false} WordsFromConcat(t: string, i: nat)
    requires i <= |t|
    ensures Concat(WordsFrom(t, i)) == Solid(t[i..])
    decreases |t| - i
  {
    var b := RunEnd(t, i);
    SolidCut(t, i, b);
    SolidOfSpace(t[i..b]);
    if b < |t| {
      var e := WordEnd(t, b);
      WordsFromConcat(t, e);
      ConcatCons(t[b..e], WordsFrom(t, e));
      SolidCut(t, b, e);
      SolidOfNoSpace(t[b..e]);
    } else {
      assert t[b..] == "";
    }
  }

  /** The words of a text are its solid characters, cut where there was whitespace. */
  lemma WordsConcat(t: string)
    ensures Concat(Words(t)) == Solid(t)
  {
    WordsFromConcat(t, 0);
    assert t[0..] == t;
  }

  // ------------------------------------------------------------ whole words of a text

  /** Positions `i` to `j` are set off by whitespace or the ends of the text. */
  predicate CleanCut(t: string, i: nat, j: nat) {
    && i <= j <= |t|
    && (i == 0 || IsSpace(t[i - 1]))
    && (j == |t| || IsSpace(t[j]))
  }

  /** A stretch of the text that cuts no word in two. */
  ghost predicate Fragment(t: string, p: string) {
    exists i: nat, j: nat :: CleanCut(t, i, j) && t[i..j] == p
  }

  /** A whole word of the text, as whitespace delimits it. */
  ghost predicate WordOf(t: string, w: string) {
    w != "" && NoSpace(w) && Fragment(t, w)
  }

  lemma FragmentTransitive(t: string, p: string, q: string)
    requires Fragment(t, p) && Fragment(p, q)
    ensures Fragment(t, q)
  {
    var i: nat, j: nat :| CleanCut(t, i, j) && t[i..j] == p;
    var k: nat, l: nat :| CleanCut(p, k, l) && p[k..l] == q;
    CutInside(t, i, j, k, l);
  }

  lemma CutInside(t: string, i: nat, j: nat, k: nat, l: nat)
    requires CleanCut(t, i, j) && CleanCut(t[i..j], k, l)
    ensures CleanCut(t, i + k, i + l) && t[i + k..i + l] == t[i..j][k..l]
  {
    assert k > 0 ==> t[i..j][k - 1] == t[i + k - 1];
    assert l < j - i ==> t[i..j][l] == t[i + l];
    forall n | 0 <= n < l - k ensures t[i + k..i + l][n] == t[i..j][k..l][n] {
      assert t[i..j][k + n] == t[i + k + n];
    }
  }

  lemma StripFragment(t: string)
    ensures Fragment(t, Strip(t))
  {
    var i := Leading(t, IsSpace, 0);
    var l := t[i..];
    var j := Trailing(l, IsSpace, |l|);
    assert forall n :: 0 <= n < |l| ==> l[n] == t[i + n];
    assert t[i..i + j] == l[..j];
    assert CleanCut(t, i, i + j);
  }

  lemma {:induction false} SplitFromFragments(t: string, m: Matcher, start: nat, i: nat)
    requires start <= i <= |t| && SpaceMatcher(m) && (start == 0 || IsSpace(t[start - 1]))
    ensures forall p :: p in SplitFrom(t, m, start, i) ==> Fragment(t, p)
    decreases |t| - i
  {
    if i == |t| {
      assert CleanCut(t, start, i) && t[start..i] == t[start..];
    } else if 0 < m(t, i) {
      var j := i + m(t, i);
      assert t[i..j][0] == t[i] && t[i..j][j - i - 1] == t[j - 1];
      assert CleanCut(t, start, i);
      SplitFromFragments(t, m, j, j);
    } else {
      SplitFromFragments(t, m, start, i + 1);
    }
  }

  lemma {:induction false} WordsFromWhole(t: string, i: nat)
    requires i <= |t| && (i == 0 || i == |t| || IsSpace(t[i]))
    ensures forall w :: w in WordsFrom(t, i) ==> WordOf(t, w)
    decreases |t| - i
  {
    var b := RunEnd(t, i);
    if b < |t| {
      var e := WordEnd(t, b);
      assert b > i ==> IsSpace(t[i..b][b - 1 - i]) && t[i..b][b - 1 - i] == t[b - 1];
      assert CleanCut(t, b, e);
      WordsFromWhole(t, e);
    }
  }
}
