/**
 The token-bounded chunker: separators, recursive splitting into atoms, greedy packing.
 `count` is the token counter of the active embedder, an arbitrary function of the text.
 */
module Chunker {
  import Sorting
  import opened Text
  import opened Packing

  // ---------------------------------------------------------------------- separators

  /** `\n\s*\n`: from one newline to the last newline of the whitespace that follows it. */
  function ParagraphBreak(t: string, i: nat): nat {
    if i < |t| && t[i] == '\n' then LastNewline(t, i, RunEnd(t, i)) else 0
  }

  /** Length up to the last newline of t[i..e], if that is not the one at `i`. */
  function LastNewline(t: string, i: nat, e: nat): (n: nat)
    requires i <= e <= |t|
    ensures n <= e - i
    decreases e
  {
    if e <= i + 1 then 0
    else if t[e - 1] == '\n' then e - i
    else LastNewline(t, i, e - 1)
  }

  predicate EndsSentence(c: char) {
    c == '.' || c == '!' || c == '?' || c == '\U{2026}'
  }

  predicate ClosesQuote(c: char) {
    c == '\"' || c == '\'' || c == '\U{bb}' || c == ')'
  }

  /** A sentence ends before `i`, or a closing quote that follows one. */
  predicate SentenceEnd(t: string, i: nat)
    requires i <= |t|
  {
    1 <= i && (EndsSentence(t[i - 1]) || (2 <= i && EndsSentence(t[i - 2]) && ClosesQuote(t[i - 1])))
  }

  /** Whitespace right after a sentence end, or after a closing quote that follows one. */
  function SentenceBreak(t: string, i: nat): nat {
    if i < |t| && SentenceEnd(t, i) then RunEnd(t, i) - i else 0
  }

  function LineBreak(t: string, i: nat): nat {
    if i < |t| && t[i] == '\n' then 1 else 0
  }

  const DEFINITIONS: seq<string> :=
    ["@", "def ", "class ", "async def ", "func ", "function ", "public ", "private ",
     "protected ", "static ", "impl ", "fn ", "type ", "const ", "var ", "let "]

  /** A newline in front of a top-level definition. */
  function CodeBreak(t: string, i: nat): nat {
    if i < |t| && t[i] == '\n' && exists k :: 0 <= k < |DEFINITIONS| && StartsDefinition(t[i + 1..], DEFINITIONS[k]) then 1 else 0
  }

  predicate StartsDefinition(t: string, keyword: string) {
    keyword < t && !IsSpace(t[|keyword|])
  }

  lemma BreaksAreSpace()
    ensures SpaceMatcher(ParagraphBreak) && SpaceMatcher(SentenceBreak)
    ensures SpaceMatcher(LineBreak) && SpaceMatcher(CodeBreak)
  {
    forall t, i: nat | i < |t|
      ensures i + ParagraphBreak(t, i) <= |t| && AllSpace(t[i..i + ParagraphBreak(t, i)])
    {
      assert t[i..i + ParagraphBreak(t, i)] == t[i..RunEnd(t, i)][..ParagraphBreak(t, i)];
    }
  }

  /** `n` characters of whitespace that begin and end with different newlines. */
  predicate IsGap(t: string, i: nat, n: nat) {
    2 <= n && i + n <= |t| && t[i] == '\n' && t[i + n - 1] == '\n' && AllSpace(t[i..i + n])
  }

  lemma {:induction false} LastNewlineLongest(t: string, i: nat, e: nat, n: nat)
    requires i <= e <= |t|
    ensures var r := LastNewline(t, i, e);
            && (r > 0 ==> r >= 2 && t[i + r - 1] == '\n')
            && (2 <= n <= e - i && t[i + n - 1] == '\n' ==> n <= r)
    decreases e
  {
    if i + 1 < e && t[e - 1] != '\n' { LastNewlineLongest(t, i, e - 1, n); }
  }

  /** A paragraph break is the longest gap at its position, and there is one iff there is a gap. */
  lemma ParagraphBreakExact(t: string, i: nat, n: nat)
    requires i < |t|
    ensures ParagraphBreak(t, i) > 0 ==> IsGap(t, i, ParagraphBreak(t, i))
    ensures IsGap(t, i, n) ==> n <= ParagraphBreak(t, i)
  {
    var e := RunEnd(t, i);
    LastNewlineLongest(t, i, e, n);
    assert t[i..i + LastNewline(t, i, e)] == t[i..e][..LastNewline(t, i, e)];
    if IsGap(t, i, n) { GapInRun(t, i, n); }
  }

  lemma GapInRun(t: string, i: nat, n: nat)
    requires i < |t| && IsGap(t, i, n)
    ensures i + n <= RunEnd(t, i)
  {
    forall j | i <= j < i + n ensures IsSpace(t[j]) {
      assert t[i..i + n][j - i] == t[j];
    }
  }

  /** The text ends with a sentence, with or without a closing quote. */
  ghost predicate EndsInSentence(t: string) {
    exists rest: string, c: char :: c in ".!?\U{2026}" && (t == rest + [c] || ClosesAfter(t, rest, c))
  }

  ghost predicate ClosesAfter(t: string, rest: string, c: char) {
    exists q: char :: q in "\"'\U{bb})" && t == rest + [c, q]
  }

  lemma SentenceEndFound(t: string, i: nat)
    requires i <= |t| && SentenceEnd(t, i)
    ensures EndsInSentence(t[..i])
  {
    if EndsSentence(t[i - 1]) {
      assert t[i - 1] in ".!?\U{2026}" && t[..i] == t[..i - 1] + [t[i - 1]];
    } else {
      assert t[i - 1] in "\"'\U{bb})" && t[..i] == t[..i - 2] + [t[i - 2], t[i - 1]];
      assert t[i - 2] in ".!?\U{2026}" && ClosesAfter(t[..i], t[..i - 2], t[i - 2]);
    }
  }

  lemma SentenceEndIs(t: string, i: nat)
    requires i <= |t| && EndsInSentence(t[..i])
    ensures SentenceEnd(t, i)
  {
    var u := t[..i];
    var rest: string, c: char :| c in ".!?\U{2026}" && (u == rest + [c] || ClosesAfter(u, rest, c));
    if u == rest + [c] {
      assert u[i - 1] == c;
    } else {
      var q: char :| q in "\"'\U{bb})" && u == rest + [c, q];
      assert u[i - 2] == c && u[i - 1] == q;
    }
  }

  /** A sentence break is all the whitespace right after a sentence. */
  lemma SentenceBreakExact(t: string, i: nat)
    requires i < |t|
    ensures SentenceBreak(t, i) > 0 <==> IsSpace(t[i]) && EndsInSentence(t[..i])
    ensures SentenceBreak(t, i) > 0 ==>
              var e := i + SentenceBreak(t, i);
              e <= |t| && AllSpace(t[i..e]) && (e == |t| || !IsSpace(t[e]))
  {
    if SentenceEnd(t, i) { SentenceEndFound(t, i); }
    if EndsInSentence(t[..i]) { SentenceEndIs(t, i); }
  }

  /** The text starts with a newline, a definition keyword and something solid. */
  ghost predicate OpensDefinition(t: string, keyword: string) {
    exists c: char, rest: string :: !IsSpace(c) && t == "\n" + keyword + [c] + rest
  }

  lemma OpensExact(t: string, keyword: string)
    requires t != ""
    ensures OpensDefinition(t, keyword) <==> t[0] == '\n' && StartsDefinition(t[1..], keyword)
  {
    if t[0] == '\n' && StartsDefinition(t[1..], keyword) {
      assert t == "\n" + keyword + [t[1..][|keyword|]] + t[1..][|keyword| + 1..];
    }
    if OpensDefinition(t, keyword) {
      var c: char, rest: string :| !IsSpace(c) && t == "\n" + keyword + [c] + rest;
      assert t[1..] == keyword + [c] + rest;
      assert keyword == (keyword + [c] + rest)[..|keyword|];
    }
  }

  /** A code break is one newline in front of a definition; a line break any newline. */
  lemma CodeBreakExact(t: string, i: nat)
    requires i < |t|
    ensures CodeBreak(t, i) == if exists k :: 0 <= k < |DEFINITIONS| && OpensDefinition(t[i..], DEFINITIONS[k]) then 1 else 0
    ensures LineBreak(t, i) == if "\n" <= t[i..] then 1 else 0
  {
    assert t[i..][1..] == t[i + 1..] && t[i..][0] == t[i];
    forall k | 0 <= k < |DEFINITIONS|
      ensures OpensDefinition(t[i..], DEFINITIONS[k]) <==> t[i] == '\n' && StartsDefinition(t[i + 1..], DEFINITIONS[k])
    {
      OpensExact(t[i..], DEFINITIONS[k]);
    }
  }

  // ------------------------------------------------------------ oversized fragments

  /** Characters a slice of an oversized word may have: 3.5 per token, at least one. */
  function SliceLimit(target: int): (n: nat)
    ensures n >= 1 && 7 * target < 2 * n + 2
    ensures n > 1 ==> 2 * n <= 7 * target
  {
    if 7 * target / 2 < 1 then 1 else 7 * target / 2
  }

  function Slices(word: string, limit: nat): (r: seq<string>)
    requires limit >= 1
    ensures forall p :: p in r ==> 1 <= |p| <= limit
  {
    if word == "" then []
    else if |word| <= limit then [word]
    else [word[..limit]] + Slices(word[limit..], limit)
  }

  function SplitWords(words: seq<string>, buffer: seq<string>, count: string -> nat, target: int): seq<string>
    decreases |words|
  {
    if words == [] then (if buffer == [] then [] else [Join(" ", buffer)])
    else if count(Join(" ", buffer + [words[0]])) < target then
      SplitWords(words[1..], buffer + [words[0]], count, target)
    else if buffer != [] then
      [Join(" ", buffer)] + SplitWords(words[1..], [words[0]], count, target)
    else
      Slices(words[0], SliceLimit(target)) + SplitWords(words[1..], [], count, target)
  }

  function SplitOversized(atom: string, count: string -> nat, target: int): seq<string> {
    var pieces := SplitWords(Words(atom), [], count, target);
    if pieces == [] then [atom] else pieces
  }

  lemma {:induction false} SlicesConcat(word: string, limit: nat)
    requires limit >= 1
    ensures Concat(Slices(word, limit)) == word
  {
    if |word| > limit {
      SlicesConcat(word[limit..], limit);
      ConcatCons(word[..limit], Slices(word[limit..], limit));
    } else if word != "" {
      assert Concat([word]) == word + "" == word;
    }
  }

  /** All slices but the last have the full length. */
  lemma {:induction false} SlicesFull(word: string, limit: nat, i: nat)
    requires limit >= 1 && i + 1 < |Slices(word, limit)|
    ensures |Slices(word, limit)[i]| == limit
  {
    if i > 0 { SlicesFull(word[limit..], limit, i - 1); }
  }

  lemma SolidPrepend(a: seq<string>, b: seq<string>)
    ensures Solid(Concat(a + b)) == Solid(Concat(a)) + Solid(Concat(b))
  {
    ConcatAppend(a, b);
    SolidAppend(Concat(a), Concat(b));
  }

  lemma SolidOfOne(p: string)
    ensures Concat([p]) == p
  {
    assert p + "" == p;
  }

  lemma FlushKeepsSolid(buffer: seq<string>, more: seq<string>, rest: seq<string>)
    requires Solid(Concat(more)) == Solid(Concat(rest))
    ensures Solid(Concat([Join(" ", buffer)] + more)) == Solid(Concat(buffer + rest))
  {
    SolidPrepend([Join(" ", buffer)], more);
    SolidOfOne(Join(" ", buffer));
    JoinKeepsSolid(" ", buffer);
    SolidPrepend(buffer, rest);
  }

  lemma SlicesKeepSolid(w: string, limit: nat, more: seq<string>, rest: seq<string>)
    requires limit >= 1 && Solid(Concat(more)) == Solid(Concat(rest))
    ensures Solid(Concat(Slices(w, limit) + more)) == Solid(Concat([w] + rest))
  {
    SolidPrepend(Slices(w, limit), more);
    SlicesConcat(w, limit);
    SolidPrepend([w], rest);
    SolidOfOne(w);
  }

  lemma {:induction false} SplitWordsKeepsSolid(words: seq<string>, buffer: seq<string>, count: string -> nat, target: int)
    ensures Solid(Concat(SplitWords(words, buffer, count, target))) == Solid(Concat(buffer + words))
    decreases |words|
  {
    if words == [] {
      if buffer == [] {
        assert buffer + words == [];
      } else {
        FlushKeepsSolid(buffer, [], []);
        assert [Join(" ", buffer)] + [] == [Join(" ", buffer)];
      }
    } else {
      var w, rest := words[0], words[1..];
      assert words == [w] + rest;
      if count(Join(" ", buffer + [w])) < target {
        SplitWordsKeepsSolid(rest, buffer + [w], count, target);
        assert buffer + [w] + rest == buffer + words;
      } else if buffer != [] {
        SplitWordsKeepsSolid(rest, [w], count, target);
        FlushKeepsSolid(buffer, SplitWords(rest, [w], count, target), [w] + rest);
      } else {
        SplitWordsKeepsSolid(rest, [], count, target);
        assert [] + rest == rest && buffer + words == words;
        SlicesKeepSolid(w, SliceLimit(target), SplitWords(rest, [], count, target), rest);
      }
    }
  }

  /** Cutting a fragment loses none of its solid characters. */
  lemma SplitOversizedKeepsSolid(atom: string, count: string -> nat, target: int)
    ensures Solid(Concat(SplitOversized(atom, count, target))) == Solid(atom)
  {
    var words := Words(atom);
    SplitWordsKeepsSolid(words, [], count, target);
    assert [] + words == words;
    WordsConcat(atom);
    StripKeepsSolid(atom);
    SolidIdempotent(atom);
    if SplitWords(words, [], count, target) == [] {
      assert Concat([atom]) == atom + "" == atom;
    }
  }

  lemma {:induction false} SolidNoSpace(s: string)
    ensures NoSpace(Solid(s))
  {
    if s != "" { SolidNoSpace(s[1..]); }
  }

  lemma SolidIdempotent(s: string)
    ensures Solid(Solid(s)) == Solid(s)
  {
    SolidNoSpace(s);
    SolidOfNoSpace(Solid(s));
  }

  /** What a piece can be: below target, or one whole word, or a slice of bounded length. */
  ghost predicate IsPiece(p: string, words: seq<string>, count: string -> nat, target: int) {
    && p != ""
    && (count(p) < target || p in words || (|p| <= SliceLimit(target) && NoSpace(p)))
  }

  lemma {:induction false} SlicesNoSpace(word: string, limit: nat)
    requires limit >= 1 && NoSpace(word)
    ensures forall p :: p in Slices(word, limit) ==> NoSpace(p)
  {
    if |word| > limit { SlicesNoSpace(word[limit..], limit); }
  }

  lemma {:induction false} JoinLast(sep: string, parts: seq<string>, p: string)
    ensures |Join(sep, parts + [p])| >= |p|
  {
    if parts == [] {
      assert parts + [p] == [p];
    } else {
      JoinLast(sep, parts[1..], p);
      assert (parts + [p])[1..] == parts[1..] + [p];
    }
  }

  lemma {:induction false} SplitWordsPieces(words: seq<string>, buffer: seq<string>, all: seq<string>, count: string -> nat, target: int)
    requires forall w :: w in words ==> w in all && w != "" && NoSpace(w)
    requires buffer == [] || IsPiece(Join(" ", buffer), all, count, target)
    ensures forall p :: p in SplitWords(words, buffer, count, target) ==> IsPiece(p, all, count, target)
    decreases |words|
  {
    if words != [] {
      var w, rest := words[0], words[1..];
      assert w in words;
      assert forall v :: v in rest ==> v in words;
      if count(Join(" ", buffer + [w])) < target {
        JoinLast(" ", buffer, w);
        SplitWordsPieces(rest, buffer + [w], all, count, target);
      } else if buffer != [] {
        assert Join(" ", [w]) == w;
        SplitWordsPieces(rest, [w], all, count, target);
      } else {
        SlicesNoSpace(w, SliceLimit(target));
        SplitWordsPieces(rest, [], all, count, target);
      }
    }
  }

  /** What cutting a fragment yields; only a fragment without words comes back as it is. */
  lemma SplitOversizedPieces(atom: string, count: string -> nat, target: int)
    ensures var pieces := SplitOversized(atom, count, target);
            if Solid(atom) == "" then pieces == [atom]
            else forall p :: p in pieces ==> IsPiece(p, Words(atom), count, target)
  {
    SplitWordsPieces(Words(atom), [], Words(atom), count, target);
    SplitWordsKeepsSolid(Words(atom), [], count, target);
    WordsConcat(atom);
    SolidIdempotent(atom);
    assert [] + Words(atom) == Words(atom);
    assert Words(atom) != [] ==> Concat(Words(atom))[0] == Words(atom)[0][0];
  }

  /** How many words at the start of a fragment are each over the target on their own. */
  function LeadingOversized(words: seq<string>, count: string -> nat, target: int): (n: nat)
    ensures n <= |words|
    ensures forall i :: 0 <= i < n ==> count(words[i]) >= target
    ensures n < |words| ==> count(words[n]) < target
  {
    if words == [] || count(words[0]) < target then 0 else 1 + LeadingOversized(words[1..], count, target)
  }

  function SliceAll(words: seq<string>, limit: nat): seq<string>
    requires limit >= 1
  {
    if words == [] then [] else Slices(words[0], limit) + SliceAll(words[1..], limit)
  }

  /** Greedy grouping that never looks inside a word. */
  function WordGroups(words: seq<string>, buffer: seq<string>, count: string -> nat, target: int): seq<seq<string>>
    decreases |words|
  {
    if words == [] then [buffer]
    else if count(Join(" ", buffer + [words[0]])) < target then WordGroups(words[1..], buffer + [words[0]], count, target)
    else [buffer] + WordGroups(words[1..], [words[0]], count, target)
  }

  function JoinAll(sep: string, groups: seq<seq<string>>): (r: seq<string>)
    ensures |r| == |groups| && forall i :: 0 <= i < |r| ==> r[i] == Join(sep, groups[i])
  {
    seq(|groups|, i requires 0 <= i < |groups| => Join(sep, groups[i]))
  }

  function Flatten(groups: seq<seq<string>>): seq<string> {
    if groups == [] then [] else groups[0] + Flatten(groups[1..])
  }

  lemma {:induction false} WordGroupsKeepWords(words: seq<string>, buffer: seq<string>, count: string -> nat, target: int)
    ensures Flatten(WordGroups(words, buffer, count, target)) == buffer + words
    decreases |words|
  {
    if words == [] {
      assert Flatten([buffer]) == buffer + Flatten([]);
    } else if count(Join(" ", buffer + [words[0]])) < target {
      WordGroupsKeepWords(words[1..], buffer + [words[0]], count, target);
      assert buffer + [words[0]] + words[1..] == buffer + words;
    } else {
      var more := WordGroups(words[1..], [words[0]], count, target);
      WordGroupsKeepWords(words[1..], [words[0]], count, target);
      assert ([buffer] + more)[1..] == more;
      assert [words[0]] + words[1..] == words;
    }
  }

  /** Words went together as long as they stayed below target; the next group starts with the first that did not. */
  ghost predicate GreedyWords(groups: seq<seq<string>>, count: string -> nat, target: int) {
    && (forall i :: 0 <= i < |groups| ==> groups[i] != [] && (|groups[i]| > 1 ==> count(Join(" ", groups[i])) < target))
    && (forall i :: 0 < i < |groups| ==> count(Join(" ", groups[i - 1] + [groups[i][0]])) >= target)
  }

  lemma GreedyWordsCons(g: seq<string>, more: seq<seq<string>>, count: string -> nat, target: int)
    requires GreedyWords(more, count, target) && more != []
    requires g != [] && (|g| > 1 ==> count(Join(" ", g)) < target)
    requires count(Join(" ", g + [more[0][0]])) >= target
    ensures GreedyWords([g] + more, count, target)
  {
    var all := [g] + more;
    forall i | 0 < i < |all| ensures count(Join(" ", all[i - 1] + [all[i][0]])) >= target {
      assert i > 1 ==> all[i - 1] == more[i - 2] && all[i] == more[i - 1];
    }
  }

  /** Grouping is greedy. */
  lemma {:induction false} WordGroupsGreedy(words: seq<string>, buffer: seq<string>, count: string -> nat, target: int)
    requires buffer != [] && (|buffer| > 1 ==> count(Join(" ", buffer)) < target)
    ensures var g := WordGroups(words, buffer, count, target);
            g != [] && buffer <= g[0] && GreedyWords(g, count, target)
    decreases |words|
  {
    if words != [] {
      if count(Join(" ", buffer + [words[0]])) < target {
        WordGroupsGreedy(words[1..], buffer + [words[0]], count, target);
      } else {
        WordGroupsGreedy(words[1..], [words[0]], count, target);
        GreedyWordsCons(buffer, WordGroups(words[1..], [words[0]], count, target), count, target);
      }
    }
  }

  lemma {:induction false} BufferedWordsStayWhole(words: seq<string>, buffer: seq<string>, count: string -> nat, target: int)
    requires buffer != []
    ensures SplitWords(words, buffer, count, target) == JoinAll(" ", WordGroups(words, buffer, count, target))
    decreases |words|
  {
    if words != [] {
      if count(Join(" ", buffer + [words[0]])) < target {
        BufferedWordsStayWhole(words[1..], buffer + [words[0]], count, target);
      } else {
        BufferedWordsStayWhole(words[1..], [words[0]], count, target);
        var more := WordGroups(words[1..], [words[0]], count, target);
        assert JoinAll(" ", [buffer] + more) == [Join(" ", buffer)] + JoinAll(" ", more);
      }
    }
  }

  /** The first `n` words cut into slices, the rest grouped whole. */
  function CutFirst(words: seq<string>, n: nat, count: string -> nat, target: int): seq<string>
    requires n <= |words|
  {
    SliceAll(words[..n], SliceLimit(target))
    + if n == |words| then [] else JoinAll(" ", WordGroups(words[n + 1..], [words[n]], count, target))
  }

  lemma CutFirstStep(words: seq<string>, n: nat, count: string -> nat, target: int)
    requires 1 <= n <= |words|
    ensures CutFirst(words, n, count, target)
         == Slices(words[0], SliceLimit(target)) + CutFirst(words[1..], n - 1, count, target)
  {
    assert words[..n][1..] == words[1..][..n - 1];
    if n < |words| { assert words[1..][n..] == words[n + 1..]; }
  }

  /** A fragment that starts with a word that fits has no word cut. */
  lemma NoWordIsCut(words: seq<string>, count: string -> nat, target: int)
    requires words != [] && count(words[0]) < target
    ensures SplitWords(words, [], count, target) == CutFirst(words, 0, count, target)
  {
    assert [] + [words[0]] == [words[0]];
    assert Join(" ", [words[0]]) == words[0];
    BufferedWordsStayWhole(words[1..], [words[0]], count, target);
    assert SliceAll(words[..0], SliceLimit(target)) == [];
    assert CutFirst(words, 0, count, target) == JoinAll(" ", WordGroups(words[1..], [words[0]], count, target));
  }

  /**
   Which words are cut by characters: exactly the oversized words a fragment starts with.
   From the first word that fits on, every word is kept whole, however long it is.
   */
  lemma {:induction false} OnlyLeadingWordsAreCut(words: seq<string>, count: string -> nat, target: int)
    ensures SplitWords(words, [], count, target)
         == CutFirst(words, LeadingOversized(words, count, target), count, target)
    decreases |words|
  {
    if words != [] {
      if count(words[0]) < target {
        NoWordIsCut(words, count, target);
      } else {
        assert [] + [words[0]] == [words[0]];
        assert Join(" ", [words[0]]) == words[0];
        OnlyLeadingWordsAreCut(words[1..], count, target);
        CutFirstStep(words, LeadingOversized(words, count, target), count, target);
      }
    }
  }

  lemma TwoWords(a: string, b: string, count: string -> nat, target: int)
    requires count(a) < target <= count(a + " " + b)
    ensures SplitWords([a, b], [], count, target) == [a, b]
  {
    assert [] + [a] == [a] && [a] + [b] == [a, b] && [a, b][1..] == [b] && [b][1..] == [];
    assert Join(" ", [a, b]) == a + " " + Join(" ", [b]);
    assert SplitWords([], [b], count, target) == [b];
    assert SplitWords([b], [a], count, target) == [a] + [b];
  }

  /** A word over the target stays uncut when a word that fits comes before it. */
  lemma LongWordUncut()
    ensures var count := (s: string) => |s|;
            count("bcd") >= 2 && SplitOversized("a bcd", count, 2) == ["a", "bcd"]
  {
    var count := (s: string) => |s|;
    var t := "a bcd";
    assert WordEnd(t, 0) == 1 && RunEnd(t, 0) == 0 && t[0..1] == "a";
    assert RunEnd(t, 1) == 2 && WordEnd(t, 5) == 5 && WordEnd(t, 4) == 5 && WordEnd(t, 3) == 5 && WordEnd(t, 2) == 5;
    assert t[2..5] == "bcd";
    assert WordsFrom(t, 5) == [];
    assert WordsFrom(t, 1) == ["bcd"];
    assert Words(t) == ["a", "bcd"];
    TwoWords("a", "bcd", count, 2);
  }

  // -------------------------------------------------------------------------- atoms

  function KeepSolid(parts: seq<string>): seq<string> {
    if parts == [] then []
    else (if Strip(parts[0]) != "" then [parts[0]] else []) + KeepSolid(parts[1..])
  }

  function CoarseBreak(contentType: string): Matcher {
    if contentType == "code" then CodeBreak else ParagraphBreak
  }

  function FineBreak(contentType: string): Matcher {
    if contentType == "code" then LineBreak else SentenceBreak
  }

  function PieceAtoms(piece: string, count: string -> nat, target: int): seq<string> {
    if count(Strip(piece)) < target then [Strip(piece)] else SplitOversized(Strip(piece), count, target)
  }

  function PiecesAtoms(pieces: seq<string>, count: string -> nat, target: int): seq<string> {
    if pieces == [] then [] else PieceAtoms(pieces[0], count, target) + PiecesAtoms(pieces[1..], count, target)
  }

  function PartAtoms(part: string, contentType: string, count: string -> nat, target: int): seq<string> {
    if count(Strip(part)) < target then [Strip(part)]
    else PiecesAtoms(KeepSolid(Split(Strip(part), FineBreak(contentType))), count, target)
  }

  function PartsAtoms(parts: seq<string>, contentType: string, count: string -> nat, target: int): seq<string> {
    if parts == [] then []
    else PartAtoms(parts[0], contentType, count, target) + PartsAtoms(parts[1..], contentType, count, target)
  }

  /** Paragraphs (or definitions), then sentences (or lines), then words, then slices. */
  function Atoms(text: string, contentType: string, count: string -> nat, target: int): seq<string> {
    PartsAtoms(KeepSolid(Split(text, CoarseBreak(contentType))), contentType, count, target)
  }

  lemma {:induction false} KeepSolidExact(parts: seq<string>)
    ensures Solid(Concat(KeepSolid(parts))) == Solid(Concat(parts))
    ensures forall p :: p in KeepSolid(parts) ==> Strip(p) != "" && p in parts
  {
    if parts != [] {
      KeepSolidExact(parts[1..]);
      SolidAppend(parts[0], Concat(parts[1..]));
      StripKeepsSolid(parts[0]);
      if Strip(parts[0]) != "" {
        ConcatCons(parts[0], KeepSolid(parts[1..]));
        SolidAppend(parts[0], Concat(KeepSolid(parts[1..])));
      } else {
        assert KeepSolid(parts) == KeepSolid(parts[1..]);
      }
    }
  }

  /** Small enough to pack, or a whole word of the text, or a slice of bounded length. */
  ghost predicate IsAtom(a: string, text: string, count: string -> nat, target: int) {
    a != "" && (count(a) < target || WordOf(text, a) || (|a| <= SliceLimit(target) && NoSpace(a)))
  }

  lemma PieceIsAtom(a: string, text: string, fragment: string, count: string -> nat, target: int)
    requires Fragment(text, fragment) && IsPiece(a, Words(fragment), count, target)
    ensures IsAtom(a, text, count, target)
  {
    if a in Words(fragment) {
      WordsFromWhole(fragment, 0);
      FragmentTransitive(text, fragment, a);
    }
  }

  lemma PieceAtomsExact(piece: string, text: string, count: string -> nat, target: int)
    requires Strip(piece) != "" && Fragment(text, piece)
    ensures Solid(Concat(PieceAtoms(piece, count, target))) == Solid(piece)
    ensures forall a :: a in PieceAtoms(piece, count, target) ==> IsAtom(a, text, count, target)
  {
    StripKeepsSolid(piece);
    SolidOfOne(Strip(piece));
    SplitOversizedKeepsSolid(Strip(piece), count, target);
    SplitOversizedPieces(Strip(piece), count, target);
    StripFragment(piece);
    FragmentTransitive(text, piece, Strip(piece));
    forall a | a in PieceAtoms(piece, count, target) ensures IsAtom(a, text, count, target) {
      if count(Strip(piece)) >= target { PieceIsAtom(a, text, Strip(piece), count, target); }
    }
  }

  lemma {:induction false} PiecesAtomsExact(pieces: seq<string>, text: string, count: string -> nat, target: int)
    requires forall p :: p in pieces ==> Strip(p) != "" && Fragment(text, p)
    ensures Solid(Concat(PiecesAtoms(pieces, count, target))) == Solid(Concat(pieces))
    ensures forall a :: a in PiecesAtoms(pieces, count, target) ==> IsAtom(a, text, count, target)
  {
    if pieces != [] {
      PieceAtomsExact(pieces[0], text, count, target);
      PiecesAtomsExact(pieces[1..], text, count, target);
      SolidPrepend(PieceAtoms(pieces[0], count, target), PiecesAtoms(pieces[1..], count, target));
      SolidAppend(pieces[0], Concat(pieces[1..]));
    }
  }

  lemma PartAtomsExact(part: string, text: string, contentType: string, count: string -> nat, target: int)
    requires Strip(part) != "" && Fragment(text, part)
    ensures Solid(Concat(PartAtoms(part, contentType, count, target))) == Solid(part)
    ensures forall a :: a in PartAtoms(part, contentType, count, target) ==> IsAtom(a, text, count, target)
  {
    StripKeepsSolid(part);
    SolidOfOne(Strip(part));
    BreaksAreSpace();
    var fine := Split(Strip(part), FineBreak(contentType));
    SplitKeepsSolid(Strip(part), FineBreak(contentType));
    KeepSolidExact(fine);
    StripFragment(part);
    FragmentTransitive(text, part, Strip(part));
    SplitFromFragments(Strip(part), FineBreak(contentType), 0, 0);
    forall p | p in KeepSolid(fine) ensures Fragment(text, p) { FragmentTransitive(text, Strip(part), p); }
    PiecesAtomsExact(KeepSolid(fine), text, count, target);
  }

  lemma {:induction false} PartsAtomsExact(parts: seq<string>, text: string, contentType: string, count: string -> nat, target: int)
    requires forall p :: p in parts ==> Strip(p) != "" && Fragment(text, p)
    ensures Solid(Concat(PartsAtoms(parts, contentType, count, target))) == Solid(Concat(parts))
    ensures forall a :: a in PartsAtoms(parts, contentType, count, target) ==> IsAtom(a, text, count, target)
  {
    if parts != [] {
      PartAtomsExact(parts[0], text, contentType, count, target);
      PartsAtomsExact(parts[1..], text, contentType, count, target);
      SolidPrepend(PartAtoms(parts[0], contentType, count, target), PartsAtoms(parts[1..], contentType, count, target));
      SolidAppend(parts[0], Concat(parts[1..]));
    }
  }

  /** The atoms carry every solid character of the text, in order, and nothing else. */
  lemma AtomsLossless(text: string, contentType: string, count: string -> nat, target: int)
    ensures Solid(Concat(Atoms(text, contentType, count, target))) == Solid(text)
    ensures forall a :: a in Atoms(text, contentType, count, target) ==> IsAtom(a, text, count, target)
  {
    BreaksAreSpace();
    var coarse := Split(text, CoarseBreak(contentType));
    SplitKeepsSolid(text, CoarseBreak(contentType));
    KeepSolidExact(coarse);
    SplitFromFragments(text, CoarseBreak(contentType), 0, 0);
    PartsAtomsExact(KeepSolid(coarse), text, contentType, count, target);
  }

  // ------------------------------------------------------ what stays whole, and where

  function Stripped(parts: seq<string>): (r: seq<string>)
    ensures |r| == |parts| && forall i :: 0 <= i < |r| ==> r[i] == Strip(parts[i])
  {
    seq(|parts|, i requires 0 <= i < |parts| => Strip(parts[i]))
  }

  predicate AllSmall(parts: seq<string>, count: string -> nat, target: int) {
    forall i :: 0 <= i < |parts| ==> count(Strip(parts[i])) < target
  }

  function FlatMap(xs: seq<string>, f: string -> seq<string>): seq<string> {
    if xs == [] then [] else f(xs[0]) + FlatMap(xs[1..], f)
  }

  lemma {:induction false} FlatMapAppend(a: seq<string>, b: seq<string>, f: string -> seq<string>)
    ensures FlatMap(a + b, f) == FlatMap(a, f) + FlatMap(b, f)
  {
    if a == [] {
      assert a + b == b;
    } else {
      FlatMapAppend(a[1..], b, f);
      assert (a + b)[1..] == a[1..] + b;
      Sorting.Assoc(f(a[0]), FlatMap(a[1..], f), FlatMap(b, f));
    }
  }

  function OfPiece(count: string -> nat, target: int): string -> seq<string> {
    p => PieceAtoms(p, count, target)
  }

  function OfPart(contentType: string, count: string -> nat, target: int): string -> seq<string> {
    p => PartAtoms(p, contentType, count, target)
  }

  lemma {:induction false} PiecesOneByOne(pieces: seq<string>, count: string -> nat, target: int)
    ensures PiecesAtoms(pieces, count, target) == FlatMap(pieces, OfPiece(count, target))
  {
    if pieces != [] { PiecesOneByOne(pieces[1..], count, target); }
  }

  lemma {:induction false} PartsOneByOne(parts: seq<string>, contentType: string, count: string -> nat, target: int)
    ensures PartsAtoms(parts, contentType, count, target) == FlatMap(parts, OfPart(contentType, count, target))
  {
    if parts != [] { PartsOneByOne(parts[1..], contentType, count, target); }
  }

  lemma {:induction false} FlatMapOnes(xs: seq<string>, f: string -> seq<string>, ys: seq<string>)
    requires |xs| == |ys| && forall i :: 0 <= i < |xs| ==> f(xs[i]) == [ys[i]]
    ensures FlatMap(xs, f) == ys
  {
    if xs != [] {
      FlatMapOnes(xs[1..], f, ys[1..]);
      assert ys == [ys[0]] + ys[1..];
    }
  }

  lemma SmallPieces(pieces: seq<string>, count: string -> nat, target: int)
    requires AllSmall(pieces, count, target)
    ensures PiecesAtoms(pieces, count, target) == Stripped(pieces)
  {
    PiecesOneByOne(pieces, count, target);
    FlatMapOnes(pieces, OfPiece(count, target), Stripped(pieces));
  }

  lemma SmallParts(parts: seq<string>, contentType: string, count: string -> nat, target: int)
    requires AllSmall(parts, count, target)
    ensures PartsAtoms(parts, contentType, count, target) == Stripped(parts)
  {
    PartsOneByOne(parts, contentType, count, target);
    FlatMapOnes(parts, OfPart(contentType, count, target), Stripped(parts));
  }

  lemma PiecesAppend(a: seq<string>, b: seq<string>, count: string -> nat, target: int)
    ensures PiecesAtoms(a + b, count, target) == PiecesAtoms(a, count, target) + PiecesAtoms(b, count, target)
  {
    PiecesOneByOne(a, count, target);
    PiecesOneByOne(b, count, target);
    PiecesOneByOne(a + b, count, target);
    FlatMapAppend(a, b, OfPiece(count, target));
  }

  lemma PartsAppend(a: seq<string>, b: seq<string>, contentType: string, count: string -> nat, target: int)
    ensures PartsAtoms(a + b, contentType, count, target) == PartsAtoms(a, contentType, count, target) + PartsAtoms(b, contentType, count, target)
  {
    PartsOneByOne(a, contentType, count, target);
    PartsOneByOne(b, contentType, count, target);
    PartsOneByOne(a + b, contentType, count, target);
    FlatMapAppend(a, b, OfPart(contentType, count, target));
  }

  /** The coarse parts of a text: definitions of code, paragraphs of anything else. */
  ghost predicate IsCoarse(text: string, contentType: string, parts: seq<string>) {
    parts == KeepSolid(Split(text, if contentType == "code" then CodeBreak else ParagraphBreak))
  }

  /** The pieces of an oversized part: lines of code, sentences of anything else. */
  ghost predicate IsFine(part: string, contentType: string, pieces: seq<string>) {
    pieces == KeepSolid(Split(Strip(part), if contentType == "code" then LineBreak else SentenceBreak))
  }

  /** When all parts are small, the atoms are those parts, stripped and in order. */
  lemma SmallPartsStayWhole(text: string, contentType: string, count: string -> nat, target: int, parts: seq<string>)
    requires IsCoarse(text, contentType, parts) && AllSmall(parts, count, target)
    ensures Atoms(text, contentType, count, target) == Stripped(parts)
  {
    SmallParts(parts, contentType, count, target);
  }

  /** A small part is one atom, wherever it stands. */
  lemma SmallPartInPlace(text: string, contentType: string, count: string -> nat, target: int,
                         before: seq<string>, part: string, after: seq<string>)
    requires IsCoarse(text, contentType, before + [part] + after) && count(Strip(part)) < target
    ensures Atoms(text, contentType, count, target)
         == PartsAtoms(before, contentType, count, target) + [Strip(part)] + PartsAtoms(after, contentType, count, target)
  {
    PartsAppend(before + [part], after, contentType, count, target);
    PartsAppend(before, [part], contentType, count, target);
    SmallParts([part], contentType, count, target);
    assert Stripped([part]) == [Strip(part)];
  }

  /** A part too large is replaced by what its pieces become. */
  lemma LargePartInPlace(text: string, contentType: string, count: string -> nat, target: int,
                         before: seq<string>, part: string, after: seq<string>, pieces: seq<string>)
    requires IsCoarse(text, contentType, before + [part] + after) && count(Strip(part)) >= target
    requires IsFine(part, contentType, pieces)
    ensures Atoms(text, contentType, count, target)
         == PartsAtoms(before, contentType, count, target) + PiecesAtoms(pieces, count, target) + PartsAtoms(after, contentType, count, target)
    ensures AllSmall(pieces, count, target) ==> PiecesAtoms(pieces, count, target) == Stripped(pieces)
  {
    PartsAppend(before + [part], after, contentType, count, target);
    PartsAppend(before, [part], contentType, count, target);
    assert PartsAtoms([part], contentType, count, target) == PiecesAtoms(pieces, count, target) by {
      assert [part][1..] == [];
      assert PiecesAtoms(pieces, count, target) + [] == PiecesAtoms(pieces, count, target);
    }
    if AllSmall(pieces, count, target) { SmallPieces(pieces, count, target); }
  }

  /** What one piece becomes: a small one stays whole, one too large is cut by its words, oversized leading words by characters. */
  lemma OnePiece(piece: string, count: string -> nat, target: int)
    requires Strip(piece) != ""
    ensures var words := Words(Strip(piece));
            var own := if count(Strip(piece)) < target then [Strip(piece)]
                       else CutFirst(words, LeadingOversized(words, count, target), count, target);
            PieceAtoms(piece, count, target) == own
  {
    var words := Words(Strip(piece));
    if count(Strip(piece)) >= target {
      OnlyLeadingWordsAreCut(words, count, target);
      SplitWordsKeepsSolid(words, [], count, target);
      assert [] + words == words;
      WordsConcat(Strip(piece));
      StripKeepsSolid(piece);
      SolidIdempotent(Strip(piece));
    }
  }

  /** It does so in its place among the pieces. */
  lemma PieceInPlace(before: seq<string>, piece: string, after: seq<string>, count: string -> nat, target: int)
    requires Strip(piece) != ""
    ensures var words := Words(Strip(piece));
            var own := if count(Strip(piece)) < target then [Strip(piece)]
                       else CutFirst(words, LeadingOversized(words, count, target), count, target);
            PiecesAtoms(before + [piece] + after, count, target) == PiecesAtoms(before, count, target) + own + PiecesAtoms(after, count, target)
  {
    OnePiece(piece, count, target);
    var own := PieceAtoms(piece, count, target);
    PiecesAppend(before + [piece], after, count, target);
    PiecesAppend(before, [piece], count, target);
    assert PiecesAtoms([piece], count, target) == own by {
      assert [piece][1..] == [] && own + [] == own;
    }
  }

  /** Text whose parts are small and fit the target together is one chunk. */
  lemma FittingTextIsOneChunk(text: string, contentType: string, count: string -> nat, target: int, overlap: int, parts: seq<string>)
    requires IsCoarse(text, contentType, parts) && parts != [] && AllSmall(parts, count, target)
    requires |parts| == 1 || Sum(Stripped(parts), count) <= target
    ensures Chunks(text, contentType, count, target, overlap) == [Stripped(parts)]
  {
    SmallPartsStayWhole(text, contentType, count, target, parts);
    assert [] + Stripped(parts) == Stripped(parts);
    PackAllFit(Stripped(parts), [], count, target, overlap);
  }

  /** Text without a paragraph break, or a definition to cut at, is one chunk as it stands when it is small. */
  lemma SmallTextUnchanged(text: string, contentType: string, count: string -> nat, target: int, overlap: int)
    requires Strip(text) != "" && count(Strip(text)) < target
    requires forall i: nat :: i < |text| ==> !MatchAt(text, CodeBreak, i) || contentType != "code"
    requires forall i: nat :: i < |text| ==> !MatchAt(text, ParagraphBreak, i) || contentType == "code"
    ensures JoinAll("\n\n", Chunks(text, contentType, count, target, overlap)) == [Strip(text)]
  {
    SplitNowhere(text, if contentType == "code" then CodeBreak else ParagraphBreak, 0);
    assert KeepSolid([text]) == [text] + KeepSolid([text][1..]) == [text];
    FittingTextIsOneChunk(text, contentType, count, target, overlap, [text]);
    assert Stripped([text]) == [Strip(text)];
  }

  // ------------------------------------------------------------------------- chunks

  function Chunks(text: string, contentType: string, count: string -> nat, target: int, overlap: int): seq<seq<string>> {
    Groups(Atoms(text, contentType, count, target), count, target, overlap)
  }

  /**
   Lossless end to end: chunks without their repeated atoms carry exactly the solid
   characters of the text, and every chunk is a carry plus at least one new atom.
   */
  lemma ChunksLossless(text: string, contentType: string, count: string -> nat, target: int, overlap: int)
    ensures var g := Chunks(text, contentType, count, target, overlap);
            && Chained([], g, count, overlap)
            && Solid(Concat(Unpack(0, g, count, overlap))) == Solid(text)
  {
    AtomsLossless(text, contentType, count, target);
    GroupsLossless(Atoms(text, contentType, count, target), count, target, overlap);
  }

  lemma {:induction false} PackMembers(atoms: seq<string>, current: seq<string>, weight: string -> nat, target: int, overlap: int)
    ensures forall g :: g in Pack(atoms, current, weight, target, overlap) ==>
              g != [] && forall a :: a in g ==> a in atoms || a in current
    decreases |atoms|
  {
    if atoms != [] {
      assert atoms[0] in atoms && forall a :: a in atoms[1..] ==> a in atoms;
      if current != [] && Sum(current, weight) + weight(atoms[0]) > target {
        TailExact(current, weight, overlap);
        PackMembers(atoms[1..], Tail(current, weight, overlap) + [atoms[0]], weight, target, overlap);
      } else {
        PackMembers(atoms[1..], current + [atoms[0]], weight, target, overlap);
      }
    }
  }

  /** Every chunk consists of atoms of the text. */
  lemma ChunksOfAtoms(text: string, contentType: string, count: string -> nat, target: int, overlap: int)
    ensures forall g :: g in Chunks(text, contentType, count, target, overlap) ==>
              g != [] && forall a :: a in g ==> IsAtom(a, text, count, target)
  {
    AtomsLossless(text, contentType, count, target);
    PackMembers(Atoms(text, contentType, count, target), [], count, target, overlap);
  }

  /**
   The size of a chunk, end to end: its atoms sum to at most the target, or it is the carry of
   its predecessor, of bounded weight, and exactly one more atom, which is below target, or
   one whole word of the text, or a slice of at most 3.5 characters per token of the target.
   */
  lemma ChunkSize(text: string, contentType: string, count: string -> nat, target: int, overlap: int, i: nat)
    requires i < |Chunks(text, contentType, count, target, overlap)|
    ensures var groups := Chunks(text, contentType, count, target, overlap);
            var carry := CarryInto(groups, i, count, overlap);
            || Sum(groups[i], count) <= target
            || (&& carry < groups[i] && |groups[i]| == |carry| + 1 && CarryBound(carry, count, overlap)
                && IsAtom(groups[i][|carry|], text, count, target))
  {
    var groups := Chunks(text, contentType, count, target, overlap);
    ChunksOfAtoms(text, contentType, count, target, overlap);
    GroupsBound(Atoms(text, contentType, count, target), count, target, overlap, i);
    assert groups[i] in groups;
    assert groups[i][|groups[i]| - 1] in groups[i];
  }

  /** No chunk is empty, as the docstring promises. */
  lemma ChunksNonEmpty(text: string, contentType: string, count: string -> nat, target: int, overlap: int)
    ensures forall c :: c in JoinAll("\n\n", Chunks(text, contentType, count, target, overlap)) ==> c != ""
  {
    ChunksOfAtoms(text, contentType, count, target, overlap);
    var groups := Chunks(text, contentType, count, target, overlap);
    forall i | 0 <= i < |groups| ensures Join("\n\n", groups[i]) != "" {
      assert groups[i] in groups;
      assert groups[i][0] in groups[i];
    }
  }

  // ------------------------------------------------------------------ the procedures

  method CutOversized(atom: string, count: string -> nat, target: int) returns (pieces: seq<string>)
    ensures pieces == SplitOversized(atom, count, target)
  {
    pieces := [];
    var buffer: seq<string> := [];
    var words := Words(atom);
    for i := 0 to |words|
      invariant pieces + SplitWords(words[i..], buffer, count, target) == SplitWords(words, [], count, target)
    {
      var word := words[i];
      ghost var piecesBefore, held := pieces, buffer;
      SplitWordsStep(words, i, buffer, count, target);
      buffer := buffer + [word];
      if count(Join(" ", buffer)) >= target {
        buffer := buffer[..|buffer| - 1];
        assert buffer == held;
        Sorting.Assoc(piecesBefore, SplitStep(word, held, count, target).0, SplitWords(words[i + 1..], SplitStep(word, held, count, target).1, count, target));
        if buffer != [] {
          pieces := pieces + [Join(" ", buffer)];
          buffer := [word];
        } else {
          pieces := pieces + Slices(word, SliceLimit(target));
          buffer := [];
        }
      }
    }
    if buffer != [] {
      pieces := pieces + [Join(" ", buffer)];
    }
    if pieces == [] {
      pieces := [atom];
    }
  }

  /** What one word adds to the pieces, and the buffer it leaves. */
  function SplitStep(word: string, buffer: seq<string>, count: string -> nat, target: int): (seq<string>, seq<string>) {
    if count(Join(" ", buffer + [word])) < target then ([], buffer + [word])
    else if buffer != [] then ([Join(" ", buffer)], [word])
    else (Slices(word, SliceLimit(target)), [])
  }

  lemma SplitWordsStep(words: seq<string>, i: nat, buffer: seq<string>, count: string -> nat, target: int)
    requires i < |words|
    ensures var s := SplitStep(words[i], buffer, count, target);
            SplitWords(words[i..], buffer, count, target) == s.0 + SplitWords(words[i + 1..], s.1, count, target)
  {
    assert words[i..][1..] == words[i + 1..];
  }

  method AtomsOfPiece(fragment: string, count: string -> nat, target: int) returns (atoms: seq<string>)
    ensures atoms == PieceAtoms(fragment, count, target)
  {
    var piece := Strip(fragment);
    if count(piece) < target {
      atoms := [piece];
    } else {
      atoms := CutOversized(piece, count, target);
    }
  }

  method AtomsOfPieces(finer: seq<string>, count: string -> nat, target: int) returns (atoms: seq<string>)
    ensures atoms == PiecesAtoms(finer, count, target)
  {
    atoms := [];
    for j := 0 to |finer|
      invariant atoms + PiecesAtoms(finer[j..], count, target) == PiecesAtoms(finer, count, target)
    {
      assert finer[j..][1..] == finer[j + 1..];
      Sorting.Assoc(atoms, PieceAtoms(finer[j], count, target), PiecesAtoms(finer[j + 1..], count, target));
      var more := AtomsOfPiece(finer[j], count, target);
      atoms := atoms + more;
    }
  }

  method AtomsOfPart(part: string, contentType: string, count: string -> nat, target: int) returns (atoms: seq<string>)
    ensures atoms == PartAtoms(part, contentType, count, target)
  {
    var whole := Strip(part);
    if count(whole) < target {
      return [whole];
    }
    atoms := AtomsOfPieces(KeepSolid(Split(whole, FineBreak(contentType))), count, target);
  }

  method FindAtoms(text: string, contentType: string, count: string -> nat, target: int) returns (atoms: seq<string>)
    ensures atoms == Atoms(text, contentType, count, target)
  {
    var coarse := KeepSolid(Split(text, CoarseBreak(contentType)));
    atoms := [];
    for i := 0 to |coarse|
      invariant atoms + PartsAtoms(coarse[i..], contentType, count, target) == PartsAtoms(coarse, contentType, count, target)
    {
      assert coarse[i..][1..] == coarse[i + 1..];
      Sorting.Assoc(atoms, PartAtoms(coarse[i], contentType, count, target), PartsAtoms(coarse[i + 1..], contentType, count, target));
      var more := AtomsOfPart(coarse[i], contentType, count, target);
      atoms := atoms + more;
    }
  }

  method TailForOverlap(chunkAtoms: seq<string>, count: string -> nat, overlap: int) returns (tail: seq<string>)
    ensures tail == Tail(chunkAtoms, count, overlap)
  {
    if overlap <= 0 {
      return [];
    }
    tail := [];
    var total := 0;
    var n := |chunkAtoms|;
    while n > 0
      invariant 0 <= n <= |chunkAtoms|
      invariant tail == chunkAtoms[n..] && total == Sum(tail, count)
      invariant TailStart(chunkAtoms, n, count, overlap) == TailStart(chunkAtoms, |chunkAtoms|, count, overlap)
    {
      var atom := chunkAtoms[n - 1];
      var atomTokens := count(atom);
      if total + atomTokens > overlap && tail != [] {
        break;
      }
      SumFrom(chunkAtoms, n, count);
      tail := [atom] + tail;
      total := total + atomTokens;
      n := n - 1;
    }
    if |tail| == |chunkAtoms| {
      tail := [];
    }
  }

  /** What packing the next atom does. */
  lemma PackNext(atoms: seq<string>, i: nat, current: seq<string>, count: string -> nat, target: int, overlap: int)
    requires i < |atoms|
    ensures Pack(atoms[i..], current, count, target, overlap)
         == if current != [] && Sum(current, count) + count(atoms[i]) > target
            then [current] + Pack(atoms[i + 1..], Tail(current, count, overlap) + [atoms[i]], count, target, overlap)
            else Pack(atoms[i + 1..], current + [atoms[i]], count, target, overlap)
  {
    assert atoms[i..][1..] == atoms[i + 1..];
  }

  lemma JoinAllSnoc(sep: string, groups: seq<seq<string>>, g: seq<string>)
    ensures JoinAll(sep, groups + [g]) == JoinAll(sep, groups) + [Join(sep, g)]
  {
  }

  method PackAtoms(atoms: seq<string>, count: string -> nat, target: int, overlap: int) returns (chunks: seq<string>)
    ensures chunks == JoinAll("\n\n", Groups(atoms, count, target, overlap))
  {
    chunks := [];
    var current: seq<string> := [];
    var currentTokens := 0;
    ghost var done: seq<seq<string>> := [];
    for i := 0 to |atoms|
      invariant currentTokens == Sum(current, count)
      invariant chunks == JoinAll("\n\n", done)
      invariant done + Pack(atoms[i..], current, count, target, overlap) == Groups(atoms, count, target, overlap)
    {
      var atom := atoms[i];
      PackNext(atoms, i, current, count, target, overlap);
      var atomTokens := count(atom);
      if current != [] && currentTokens + atomTokens > target {
        JoinAllSnoc("\n\n", done, current);
        Sorting.Assoc(done, [current], Pack(atoms[i + 1..], Tail(current, count, overlap) + [atom], count, target, overlap));
        chunks := chunks + [Join("\n\n", current)];
        done := done + [current];
        current := TailForOverlap(current, count, overlap);
        currentTokens := Sum(current, count);
      }
      SumSnoc(current, atom, count);
      current := current + [atom];
      currentTokens := currentTokens + atomTokens;
    }
    if current != [] {
      JoinAllSnoc("\n\n", done, current);
      chunks := chunks + [Join("\n\n", current)];
      done := done + [current];
    }
    assert done == Groups(atoms, count, target, overlap);
  }

  /** Splits content into overlapping chunks. */
  method ChunkContent(text: string, contentType: string, count: string -> nat, target: int, overlap: int)
    returns (chunks: seq<string>)
    ensures chunks == JoinAll("\n\n", Chunks(text, contentType, count, target, overlap))
  {
    if Strip(text) == "" {
      NoAtomsIfBlank(text, contentType, count, target);
      return [];
    }
    var atoms := FindAtoms(text, contentType, count, target);
    if atoms == [] {
      return [];
    }
    chunks := PackAtoms(atoms, count, target, overlap);
  }

  lemma NoAtomsIfBlank(text: string, contentType: string, count: string -> nat, target: int)
    requires Strip(text) == ""
    ensures Atoms(text, contentType, count, target) == []
  {
    AtomsLossless(text, contentType, count, target);
    StripKeepsSolid(text);
    var coarse := Split(text, CoarseBreak(contentType));
    BreaksAreSpace();
    SplitKeepsSolid(text, CoarseBreak(contentType));
    KeepSolidExact(coarse);
    var kept := KeepSolid(coarse);
    if kept != [] {
      assert kept[0] in kept;
      StripKeepsSolid(kept[0]);
      SolidAppend(kept[0], Concat(kept[1..]));
    }
  }
}
