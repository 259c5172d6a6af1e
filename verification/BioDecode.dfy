/**
 BIO span reconstruction: the token loop with one open entity, proved equal to the
 declarative reading of the tags.
 */
module BioDecode {
  datatype Tag = Outside | Begin(entityType: string) | Inside(entityType: string) | Malformed

  datatype Token = Token(tag: Tag, score: real, start: nat, end: nat, subword: bool)

  datatype Entity = Entity(entityType: string, score: real, start: nat, end: nat)

  datatype Open = Closed | Opened(e: Entity)

  datatype Result<+T> = Ok(value: T) | NotBio

  // ---------------------------------------------------------------------- the labels

  /** Text before and after the first '-'; everything and nothing when there is none. */
  function Partition(s: string): (string, string) {
    if s == "" then ("", "")
    else if s[0] == '-' then ("", s[1..])
    else
      var (head, tail) := Partition(s[1..]);
      ([s[0]] + head, tail)
  }

  function ParseLabel(text: string, labelMap: map<string, string>): Tag {
    if text == "O" then Outside
    else
      var (bio, entityType) := Partition(text);
      var mapped := if entityType in labelMap then labelMap[entityType] else entityType;
      if entityType == "" then Malformed
      else if bio == "B" then Begin(mapped)
      else if bio == "I" then Inside(mapped)
      else Malformed
  }

  /** An entity type behind "B-" or "I-" and nothing else is a BIO label. */
  lemma LabelForms(text: string, labelMap: map<string, string>)
    ensures ParseLabel(text, labelMap).Outside? <==> text == "O"
    ensures ParseLabel(text, labelMap).Begin? <==> |text| > 2 && text[..2] == "B-"
    ensures ParseLabel(text, labelMap).Inside? <==> |text| > 2 && text[..2] == "I-"
    ensures |text| > 2 && (text[..2] == "B-" || text[..2] == "I-") ==>
              ParseLabel(text, labelMap).entityType == if text[2..] in labelMap then labelMap[text[2..]] else text[2..]
  {
    if |text| >= 2 && text[1] == '-' && text[0] != '-' {
      assert text[1..][0] == '-' && text[1..][1..] == text[2..];
      assert Partition(text[1..]) == ("", text[2..]);
      assert [text[0]] + "" == [text[0]];
      assert Partition(text) == ([text[0]], text[2..]);
      assert text[..2] == [text[0], '-'];
    } else {
      OneLetterHead(text);
      assert |text| >= 2 ==> text[..2] == [text[0], text[1]];
    }
  }

  lemma OneLetterHead(text: string)
    requires |text| < 2 || text[1] != '-' || text[0] == '-'
    ensures |Partition(text).0| == 1 ==> Partition(text).1 == ""
  {
    if |text| >= 2 && text[0] != '-' {
      assert text[1..][0] != '-';
      assert |Partition(text).0| == 1 + |Partition(text[1..]).0| >= 2;
    }
  }

  /** A token as the tagger reports it, its label still a text. */
  datatype Labelled = Labelled(text: string, score: real, start: nat, end: nat, subword: bool)

  function TokensOf(xs: seq<Labelled>, labelMap: map<string, string>): (r: seq<Token>)
    ensures |r| == |xs|
    ensures forall i :: 0 <= i < |r| ==>
              r[i] == Token(ParseLabel(xs[i].text, labelMap), xs[i].score, xs[i].start, xs[i].end, xs[i].subword)
  {
    seq(|xs|, i requires 0 <= i < |xs| =>
      Token(ParseLabel(xs[i].text, labelMap), xs[i].score, xs[i].start, xs[i].end, xs[i].subword))
  }

  // ------------------------------------------------------------------- the meaning

  /** Not one of the special tokens at the two ends. */
  predicate Interior(ts: seq<Token>, i: int) {
    0 < i < |ts| - 1
  }

  predicate Starts(ts: seq<Token>, i: int) {
    Interior(ts, i) && ts[i].tag.Begin? && !ts[i].subword
  }

  /** An I token of the same type, or any I subword, goes on with the open entity. */
  predicate Continues(ts: seq<Token>, entityType: string, i: int) {
    Interior(ts, i) && ts[i].tag.Inside? && (ts[i].tag.entityType == entityType || ts[i].subword)
  }

  /** First position from `i` on that does not continue the entity. */
  function RunEnd(ts: seq<Token>, entityType: string, i: nat): (e: nat)
    requires i <= |ts|
    ensures i <= e <= |ts|
    ensures forall j :: i <= j < e ==> Continues(ts, entityType, j)
    ensures !Continues(ts, entityType, e)
    decreases |ts| - i
  {
    if Continues(ts, entityType, i) then RunEnd(ts, entityType, i + 1) else i
  }

  function MinScore(ts: seq<Token>, i: nat, e: nat): (s: real)
    requires i < e <= |ts|
    ensures exists j :: i <= j < e && ts[j].score == s
    ensures forall j :: i <= j < e ==> s <= ts[j].score
    decreases e
  {
    if e == i + 1 then ts[i].score
    else
      var s := MinScore(ts, i, e - 1);
      if ts[e - 1].score < s then ts[e - 1].score else s
  }

  /** The entity of tokens i..e-1. */
  function Over(ts: seq<Token>, i: nat, e: nat): Entity
    requires i < e <= |ts| && ts[i].tag.Begin?
  {
    Entity(ts[i].tag.entityType, MinScore(ts, i, e), ts[i].start, ts[e - 1].end)
  }

  function EndOf(ts: seq<Token>, i: nat): (e: nat)
    requires Starts(ts, i)
    ensures i < e <= |ts|
  {
    RunEnd(ts, ts[i].tag.entityType, i + 1)
  }

  /** One entity for each starting token before `n`, over its maximal run. */
  function Spelled(ts: seq<Token>, n: nat): seq<Entity>
    requires n <= |ts|
  {
    if n == 0 then []
    else Spelled(ts, n - 1) + if Starts(ts, n - 1) then [Over(ts, n - 1, EndOf(ts, n - 1))] else []
  }

  lemma {:induction false} SpelledGap(ts: seq<Token>, i: nat, n: nat)
    requires i <= n <= |ts|
    requires forall j :: i <= j < n ==> !Starts(ts, j)
    ensures Spelled(ts, n) == Spelled(ts, i)
    decreases n
  {
    if i < n { SpelledGap(ts, i, n - 1); }
  }

  lemma RunEndIs(ts: seq<Token>, entityType: string, i: nat, e: nat)
    requires i <= e <= |ts|
    requires forall j :: i <= j < e ==> Continues(ts, entityType, j)
    requires !Continues(ts, entityType, e)
    ensures RunEnd(ts, entityType, i) == e
  {
    var r := RunEnd(ts, entityType, i);
    assert r < e ==> Continues(ts, entityType, r);
  }

  /** Closing the entity opened at `s` when token `i` does not continue it. */
  lemma CloseAt(ts: seq<Token>, s: nat, i: nat)
    requires s < i <= |ts| && Starts(ts, s)
    requires forall j :: s < j < i ==> Continues(ts, ts[s].tag.entityType, j)
    requires !Continues(ts, ts[s].tag.entityType, i)
    ensures Spelled(ts, i) == Spelled(ts, s) + [Over(ts, s, i)]
  {
    RunEndIs(ts, ts[s].tag.entityType, s + 1, i);
    forall j | s < j < i ensures !Starts(ts, j) { assert Continues(ts, ts[s].tag.entityType, j); }
    SpelledGap(ts, s + 1, i);
  }

  ghost predicate WellTagged(ts: seq<Token>) {
    forall i :: Interior(ts, i) ==> !ts[i].tag.Malformed?
  }

  /** What the loop knows before token `i`: closed entities are spelled out, the open one reaches exactly to `i`. */
  ghost predicate LoopInv(ts: seq<Token>, i: nat, entities: seq<Entity>, current: Open, s: nat)
    requires i <= |ts|
  {
    match current
    case Closed => entities == Spelled(ts, i)
    case Opened(e) =>
      && s < i && Starts(ts, s)
      && (forall j :: s < j < i ==> Continues(ts, ts[s].tag.entityType, j))
      && e == Over(ts, s, i)
      && entities == Spelled(ts, s)
  }

  /** Raw entities, before filtering; an interior label that is not BIO is an error. */
  method Reconstruct(ts: seq<Token>) returns (r: Result<seq<Entity>>)
    ensures r.Ok? <==> WellTagged(ts)
    ensures r.Ok? ==> r.value == Spelled(ts, |ts|)
  {
    var entities: seq<Entity> := [];
    var current := Closed;
    ghost var s := 0;
    for i := 0 to |ts|
      invariant forall j :: 0 <= j < i && Interior(ts, j) ==> !ts[j].tag.Malformed?
      invariant LoopInv(ts, i, entities, current, s)
    {
      var t := ts[i];
      if current.Opened? && !Continues(ts, current.e.entityType, i) { CloseAt(ts, s, i); }
      if i == 0 || i == |ts| - 1 || t.tag.Outside? {
        if current.Opened? {
          entities := entities + [current.e];
          current := Closed;
        }
        continue;
      }
      if t.tag.Malformed? {
        return NotBio;
      }
      if t.tag.Begin? && !t.subword {
        if current.Opened? {
          entities := entities + [current.e];
        }
        current := Opened(Entity(t.tag.entityType, t.score, t.start, t.end));
        s := i;
      } else if t.tag.Inside? && current.Opened? && (current.e.entityType == t.tag.entityType || t.subword) {
        var e := current.e;
        current := Opened(e.(end := t.end, score := if t.score < e.score then t.score else e.score));
      } else if current.Opened? {
        entities := entities + [current.e];
        current := Closed;
      }
    }
    if current.Opened? {
      CloseAt(ts, s, |ts|);
      entities := entities + [current.e];
    }
    return Ok(entities);
  }

  /** From label texts: fails iff some interior label is neither "O" nor a type behind "B-" or "I-". */
  method PredictRaw(xs: seq<Labelled>, labelMap: map<string, string>) returns (r: Result<seq<Entity>>)
    ensures r.Ok? <==> forall i :: 0 < i < |xs| - 1 ==>
              xs[i].text == "O" || (|xs[i].text| > 2 && (xs[i].text[..2] == "B-" || xs[i].text[..2] == "I-"))
    ensures r.Ok? ==> r.value == Spelled(TokensOf(xs, labelMap), |xs|)
  {
    r := Reconstruct(TokensOf(xs, labelMap));
    forall i | 0 < i < |xs| - 1
      ensures TokensOf(xs, labelMap)[i].tag.Malformed? <==>
              !(xs[i].text == "O" || (|xs[i].text| > 2 && (xs[i].text[..2] == "B-" || xs[i].text[..2] == "I-")))
    {
      LabelForms(xs[i].text, labelMap);
    }
  }

  // ----------------------------------------------------------- consequences for text

  /** Token offsets move forward and do not overlap. */
  ghost predicate MonotoneOffsets(ts: seq<Token>) {
    && (forall i :: Interior(ts, i) ==> ts[i].start <= ts[i].end)
    && (forall i, j :: Interior(ts, i) && Interior(ts, j) && i < j ==> ts[i].end <= ts[j].start)
  }

  /** Number of entity-opening tokens before `n`. */
  function StartCount(ts: seq<Token>, n: nat): (c: nat)
    ensures c <= n
  {
    if n == 0 then 0
    else StartCount(ts, n - 1) + if 0 < n - 1 < |ts| - 1 && ts[n - 1].tag.Begin? && !ts[n - 1].subword then 1 else 0
  }

  lemma {:induction false} EntityPerStart(ts: seq<Token>, n: nat)
    requires n <= |ts|
    ensures |Spelled(ts, n)| == StartCount(ts, n)
  {
    if n > 0 { EntityPerStart(ts, n - 1); }
  }

  /** The entity of the token at `i` is the one that comes after as many others as open before it. */
  lemma {:induction false} EntityAt(ts: seq<Token>, i: nat, n: nat)
    requires i < n <= |ts| && Starts(ts, i)
    ensures var k := StartCount(ts, i); k < |Spelled(ts, n)| && Spelled(ts, n)[k] == Over(ts, i, EndOf(ts, i))
    decreases n
  {
    EntityPerStart(ts, i);
    if i < n - 1 { EntityAt(ts, i, n - 1); }
  }

  /**
   What an entity says, in terms of the tokens: a token that opens one at `i` gives it its type
   and start, the last token of the longest run of I tokens that go on with it its end, and
   its score is the least of the run.
   */
  lemma EntityExact(ts: seq<Token>, i: nat) returns (e: nat)
    requires 0 < i < |ts| - 1 && ts[i].tag.Begin? && !ts[i].subword
    ensures i < e < |ts|
    ensures forall j :: i < j < e ==> ts[j].tag.Inside? && (ts[j].tag.entityType == ts[i].tag.entityType || ts[j].subword)
    ensures e == |ts| - 1 || !(ts[e].tag.Inside? && (ts[e].tag.entityType == ts[i].tag.entityType || ts[e].subword))
    ensures StartCount(ts, i) < |Spelled(ts, |ts|)|
    ensures var x := Spelled(ts, |ts|)[StartCount(ts, i)];
            && x.entityType == ts[i].tag.entityType && x.start == ts[i].start && x.end == ts[e - 1].end
            && (forall j :: i <= j < e ==> x.score <= ts[j].score)
            && (exists j :: i <= j < e && x.score == ts[j].score)
  {
    EntityAt(ts, i, |ts|);
    e := EndOf(ts, i);
    RunInterior(ts, i);
    assert !Continues(ts, ts[i].tag.entityType, e);
    forall j | i < j < e ensures ts[j].tag.Inside? && (ts[j].tag.entityType == ts[i].tag.entityType || ts[j].subword) {
      assert Continues(ts, ts[i].tag.entityType, j);
    }
    var m := MinScore(ts, i, e);
    var j :| i <= j < e && ts[j].score == m;
    assert Spelled(ts, |ts|)[StartCount(ts, i)].score == ts[j].score;
  }

  /** A maximal run never reaches into the next entity. */
  lemma RunStopsBefore(ts: seq<Token>, s: nat, t: nat)
    requires Starts(ts, s) && Starts(ts, t) && s < t
    ensures EndOf(ts, s) <= t
  {
    assert !Continues(ts, ts[s].tag.entityType, t);
  }

  lemma RunInterior(ts: seq<Token>, s: nat)
    requires Starts(ts, s)
    ensures Interior(ts, EndOf(ts, s) - 1)
  {
    var e := EndOf(ts, s);
    assert e - 1 > s ==> Continues(ts, ts[s].tag.entityType, e - 1);
  }

  lemma {:induction false} SpelledEndBefore(ts: seq<Token>, n: nat, t: nat)
    requires MonotoneOffsets(ts) && n <= t && Starts(ts, t)
    ensures forall a :: 0 <= a < |Spelled(ts, n)| ==> Spelled(ts, n)[a].end <= ts[t].start
    decreases n
  {
    if n > 0 {
      SpelledEndBefore(ts, n - 1, t);
      if Starts(ts, n - 1) {
        RunStopsBefore(ts, n - 1, t);
        RunInterior(ts, n - 1);
      }
    }
  }

  /** With monotone offsets the raw entities are ordered and share no character. */
  lemma {:induction false} EntitiesDisjoint(ts: seq<Token>, n: nat)
    requires MonotoneOffsets(ts) && n <= |ts|
    ensures forall a, b :: 0 <= a < b < |Spelled(ts, n)| ==> Spelled(ts, n)[a].end <= Spelled(ts, n)[b].start
    ensures forall a :: 0 <= a < |Spelled(ts, n)| ==> Spelled(ts, n)[a].start <= Spelled(ts, n)[a].end
    decreases n
  {
    if n > 0 {
      EntitiesDisjoint(ts, n - 1);
      if Starts(ts, n - 1) {
        SpelledEndBefore(ts, n - 1, n - 1);
        RunInterior(ts, n - 1);
        var e := EndOf(ts, n - 1);
        assert e - 1 > n - 1 ==> ts[n - 1].end <= ts[e - 1].start;
      }
    }
  }
}
