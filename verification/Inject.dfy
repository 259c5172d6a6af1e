/**
 Injecting the protocol block into an agent's config file and taking it out again, as
 transformations of the text and as methods on a file.
 */
module Inject {
  import Sorting
  import opened Text

  datatype Option<+T> = None | Some(value: T)

  const MARKER := "# [mnemostroma-protocol]"

  const TITLE := "## Memory Protocol (Mnemostroma)\n\n"
  const TOOLS := "Tools available via MCP. "
  const USAGE := "Agent decides usage. "
  const CONTINUITY := "Continuity via injected "
  const CONTEXT := "<memorycontext>.\n"
  const SEMANTIC := "Agent may call ctx.semantic "
  const NEEDED := "if needed \U{2014} or reason "
  const ALONE := "from context alone.\n"

  const BODY := TITLE + TOOLS + USAGE + CONTINUITY + CONTEXT + SEMANTIC + NEEDED + ALONE

  /** A block between a marker line and its end line. */
  function Block(mark: string, body: string): string {
    mark + "\n" + body + End(mark) + "\n"
  }

  function End(mark: string): string {
    mark + "-end"
  }

  predicate OccursAt(s: string, part: string, i: int) {
    0 <= i <= |s| - |part| && s[i..i + |part|] == part
  }

  predicate Contains(s: string, part: string) {
    exists i :: 0 <= i <= |s| - |part| && OccursAt(s, part, i)
  }

  // --------------------------------------------------------------------------- lines

  /** The characters `str.splitlines` breaks at. */
  predicate IsBreak(c: char) {
    || '\n' <= c <= '\r' || '\U{1c}' <= c <= '\U{1e}' || c == '\U{85}' || c == '\U{2028}' || c == '\U{2029}'
  }

  /** Length of the first line, its line break included. */
  function FirstLine(s: string): (n: nat)
    requires s != ""
    ensures 1 <= n <= |s|
  {
    if IsBreak(s[0]) then (if s[0] == '\r' && |s| > 1 && s[1] == '\n' then 2 else 1)
    else if |s| == 1 then 1
    else 1 + FirstLine(s[1..])
  }

  function Lines(s: string): seq<string> {
    if s == "" then [] else [s[..FirstLine(s)]] + Lines(s[FirstLine(s)..])
  }

  lemma {:induction false} LinesConcat(s: string)
    ensures Concat(Lines(s)) == s
  {
    if s != "" {
      LinesConcat(s[FirstLine(s)..]);
      ConcatCons(s[..FirstLine(s)], Lines(s[FirstLine(s)..]));
    }
  }

  lemma {:induction false} FirstLineAppend(a: string, b: string)
    requires a != "" && a[|a| - 1] == '\n'
    ensures FirstLine(a + b) == FirstLine(a)
  {
    if |a| > 1 && !IsBreak(a[0]) {
      FirstLineAppend(a[1..], b);
      assert (a + b)[1..] == a[1..] + b;
    }
  }

  /** Text that ends in a newline can be split apart from what follows it. */
  lemma {:induction false} LinesAppend(a: string, b: string)
    requires a == "" || a[|a| - 1] == '\n'
    ensures Lines(a + b) == Lines(a) + Lines(b)
    decreases |a|
  {
    if a == "" {
      assert a + b == b;
    } else {
      var n := FirstLine(a);
      FirstLineAppend(a, b);
      assert (a + b)[..n] == a[..n] && (a + b)[n..] == a[n..] + b;
      LinesAppend(a[n..], b);
      Sorting.Assoc([a[..n]], Lines(a[n..]), Lines(b));
    }
  }

  ghost predicate OneLiner(s: string) {
    forall i :: 0 <= i < |s| ==> !IsBreak(s[i])
  }

  /** What may end a line: nothing, one break, or a carriage return with its newline. */
  predicate LineEnd(brk: string) {
    brk == "" || (|brk| == 1 && IsBreak(brk[0])) || brk == "\r\n"
  }

  /** The first line goes up to the first break, takes it along and never parts "\r\n"; without a break it is the text. */
  lemma {:induction false} FirstLineExact(s: string) returns (k: nat)
    requires s != ""
    ensures var n := FirstLine(s);
            && k <= n <= |s| && OneLiner(s[..k]) && LineEnd(s[k..n])
            && (k == n ==> n == |s|)
            && !(s[n - 1] == '\r' && n < |s| && s[n] == '\n')
  {
    var n := FirstLine(s);
    k := 0;
    if IsBreak(s[0]) {
      assert s[0..n] == if n == 2 then [s[0], s[1]] else [s[0]];
    } else if |s| == 1 {
      k := 1;
    } else {
      k := FirstLineExact(s[1..]);
      assert s[1..][k..n - 1] == s[k + 1..n];
      assert s[..k + 1] == [s[0]] + s[1..][..k];
      k := k + 1;
    }
  }

  lemma {:induction false} FirstLineWhole(s: string)
    requires OneLiner(s)
    ensures FirstLine(s + "\n") == |s| + 1
  {
    if s != "" {
      FirstLineWhole(s[1..]);
      assert (s + "\n")[1..] == s[1..] + "\n";
    }
  }

  lemma OneLine(s: string)
    requires OneLiner(s)
    ensures Lines(s + "\n") == [s + "\n"]
  {
    FirstLineWhole(s);
    assert (s + "\n")[..|s| + 1] == s + "\n" && (s + "\n")[|s| + 1..] == "";
  }

  // ------------------------------------------------------------- text transformations

  function StripNewlines(s: string): (r: string)
    ensures r <= s && (r == "" || r[|r| - 1] != '\n')
    ensures forall i :: |r| <= i < |s| ==> s[i] == '\n'
  {
    RStrip(s, c => c == '\n')
  }

  function Injected(content: string, mark: string, block: string): string {
    if Contains(content, mark) then content else StripNewlines(content) + "\n\n" + block
  }

  datatype Kind = Opens | Closes | Plain

  function KindOf(mark: string): string -> Kind {
    line => if Strip(line) == mark then Opens else if Strip(line) == End(mark) then Closes else Plain
  }

  /** Lines outside the block; a marker line opens it, an end line closes it, both go. */
  function Kept(lines: seq<string>, kind: string -> Kind, inside: bool): seq<string> {
    if lines == [] then []
    else match kind(lines[0])
      case Opens => Kept(lines[1..], kind, true)
      case Closes => Kept(lines[1..], kind, false)
      case Plain => (if inside then [] else [lines[0]]) + Kept(lines[1..], kind, inside)
  }

  function Undone(content: string, mark: string): string {
    if Contains(content, mark) then StripNewlines(Concat(Kept(Lines(content), KindOf(mark), false))) + "\n" else content
  }

  // ----------------------------------------------------------------------- the file

  datatype InjectStatus = OK | ALREADY_INJECTED | CREATED

  datatype UndoStatus = REMOVED | NO_BLOCK

  class AgentFile {
    var content: Option<string>
    var backup: Option<string>

    constructor (content: Option<string>)
      ensures this.content == content && backup == None
    {
      this.content, backup := content, None;
    }

    method Inject() returns (status: InjectStatus)
      modifies this
      ensures old(content).None? ==> content == Some(Block(MARKER, BODY)) && status == CREATED && backup == old(backup)
      ensures old(content).Some? ==> content == Some(Injected(old(content).value, MARKER, Block(MARKER, BODY)))
      ensures old(content).Some? ==> status == if Contains(old(content).value, MARKER) then ALREADY_INJECTED else OK
      ensures backup == if status == OK then old(content) else old(backup)
    {
      if content.None? {
        content := Some(Block(MARKER, BODY));
        return CREATED;
      }
      var text := content.value;
      if Contains(text, MARKER) {
        return ALREADY_INJECTED;
      }
      backup := Some(text);
      content := Some(StripNewlines(text) + "\n\n" + Block(MARKER, BODY));
      return OK;
    }

    method Undo() returns (status: UndoStatus)
      modifies this`content
      ensures old(content).None? ==> content == old(content) && status == NO_BLOCK
      ensures old(content).Some? ==> content == Some(Undone(old(content).value, MARKER))
      ensures old(content).Some? ==> status == if Contains(old(content).value, MARKER) then REMOVED else NO_BLOCK
    {
      if content.None? || !Contains(content.value, MARKER) {
        return NO_BLOCK;
      }
      var result := OutsideBlock(Lines(content.value), KindOf(MARKER));
      content := Some(StripNewlines(Concat(result)) + "\n");
      return REMOVED;
    }
  }

  /** Whether the next line is inside a block. */
  function Inside(k: Kind, inside: bool): bool {
    match k
    case Opens => true
    case Closes => false
    case Plain => inside
  }

  /** What a line leaves of itself. */
  function KeptOf(line: string, k: Kind, inside: bool): seq<string> {
    if k.Plain? && !inside then [line] else []
  }

  lemma KeptNext(result: seq<string>, lines: seq<string>, i: nat, kind: string -> Kind, inside: bool)
    requires i < |lines|
    ensures var k := kind(lines[i]);
            result + Kept(lines[i..], kind, inside)
            == (result + KeptOf(lines[i], k, inside)) + Kept(lines[i + 1..], kind, Inside(k, inside))
  {
    var k := kind(lines[i]);
    assert lines[i..][1..] == lines[i + 1..];
    Sorting.Assoc(result, KeptOf(lines[i], k, inside), Kept(lines[i + 1..], kind, Inside(k, inside)));
  }

  method OutsideBlock(lines: seq<string>, kind: string -> Kind) returns (result: seq<string>)
    ensures result == Kept(lines, kind, false)
  {
    result := [];
    var inside := false;
    for i := 0 to |lines|
      invariant result + Kept(lines[i..], kind, inside) == Kept(lines, kind, false)
    {
      KeptNext(result, lines, i, kind, inside);
      var k := kind(lines[i]);
      assert result + [] == result;
      if k == Opens {
        inside := true;
        continue;
      }
      if k == Closes {
        inside := false;
        continue;
      }
      if !inside {
        result := result + [lines[i]];
      }
    }
    assert lines[|lines|..] == [];
  }

  // ---------------------------------------------------------------------- round trip

  lemma ContainsWider(a: string, s: string, b: string, part: string)
    requires Contains(s, part)
    ensures Contains(a + s + b, part)
  {
    var i :| 0 <= i <= |s| - |part| && OccursAt(s, part, i);
    assert (a + s + b)[|a| + i..|a| + i + |part|] == part;
    assert OccursAt(a + s + b, part, |a| + i);
  }

  /** A line found in a text is a stretch of that text. */
  lemma {:induction false} LineWithin(s: string, i: nat, part: string)
    requires i < |Lines(s)| && Contains(Lines(s)[i], part)
    ensures Contains(s, part)
  {
    var n := FirstLine(s);
    assert s == "" + s[..n] + s[n..] && s == s[..n] + s[n..] + "";
    if i == 0 {
      ContainsWider("", s[..n], s[n..], part);
    } else {
      LineWithin(s[n..], i - 1, part);
      ContainsWider(s[..n], s[n..], "", part);
    }
  }

  ghost predicate AllPlain(lines: seq<string>, kind: string -> Kind) {
    forall i :: 0 <= i < |lines| ==> kind(lines[i]) == Plain
  }

  lemma StrippedWithin(line: string, part: string)
    requires part <= Strip(line)
    ensures Contains(line, part)
  {
    var r, i := Strip(line), |line| - |LStrip(line, IsSpace)|;
    assert r == line[i..][..|r|];
    forall k | 0 <= k < |part| ensures line[i + k] == part[k] {
      assert part[k] == r[k] == line[i..][k];
    }
    assert line[i..i + |part|] == part;
    assert OccursAt(line, part, i);
  }

  lemma PlainIfAbsent(line: string, mark: string)
    requires !Contains(line, mark)
    ensures KindOf(mark)(line) == Plain
  {
    if mark <= Strip(line) { StrippedWithin(line, mark); }
  }

  /** Lines of a text without the marker are neither marker lines nor end lines. */
  lemma LinesPlain(s: string, mark: string)
    requires !Contains(s, mark)
    ensures AllPlain(Lines(s), KindOf(mark))
  {
    forall i | 0 <= i < |Lines(s)| ensures KindOf(mark)(Lines(s)[i]) == Plain {
      if Contains(Lines(s)[i], mark) { LineWithin(s, i, mark); }
      PlainIfAbsent(Lines(s)[i], mark);
    }
  }

  lemma {:induction false} KeptPlain(lines: seq<string>, rest: seq<string>, kind: string -> Kind, inside: bool)
    requires AllPlain(lines, kind)
    ensures Kept(lines + rest, kind, inside) == (if inside then [] else lines) + Kept(rest, kind, inside)
  {
    if lines == [] {
      assert lines + rest == rest;
    } else {
      var l, ls := lines[0], lines[1..];
      KeptPlain(ls, rest, kind, inside);
      assert (lines + rest)[1..] == ls + rest;
      assert lines == [l] + ls;
      if !inside { Sorting.Assoc([l], ls, Kept(rest, kind, inside)); }
    }
  }

  /** A marker that fills one line and has no whitespace at its ends. */
  ghost predicate GoodMarker(mark: string) {
    mark != "" && OneLiner(mark) && !IsSpace(mark[0]) && !IsSpace(mark[|mark| - 1])
  }

  /** Newline-terminated text that does not mention the marker. */
  ghost predicate GoodBody(body: string, mark: string) {
    body != "" && body[|body| - 1] == '\n' && !Contains(body, mark)
  }

  lemma StripLine(s: string)
    requires s != "" && !IsSpace(s[0]) && !IsSpace(s[|s| - 1])
    ensures Strip(s + "\n") == s
  {
    var t := s + "\n";
    assert LStrip(t, IsSpace) == t;
    assert t[..|t| - 1] == s;
  }

  lemma EndIsGood(mark: string)
    requires GoodMarker(mark)
    ensures GoodMarker(End(mark)) && End(mark) != mark
  {
    var e := End(mark);
    assert |e| == |mark| + 4 && e[|e| - 1] == 'd';
    forall i | 0 <= i < |e| ensures !IsBreak(e[i]) {
      assert i < |mark| ==> e[i] == mark[i];
    }
  }

  lemma BlockLines(mark: string, body: string)
    requires GoodMarker(mark) && GoodBody(body, mark)
    ensures Lines(Block(mark, body)) == [mark + "\n"] + (Lines(body) + [End(mark) + "\n"])
    ensures KindOf(mark)(mark + "\n") == Opens && KindOf(mark)(End(mark) + "\n") == Closes
  {
    var first, last := mark + "\n", End(mark) + "\n";
    EndIsGood(mark);
    OneLine(mark);
    OneLine(End(mark));
    assert Block(mark, body) == first + (body + last);
    LinesAppend(first, body + last);
    LinesAppend(body, last);
    StripLine(mark);
    StripLine(End(mark));
  }

  lemma KeptCons(line: string, rest: seq<string>, kind: string -> Kind, inside: bool)
    ensures Kept([line] + rest, kind, inside) == KeptOf(line, kind(line), inside) + Kept(rest, kind, Inside(kind(line), inside))
  {
    assert ([line] + rest)[1..] == rest;
  }

  /** A well-formed block is dropped whole, and the lines behind it are treated as if it had not been there. */
  lemma BlockSkipped(mark: string, body: string, rest: seq<string>)
    requires GoodMarker(mark) && GoodBody(body, mark)
    ensures Kept(Lines(Block(mark, body)) + rest, KindOf(mark), false) == Kept(rest, KindOf(mark), false)
  {
    var kind, last := KindOf(mark), End(mark) + "\n";
    BlockLines(mark, body);
    LinesPlain(body, mark);
    Sorting.Assoc([mark + "\n"], Lines(body) + [last], rest);
    Sorting.Assoc(Lines(body), [last], rest);
    KeptCons(mark + "\n", Lines(body) + ([last] + rest), kind, false);
    KeptPlain(Lines(body), [last] + rest, kind, true);
    KeptCons(last, rest, kind, true);
  }

  /** A well-formed block, whatever its body, is dropped whole. */
  lemma BlockDropped(mark: string, body: string)
    requires GoodMarker(mark) && GoodBody(body, mark)
    ensures Kept(Lines(Block(mark, body)), KindOf(mark), false) == []
  {
    BlockSkipped(mark, body, []);
    assert Lines(Block(mark, body)) + [] == Lines(Block(mark, body));
  }

  lemma PartOfPrefix(s: string, n: nat, i: nat, j: nat)
    requires i <= j <= n <= |s|
    ensures s[..n][i..j] == s[i..j]
  {
  }

  lemma MarkerSurvivesStrip(content: string, mark: string)
    requires GoodMarker(mark)
    ensures Contains(StripNewlines(content) + "\n\n", mark) ==> Contains(content, mark)
  {
    var r := StripNewlines(content);
    var t := r + "\n\n";
    if Contains(t, mark) {
      var i :| 0 <= i <= |t| - |mark| && OccursAt(t, mark, i);
      assert t[i..i + |mark|][|mark| - 1] == t[i + |mark| - 1];
      assert i + |mark| <= |r|;
      assert r == content[..|r|] && r == t[..|r|];
      PartOfPrefix(content, |r|, i, i + |mark|);
      PartOfPrefix(t, |r|, i, i + |mark|);
      assert OccursAt(content, mark, i);
    }
  }

  lemma StripTwice(s: string)
    ensures StripNewlines(StripNewlines(s) + "\n\n") == StripNewlines(s)
    ensures StripNewlines(StripNewlines(s) + "\n") == StripNewlines(s)
  {
    var r := StripNewlines(s);
    StripEnd(r, r + "\n");
    StripEnd(r, r + "\n\n");
  }

  lemma StripEnd(r: string, t: string)
    requires r <= t && (r == "" || r[|r| - 1] != '\n') && forall i :: |r| <= i < |t| ==> t[i] == '\n'
    ensures StripNewlines(t) == r
  {
    var x := StripNewlines(t);
    assert forall i :: 0 <= i < |x| ==> x[i] == t[i];
    assert forall i :: 0 <= i < |r| ==> r[i] == t[i];
    assert x == t[..|x|] && r == t[..|r|];
  }

  lemma BlockHasMarker(pre: string, mark: string, body: string)
    ensures Contains(pre + Block(mark, body), mark)
  {
    var t := pre + Block(mark, body);
    assert t[|pre|..|pre| + |mark|] == mark;
    assert OccursAt(t, mark, |pre|);
  }

  /** Taking out what was put in gives the text back, up to the newlines at its end. */
  lemma UndoAfterInject(content: string, mark: string, body: string)
    requires GoodMarker(mark) && GoodBody(body, mark) && !Contains(content, mark)
    ensures Undone(Injected(content, mark, Block(mark, body)), mark) == StripNewlines(content) + "\n"
  {
    var pre := StripNewlines(content) + "\n\n";
    BlockHasMarker(pre, mark, body);
    MarkerSurvivesStrip(content, mark);
    LinesAppend(pre, Block(mark, body));
    LinesPlain(pre, mark);
    KeptPlain(Lines(pre), Lines(Block(mark, body)), KindOf(mark), false);
    BlockDropped(mark, body);
    assert Lines(pre) + [] == Lines(pre);
    LinesConcat(pre);
    StripTwice(content);
  }

  /** The original comes back character for character exactly when it ended in one newline. */
  lemma UndoRestoresExactly(content: string, mark: string, body: string)
    requires GoodMarker(mark) && GoodBody(body, mark) && !Contains(content, mark)
    ensures Undone(Injected(content, mark, Block(mark, body)), mark) == content
       <==> |content| >= 1 && content[|content| - 1] == '\n' && (|content| >= 2 ==> content[|content| - 2] != '\n')
  {
    UndoAfterInject(content, mark, body);
    OneNewlineComesBack(content);
  }

  lemma OneNewlineComesBack(content: string)
    ensures StripNewlines(content) + "\n" == content
       <==> |content| >= 1 && content[|content| - 1] == '\n' && (|content| >= 2 ==> content[|content| - 2] != '\n')
  {
    var r, n := StripNewlines(content), |content|;
    if n >= 1 && content[n - 1] == '\n' && (n >= 2 ==> content[n - 2] != '\n') {
      StripEnd(content[..n - 1], content);
      assert content == content[..n - 1] + "\n";
    }
    if r + "\n" == content {
      assert r == content[..n - 1];
    }
  }

  lemma InjectIdempotent(content: string, mark: string, body: string)
    ensures var once := Injected(content, mark, Block(mark, body));
            Injected(once, mark, Block(mark, body)) == once
  {
    BlockHasMarker(StripNewlines(content) + "\n\n", mark, body);
  }

  /** The file the injection created is left with a single newline. */
  lemma UndoOfCreated(mark: string, body: string)
    requires GoodMarker(mark) && GoodBody(body, mark)
    ensures Undone(Block(mark, body), mark) == "\n"
  {
    BlockHasMarker("", mark, body);
    assert "" + Block(mark, body) == Block(mark, body);
    BlockDropped(mark, body);
  }

  // ------------------------------------------------- blocks with text around them

  /** Text in which each piece is followed by a block of its own, and `tail` by none. */
  function Document(pieces: seq<(string, string)>, mark: string, tail: string): string {
    if pieces == [] then tail
    else pieces[0].0 + (Block(mark, pieces[0].1) + Document(pieces[1..], mark, tail))
  }

  /** The same text without its blocks. */
  function Texts(pieces: seq<(string, string)>, tail: string): string {
    if pieces == [] then tail else pieces[0].0 + Texts(pieces[1..], tail)
  }

  /** No line of the text is, surrounding whitespace aside, the marker or its end; it may mention either. */
  predicate NoMarkerLine(text: string, mark: string) {
    forall i :: 0 <= i < |Lines(text)| ==> Strip(Lines(text)[i]) != mark && Strip(Lines(text)[i]) != End(mark)
  }

  lemma AbsentNoMarkerLine(text: string, mark: string)
    requires !Contains(text, mark)
    ensures NoMarkerLine(text, mark)
  {
    LinesPlain(text, mark);
    forall i | 0 <= i < |Lines(text)| ensures Strip(Lines(text)[i]) != mark && Strip(Lines(text)[i]) != End(mark) {
      assert KindOf(mark)(Lines(text)[i]) == Plain;
    }
  }

  /** Text of whole lines, none of them a marker line. */
  ghost predicate GoodText(text: string, mark: string) {
    (text == "" || text[|text| - 1] == '\n') && NoMarkerLine(text, mark)
  }

  ghost predicate GoodPieces(pieces: seq<(string, string)>, mark: string) {
    forall i :: 0 <= i < |pieces| ==> GoodText(pieces[i].0, mark) && GoodBody(pieces[i].1, mark)
  }

  /** What stands before the first block stays, the block goes. */
  lemma FirstPiece(text: string, mark: string, body: string, rest: string)
    requires GoodMarker(mark) && GoodText(text, mark) && GoodBody(body, mark)
    ensures Kept(Lines(text + (Block(mark, body) + rest)), KindOf(mark), false)
         == Lines(text) + Kept(Lines(rest), KindOf(mark), false)
  {
    LinesAppend(text, Block(mark, body) + rest);
    LinesAppend(Block(mark, body), rest);
    KeptPlain(Lines(text), Lines(Block(mark, body)) + Lines(rest), KindOf(mark), false);
    BlockSkipped(mark, body, Lines(rest));
  }

  lemma {:induction false} KeptOfDocument(pieces: seq<(string, string)>, mark: string, tail: string)
    requires GoodMarker(mark) && GoodPieces(pieces, mark) && NoMarkerLine(tail, mark)
    ensures Concat(Kept(Lines(Document(pieces, mark, tail)), KindOf(mark), false)) == Texts(pieces, tail)
  {
    if pieces == [] {
      KeptPlain(Lines(tail), [], KindOf(mark), false);
      assert Lines(tail) + [] == Lines(tail);
      LinesConcat(tail);
    } else {
      var (text, body) := pieces[0];
      var rest := Document(pieces[1..], mark, tail);
      FirstPiece(text, mark, body, rest);
      KeptOfDocument(pieces[1..], mark, tail);
      ConcatAppend(Lines(text), Kept(Lines(rest), KindOf(mark), false));
      LinesConcat(text);
    }
  }

  /** Undoing takes out every block, and what stands before, between and behind the blocks stays. */
  lemma UndoKeepsTheRest(pieces: seq<(string, string)>, mark: string, tail: string)
    requires GoodMarker(mark) && GoodPieces(pieces, mark) && NoMarkerLine(tail, mark) && pieces != []
    ensures Undone(Document(pieces, mark, tail), mark) == StripNewlines(Texts(pieces, tail)) + "\n"
  {
    KeptOfDocument(pieces, mark, tail);
    BlockHasMarker("", mark, pieces[0].1);
    assert "" + Block(mark, pieces[0].1) == Block(mark, pieces[0].1);
    Sorting.Assoc(pieces[0].0, Block(mark, pieces[0].1), Document(pieces[1..], mark, tail));
    ContainsWider(pieces[0].0, Block(mark, pieces[0].1), Document(pieces[1..], mark, tail), mark);
  }

  /** A file written on after the injection keeps what was added: only the block goes. */
  lemma UndoInTheMiddle(pre: string, mark: string, body: string, post: string)
    requires GoodMarker(mark) && GoodText(pre, mark) && GoodBody(body, mark) && NoMarkerLine(post, mark)
    ensures Undone(pre + Block(mark, body) + post, mark) == StripNewlines(pre + post) + "\n"
  {
    UndoKeepsTheRest([(pre, body)], mark, post);
    assert Document([(pre, body)], mark, post) == pre + (Block(mark, body) + post);
    assert Texts([(pre, body)], post) == pre + post;
    Sorting.Assoc(pre, Block(mark, body), post);
  }

  lemma UnclosedSkipped(mark: string, post: string)
    requires GoodMarker(mark) && NoMarkerLine(post, mark)
    ensures Kept(Lines(mark + "\n" + post), KindOf(mark), false) == []
  {
    var kind := KindOf(mark);
    LinesAppend(mark + "\n", post);
    OneLine(mark);
    StripLine(mark);
    KeptCons(mark + "\n", Lines(post), kind, false);
    KeptPlain(Lines(post), [], kind, true);
    assert Lines(post) + [] == Lines(post);
  }

  /** A marker line without an end line takes everything behind it along. */
  lemma UnclosedBlockDropsRest(pre: string, mark: string, post: string)
    requires GoodMarker(mark) && GoodText(pre, mark) && NoMarkerLine(post, mark)
    ensures Undone(pre + (mark + "\n" + post), mark) == StripNewlines(pre) + "\n"
  {
    var rest := mark + "\n" + post;
    LinesAppend(pre, rest);
    KeptPlain(Lines(pre), Lines(rest), KindOf(mark), false);
    UnclosedSkipped(mark, post);
    assert Lines(pre) + [] == Lines(pre);
    LinesConcat(pre);
    MarkerFollows(pre, mark, rest);
  }

  lemma MarkerFollows(pre: string, mark: string, rest: string)
    requires mark <= rest
    ensures Contains(pre + rest, mark)
  {
    var t := pre + rest;
    assert t[|pre|..|pre| + |mark|] == rest[..|mark|];
    assert OccursAt(t, mark, |pre|);
  }

  // ------------------------------------------------------------ the block that ships

  lemma BracketComesAlong(s: string, mark: string)
    requires '[' in mark
    ensures Contains(s, mark) ==> '[' in s
  {
    if Contains(s, mark) {
      var i :| 0 <= i <= |s| - |mark| && OccursAt(s, mark, i);
      var j :| 0 <= j < |mark| && mark[j] == '[';
      assert s[i..i + |mark|][j] == s[i + j];
    }
  }

  lemma OpeningHasNoBracket()
    ensures '[' !in TITLE && '[' !in TOOLS && '[' !in USAGE && '[' !in CONTINUITY
  {
  }

  lemma BodyHasNoBracket()
    ensures '[' !in BODY
  {
    OpeningHasNoBracket();
    EightParts(TITLE, TOOLS, USAGE, CONTINUITY, CONTEXT, SEMANTIC, NEEDED, ALONE, '[');
  }

  lemma EightParts(a: string, b: string, c: string, d: string, e: string, f: string, g: string, h: string, x: char)
    requires x !in a && x !in b && x !in c && x !in d && x !in e && x !in f && x !in g && x !in h
    ensures x !in a + b + c + d + e + f + g + h
  {
  }

  /** The shipped marker and body satisfy what the theorems ask for. */
  lemma ShippedBlockIsGood()
    ensures GoodMarker(MARKER) && GoodBody(BODY, MARKER)
  {
    assert MARKER[2] == '[';
    BodyHasNoBracket();
    BracketComesAlong(BODY, MARKER);
    assert ALONE[|ALONE| - 1] == '\n';
  }
}
