/** The server side of a connection: one reply per request line, in order. */
module IpcServer {

  datatype Option<+T> = None | Some(value: T)

  /** What a line holds: bytes that are not UTF-8, text that is not JSON, JSON that is no object, or a request. */
  datatype Line = NotText | NotJson | NotObject | Request(id: Option<int>, tool: string)

  datatype Reply = Reply(id: Option<int>, isError: bool)

  /** Lines on which the handler ends: it catches neither error. */
  predicate Fatal(line: Line) {
    line.NotText? || line.NotObject?
  }

  /** Whether the dispatched tool raises is not the server's to decide. */
  function Answer(line: Line, raises: string -> bool): Reply
    requires !Fatal(line)
  {
    match line
    case NotJson => Reply(None, true)
    case Request(id, tool) => Reply(id, raises(tool))
  }

  /** Lines before the first one the handler cannot survive. */
  function Survived(lines: seq<Line>): (n: nat)
    ensures n <= |lines|
    ensures forall i :: 0 <= i < n ==> !Fatal(lines[i])
    ensures n < |lines| ==> Fatal(lines[n])
  {
    if lines == [] || Fatal(lines[0]) then 0 else 1 + Survived(lines[1..])
  }

  /** Every line up to the first fatal one gets exactly one reply, in order, under its own id. */
  method HandleClient(lines: seq<Line>, raises: string -> bool) returns (replies: seq<Reply>)
    ensures |replies| == Survived(lines)
    ensures forall i :: 0 <= i < |replies| ==> replies[i] == Answer(lines[i], raises)
    ensures forall i :: 0 <= i < |replies| && lines[i].Request? ==>
              replies[i].id == lines[i].id && replies[i].isError == raises(lines[i].tool)
    ensures forall i :: 0 <= i < |replies| && !lines[i].Request? ==>
              lines[i].NotJson? && replies[i].id == None && replies[i].isError
    ensures |replies| < |lines| ==> lines[|replies|].NotText? || lines[|replies|].NotObject?
  {
    replies := [];
    for i := 0 to |lines|
      invariant |replies| == i && i <= Survived(lines)
      invariant forall j :: 0 <= j < i ==> replies[j] == Answer(lines[j], raises)
    {
      match lines[i]
      case NotJson =>
        replies := replies + [Reply(None, true)];
        continue;
      case NotText =>
        return;
      case NotObject =>
        return;
      case Request(id, tool) =>
        replies := replies + [Reply(id, raises(tool))];
    }
  }
}
