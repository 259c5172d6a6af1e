/**
 Request/reply over pooled connections. The client never looks at the id of a reply, so
 that a call gets its own answer rests entirely on what each connection still has in
 flight. Each step below runs without an await; steps of different calls interleave freely.
 */
module IpcPool {

  datatype Option<+T> = None | Some(value: T)

  type CallId = nat

  datatype Reply = Reply(id: CallId, isError: bool)

  /** `requests` are sent and not yet served, `replies` served and not yet read. */
  datatype Conn = Conn(alive: bool, peerClosed: bool, requests: seq<CallId>, replies: seq<Reply>)

  const CONNECTED := Conn(true, false, [], [])
  const DEAD := Conn(false, false, [], [])

  datatype Phase =
    | CheckedOut     // holds a connection, nothing written
    | Waiting        // request written, reply not read
    | Recovering     // call failed, connection closed, reconnect under way

  datatype Call = Call(conn: nat, phase: Phase)

  datatype Outcome = Returned(reply: Reply) | Failed | Cancelled

  datatype State = State(conns: seq<Conn>, idle: seq<nat>, calls: map<CallId, Call>, results: map<CallId, Outcome>)

  datatype Step =
    | CheckOut(c: CallId)
    | Connect(c: CallId, ok: bool)      // only a dead connection is reconnected before the write
    | Write(c: CallId)
    | Serve(k: nat, isError: bool)      // the server answers the oldest request of a connection
    | PeerClose(k: nat)
    | Read(c: CallId)                   // the oldest reply, whosever it is
    | Break(c: CallId)                  // timeout, transport error, end of stream, unreadable line
    | Reconnect(c: CallId, ok: bool)
    | Cancel(c: CallId)

  function Started(size: nat): State {
    State(seq(size, _ => CONNECTED), seq(size, i requires 0 <= i < size => i), map[], map[])
  }

  function GiveBack(s: State, c: CallId, conn: Conn, outcome: Outcome): State
    requires c in s.calls && s.calls[c].conn < |s.conns|
  {
    var k := s.calls[c].conn;
    State(s.conns[k := conn], s.idle + [k], s.calls - {c}, s.results[c := outcome])
  }

  function Advance(s: State, c: CallId, conn: Conn, phase: Phase): State
    requires c in s.calls && s.calls[c].conn < |s.conns|
  {
    var k := s.calls[c].conn;
    s.(conns := s.conns[k := conn], calls := s.calls[c := Call(k, phase)])
  }

  predicate Holds(s: State, c: CallId, phase: Phase) {
    c in s.calls && s.calls[c].phase == phase && s.calls[c].conn < |s.conns|
  }

  /** The server side: exactly one reply per request line, in order, echoing its id. */
  function ServeOldest(conn: Conn, isError: bool): Conn
    requires conn.requests != []
  {
    conn.(requests := conn.requests[1..], replies := conn.replies + [Reply(conn.requests[0], isError)])
  }

  /** The state after a step, or None when the step is not possible. */
  function Next(s: State, step: Step): Option<State> {
    match step
    case CheckOut(c) =>
      if c in s.calls || c in s.results || s.idle == [] then None
      else Some(s.(idle := s.idle[1..], calls := s.calls[c := Call(s.idle[0], CheckedOut)]))
    case Connect(c, ok) =>
      if !Holds(s, c, CheckedOut) || s.conns[s.calls[c].conn].alive then None
      else if ok then Some(Advance(s, c, CONNECTED, CheckedOut))
      else Some(Advance(s, c, DEAD, Recovering))
    case Write(c) =>
      if !Holds(s, c, CheckedOut) || !s.conns[s.calls[c].conn].alive then None
      else
        var conn := s.conns[s.calls[c].conn];
        Some(Advance(s, c, conn.(requests := conn.requests + [c]), Waiting))
    case Serve(k, isError) =>
      if k >= |s.conns| || !s.conns[k].alive || s.conns[k].peerClosed || s.conns[k].requests == [] then None
      else Some(s.(conns := s.conns[k := ServeOldest(s.conns[k], isError)]))
    case PeerClose(k) =>
      if k >= |s.conns| then None else Some(s.(conns := s.conns[k := s.conns[k].(peerClosed := true)]))
    case Read(c) =>
      if !Holds(s, c, Waiting) || s.conns[s.calls[c].conn].replies == [] then None
      else
        var conn := s.conns[s.calls[c].conn];
        var reply := conn.replies[0];
        if reply.isError then Some(Advance(s, c, DEAD, Recovering))
        else Some(GiveBack(s, c, conn.(replies := conn.replies[1..]), Returned(reply)))
    case Break(c) =>
      if !(Holds(s, c, CheckedOut) || Holds(s, c, Waiting)) then None
      else Some(Advance(s, c, DEAD, Recovering))
    case Reconnect(c, ok) =>
      if !Holds(s, c, Recovering) then None
      else Some(GiveBack(s, c, if ok then CONNECTED else DEAD, Failed))
    case Cancel(c) =>
      if c !in s.calls || s.calls[c].conn >= |s.conns| then None
      else Some(GiveBack(s, c, s.conns[s.calls[c].conn], Cancelled))
  }

  function Run(s: State, steps: seq<Step>): Option<State> {
    if steps == [] then Some(s)
    else
      var mid := Run(s, steps[..|steps| - 1]);
      if mid.None? then None else Next(mid.value, steps[|steps| - 1])
  }

  // ------------------------------------------------------------------- the invariant

  predicate Quiet(conn: Conn) {
    conn.requests == [] && conn.replies == []
  }

  /** Only the request of call `c` is outstanding, on whichever side it is. */
  predicate OnlyMine(conn: Conn, c: CallId) {
    || (conn.requests == [c] && conn.replies == [])
    || (conn.requests == [] && |conn.replies| == 1 && conn.replies[0].id == c)
  }

  predicate InStep(conn: Conn, c: CallId, phase: Phase) {
    match phase
    case CheckedOut => Quiet(conn)
    case Waiting => conn.alive && OnlyMine(conn, c)
    case Recovering => !conn.alive && Quiet(conn)
  }

  /** Every connection is idle or held by exactly one call. */
  ghost predicate Accounted(s: State) {
    && |s.idle| + |s.calls| == |s.conns|
    && (forall i :: 0 <= i < |s.idle| ==> s.idle[i] < |s.conns|)
    && (forall i, j :: 0 <= i < j < |s.idle| ==> s.idle[i] != s.idle[j])
    && (forall c :: c in s.calls ==> s.calls[c].conn < |s.conns| && s.calls[c].conn !in s.idle)
    && (forall c, d :: c in s.calls && d in s.calls && c != d ==> s.calls[c].conn != s.calls[d].conn)
    && (forall c :: c in s.calls ==> c !in s.results)
  }

  /** Idle connections have nothing outstanding, and held ones only what their holder sent. */
  ghost predicate Aligned(s: State) {
    && (forall i :: 0 <= i < |s.idle| && s.idle[i] < |s.conns| ==> Quiet(s.conns[s.idle[i]]))
    && (forall c :: c in s.calls && s.calls[c].conn < |s.conns| ==> InStep(s.conns[s.calls[c].conn], c, s.calls[c].phase))
  }

  /** Every call that returned normally returned the reply to its own request. */
  ghost predicate OwnReplies(s: State) {
    forall c :: c in s.results && s.results[c].Returned? ==> s.results[c].reply.id == c
  }

  ghost predicate Inv(s: State) {
    Accounted(s) && Aligned(s) && OwnReplies(s)
  }

  predicate CancelsInFlight(s: State, step: Step) {
    step.Cancel? && Holds(s, step.c, Waiting)
  }

  lemma GiveBackAccounted(s: State, c: CallId, conn: Conn, outcome: Outcome)
    requires Accounted(s) && c in s.calls
    ensures Accounted(GiveBack(s, c, conn, outcome))
  {
    var r := GiveBack(s, c, conn, outcome);
    assert |r.calls| == |s.calls| - 1 by {
      assert s.calls == r.calls[c := s.calls[c]];
    }
  }

  lemma GiveBackAligned(s: State, c: CallId, conn: Conn, outcome: Outcome)
    requires Accounted(s) && Aligned(s) && c in s.calls && Quiet(conn)
    ensures Aligned(GiveBack(s, c, conn, outcome))
  {
    var r, k := GiveBack(s, c, conn, outcome), s.calls[c].conn;
    forall i | 0 <= i < |r.idle| && r.idle[i] < |r.conns| ensures Quiet(r.conns[r.idle[i]]) {
      assert i < |s.idle| ==> r.idle[i] == s.idle[i];
    }
    forall d | d in r.calls && r.calls[d].conn < |r.conns| ensures InStep(r.conns[r.calls[d].conn], d, r.calls[d].phase) {
      assert d != c && s.calls[d].conn != k;
    }
  }

  lemma GiveBackInv(s: State, c: CallId, conn: Conn, outcome: Outcome)
    requires Inv(s) && c in s.calls && Quiet(conn)
    requires outcome.Returned? ==> outcome.reply.id == c
    ensures Inv(GiveBack(s, c, conn, outcome))
  {
    GiveBackAccounted(s, c, conn, outcome);
    GiveBackAligned(s, c, conn, outcome);
  }

  lemma AdvanceAccounted(s: State, c: CallId, conn: Conn, phase: Phase)
    requires Accounted(s) && c in s.calls
    ensures Accounted(Advance(s, c, conn, phase))
  {
    var r := Advance(s, c, conn, phase);
    assert r.calls.Keys == s.calls.Keys;
    assert |r.calls| == |s.calls| by { assert |r.calls.Keys| == |r.calls| && |s.calls.Keys| == |s.calls|; }
    forall d | d in r.calls ensures r.calls[d].conn == s.calls[d].conn {}
  }

  lemma AdvanceAligned(s: State, c: CallId, conn: Conn, phase: Phase)
    requires Accounted(s) && Aligned(s) && c in s.calls && InStep(conn, c, phase)
    ensures Aligned(Advance(s, c, conn, phase))
  {
    var r, k := Advance(s, c, conn, phase), s.calls[c].conn;
    forall i | 0 <= i < |r.idle| && r.idle[i] < |r.conns| ensures Quiet(r.conns[r.idle[i]]) {
      assert s.idle[i] in s.idle && s.idle[i] != k;
    }
    forall d | d in r.calls && r.calls[d].conn < |r.conns| ensures InStep(r.conns[r.calls[d].conn], d, r.calls[d].phase) {
      assert d != c ==> s.calls[d].conn != k;
    }
  }

  lemma AdvanceInv(s: State, c: CallId, conn: Conn, phase: Phase)
    requires Inv(s) && c in s.calls && InStep(conn, c, phase)
    ensures Inv(Advance(s, c, conn, phase))
  {
    AdvanceAccounted(s, c, conn, phase);
    AdvanceAligned(s, c, conn, phase);
  }

  lemma CheckOutInv(s: State, c: CallId)
    requires Inv(s) && c !in s.calls && c !in s.results && s.idle != []
    ensures Next(s, CheckOut(c)).Some? && Inv(Next(s, CheckOut(c)).value)
  {
    var r := Next(s, CheckOut(c)).value;
    assert r.calls == s.calls[c := Call(s.idle[0], CheckedOut)] && |r.calls| == |s.calls| + 1;
    forall i | 0 <= i < |r.idle| ensures r.idle[i] == s.idle[i + 1] {}
    forall d | d in r.calls ensures r.calls[d].conn < |r.conns| && r.calls[d].conn !in r.idle {
      assert s.idle[0] in s.idle;
    }
    assert Quiet(s.conns[s.idle[0]]);
  }

  /** The server or the peer touches one connection, in a way its holder can bear. */
  lemma TouchInv(s: State, k: nat, conn: Conn)
    requires Inv(s) && k < |s.conns|
    requires conn.alive == s.conns[k].alive && (Quiet(s.conns[k]) ==> Quiet(conn))
    requires forall c :: OnlyMine(s.conns[k], c) ==> OnlyMine(conn, c)
    ensures Inv(s.(conns := s.conns[k := conn]))
  {
    var r := s.(conns := s.conns[k := conn]);
    forall c | c in r.calls ensures InStep(r.conns[r.calls[c].conn], c, r.calls[c].phase) {
      assert InStep(s.conns[s.calls[c].conn], c, s.calls[c].phase);
    }
  }

  lemma WriteInv(s: State, c: CallId)
    requires Inv(s) && Next(s, Write(c)).Some?
    ensures Inv(Next(s, Write(c)).value)
  {
    var conn := s.conns[s.calls[c].conn];
    assert InStep(conn, c, CheckedOut);
    AdvanceInv(s, c, conn.(requests := conn.requests + [c]), Waiting);
  }

  lemma ReadInv(s: State, c: CallId)
    requires Inv(s) && Next(s, Read(c)).Some?
    ensures Inv(Next(s, Read(c)).value)
  {
    var conn := s.conns[s.calls[c].conn];
    assert InStep(conn, c, Waiting);
    if conn.replies[0].isError {
      AdvanceInv(s, c, DEAD, Recovering);
    } else {
      GiveBackInv(s, c, conn.(replies := conn.replies[1..]), Returned(conn.replies[0]));
    }
  }

  lemma StepKeepsInv(s: State, step: Step)
    requires Inv(s) && !CancelsInFlight(s, step) && Next(s, step).Some?
    ensures Inv(Next(s, step).value)
  {
    match step
    case CheckOut(c) => CheckOutInv(s, c);
    case Connect(c, ok) => ConnectInv(s, c, ok);
    case Write(c) => WriteInv(s, c);
    case Serve(k, isError) => ServeInv(s, k, isError);
    case PeerClose(k) => TouchInv(s, k, s.conns[k].(peerClosed := true));
    case Read(c) => ReadInv(s, c);
    case Break(c) => AdvanceInv(s, c, DEAD, Recovering);
    case Reconnect(c, ok) => ReconnectInv(s, c, ok);
    case Cancel(c) => IdleCancelInv(s, c);
  }

  lemma ServeInv(s: State, k: nat, isError: bool)
    requires Inv(s) && Next(s, Serve(k, isError)).Some?
    ensures Inv(Next(s, Serve(k, isError)).value)
  {
    var conn, served := s.conns[k], ServeOldest(s.conns[k], isError);
    forall c: CallId | OnlyMine(conn, c) ensures OnlyMine(served, c) {
      assert conn.requests == [c] && conn.replies == [];
      assert served.replies == [Reply(c, isError)] && served.requests == [];
    }
    TouchInv(s, k, served);
  }

  lemma ReconnectInv(s: State, c: CallId, ok: bool)
    requires Inv(s) && Next(s, Reconnect(c, ok)).Some?
    ensures Inv(Next(s, Reconnect(c, ok)).value)
  {
    if ok { GiveBackInv(s, c, CONNECTED, Failed); } else { GiveBackInv(s, c, DEAD, Failed); }
  }

  lemma ConnectInv(s: State, c: CallId, ok: bool)
    requires Inv(s) && Next(s, Connect(c, ok)).Some?
    ensures Inv(Next(s, Connect(c, ok)).value)
  {
    if ok { AdvanceInv(s, c, CONNECTED, CheckedOut); } else { AdvanceInv(s, c, DEAD, Recovering); }
  }

  lemma IdleCancelInv(s: State, c: CallId)
    requires Inv(s) && Next(s, Cancel(c)).Some? && !Holds(s, c, Waiting)
    ensures Inv(Next(s, Cancel(c)).value)
  {
    assert InStep(s.conns[s.calls[c].conn], c, s.calls[c].phase);
    GiveBackInv(s, c, s.conns[s.calls[c].conn], Cancelled);
  }

  /** No call has returned normally with an error reply. */
  ghost predicate NoErrorReturned(s: State) {
    forall c :: c in s.results && s.results[c].Returned? ==> !s.results[c].reply.isError
  }

  /** Whatever is cancelled and whenever: an error reply never comes back as a result. */
  lemma {:induction false} ErrorsNeverReturn(size: nat, steps: seq<Step>)
    requires Run(Started(size), steps).Some?
    ensures NoErrorReturned(Run(Started(size), steps).value)
    decreases |steps|
  {
    if steps != [] {
      ErrorsNeverReturn(size, steps[..|steps| - 1]);
      ErrorStaysInside(Run(Started(size), steps[..|steps| - 1]).value, steps[|steps| - 1]);
    }
  }

  lemma ErrorStaysInside(s: State, step: Step)
    requires NoErrorReturned(s) && Next(s, step).Some?
    ensures NoErrorReturned(Next(s, step).value)
  {
  }

  function IdsOf(replies: seq<Reply>): (r: seq<CallId>)
    ensures |r| == |replies| && forall i :: 0 <= i < |r| ==> r[i] == replies[i].id
  {
    seq(|replies|, i requires 0 <= i < |replies| => replies[i].id)
  }

  /** The calls a connection owes a reply, in the order in which the replies will be read. */
  function Owed(conn: Conn): seq<CallId> {
    IdsOf(conn.replies) + conn.requests
  }

  /**
   A connection is a queue, cancellations or not: a write joins it at the end, a read takes its
   first, serving changes nothing about it, and any other step leaves it or empties it.
   */
  lemma OwedInOrder(s: State, step: Step, k: nat)
    requires Next(s, step).Some? && k < |s.conns|
    ensures var before, after := Owed(s.conns[k]), Owed(Next(s, step).value.conns[k]);
            match step
            case Write(c) => after == if s.calls[c].conn == k then before + [c] else before
            case Read(c) =>
              if s.calls[c].conn != k then after == before
              else before != [] && after == if s.conns[k].replies[0].isError then [] else before[1..]
            case Serve(_, _) => after == before
            case _ => after == before || after == []
  {
    var before, after := s.conns[k], Next(s, step).value.conns[k];
    match step
    case Write(c) => assert s.calls[c].conn == k ==> Owed(after) == IdsOf(before.replies) + (before.requests + [c]);
    case Read(c) => assert s.calls[c].conn == k && !before.replies[0].isError ==> IdsOf(after.replies) == IdsOf(before.replies)[1..];
    case Serve(j, isError) => if j == k { ServeKeepsOwed(before, isError); }
    case _ =>
  }

  lemma ServeKeepsOwed(conn: Conn, isError: bool)
    requires conn.requests != []
    ensures Owed(ServeOldest(conn, isError)) == Owed(conn)
  {
    assert IdsOf(conn.replies + [Reply(conn.requests[0], isError)]) == IdsOf(conn.replies) + [conn.requests[0]];
    assert conn.requests == [conn.requests[0]] + conn.requests[1..];
  }

  predicate NeverCancelsInFlight(s: State, steps: seq<Step>) {
    steps == [] ||
    var init := steps[..|steps| - 1];
    && NeverCancelsInFlight(s, init)
    && (Run(s, init).Some? ==> !CancelsInFlight(Run(s, init).value, steps[|steps| - 1]))
  }

  lemma StartedInv(size: nat)
    ensures Inv(Started(size))
  {
  }

  lemma StepKeepsSize(s: State, step: Step)
    requires Next(s, step).Some?
    ensures |Next(s, step).value.conns| == |s.conns|
  {
  }

  /**
   In every interleaving of callers, timeouts, errors, closes and reconnects in which no
   call is cancelled between its write and its read: idle plus held connections are the
   pool, an idle connection owes nothing, and every normal return is the caller's own reply.
   */
  lemma {:induction false} RunAligned(size: nat, steps: seq<Step>)
    requires NeverCancelsInFlight(Started(size), steps) && Run(Started(size), steps).Some?
    ensures Inv(Run(Started(size), steps).value)
    ensures |Run(Started(size), steps).value.conns| == size
  {
    if steps == [] {
      StartedInv(size);
    } else {
      var init, last := steps[..|steps| - 1], steps[|steps| - 1];
      RunAligned(size, init);
      StepKeepsInv(Run(Started(size), init).value, last);
      StepKeepsSize(Run(Started(size), init).value, last);
    }
  }

  /** A call that returns normally returns the reply to its own request. */
  lemma ReturnedReplyIsOwn(size: nat, steps: seq<Step>, c: CallId)
    requires NeverCancelsInFlight(Started(size), steps) && Run(Started(size), steps).Some?
    requires var r := Run(Started(size), steps).value; c in r.results && r.results[c].Returned?
    ensures Run(Started(size), steps).value.results[c].reply.id == c
  {
    RunAligned(size, steps);
  }

  /** No connection is lost or duplicated, and an idle one has no reply outstanding. */
  lemma IdleOwesNothing(size: nat, steps: seq<Step>, i: nat)
    requires NeverCancelsInFlight(Started(size), steps) && Run(Started(size), steps).Some?
    requires i < |Run(Started(size), steps).value.idle|
    ensures var r := Run(Started(size), steps).value;
            && |r.idle| + |r.calls| == size
            && r.idle[i] < size == |r.conns| && Quiet(r.conns[r.idle[i]])
  {
    RunAligned(size, steps);
  }

  /** A cancellation keeps the pool aligned exactly when no request of the call is in flight. */
  lemma CancelExact(s: State, c: CallId)
    requires Inv(s) && c in s.calls
    ensures Next(s, Cancel(c)).Some?
    ensures Inv(Next(s, Cancel(c)).value) <==> s.calls[c].phase != Waiting
  {
    var r := Next(s, Cancel(c)).value;
    var k := s.calls[c].conn;
    if s.calls[c].phase == Waiting {
      assert r.idle[|r.idle| - 1] == k;
      assert InStep(s.conns[k], c, Waiting);
      assert !Quiet(r.conns[k]);
    } else {
      GiveBackInv(s, c, s.conns[k], Cancelled);
    }
  }

  ghost predicate AlignedThroughout(s: State, steps: seq<Step>) {
    Run(s, steps).Some? && Inv(Run(s, steps).value) && (steps == [] || AlignedThroughout(s, steps[..|steps| - 1]))
  }

  /** The pool is aligned at every state of a run exactly when no call is cancelled with its request in flight. */
  lemma {:induction false} AlignedExactly(size: nat, steps: seq<Step>)
    requires Run(Started(size), steps).Some?
    ensures AlignedThroughout(Started(size), steps) <==> NeverCancelsInFlight(Started(size), steps)
  {
    if steps == [] {
      StartedInv(size);
    } else {
      var init, last := steps[..|steps| - 1], steps[|steps| - 1];
      AlignedExactly(size, init);
      if NeverCancelsInFlight(Started(size), init) {
        LastStepExact(Run(Started(size), init).value, last);
      }
    }
  }

  lemma LastStepExact(s: State, step: Step)
    requires Inv(s) && Next(s, step).Some?
    ensures Inv(Next(s, step).value) <==> !CancelsInFlight(s, step)
  {
    if CancelsInFlight(s, step) { CancelExact(s, step.c); } else { StepKeepsInv(s, step); }
  }

  /** A request in flight on a pool of one, as the hypotheses of the following ask for. */
  lemma InFlightReached()
    ensures var s := Run(Started(1), [CheckOut(0), Write(0)]);
            s.Some? && Inv(s.value) && Holds(s.value, 0, Waiting) && !s.value.conns[0].peerClosed
  {
    var s0 := State([CONNECTED], [0], map[], map[]);
    var s1 := State([CONNECTED], [], map[0 := Call(0, CheckedOut)], map[]);
    var s2 := State([CONNECTED.(requests := [0])], [], map[0 := Call(0, Waiting)], map[]);
    assert Started(1) == s0;
    assert Next(s0, CheckOut(0)) == Some(s1) by { assert [0][1..] == []; }
    assert Next(s1, Write(0)) == Some(s2) by {
      assert [CONNECTED][0].requests + [0] == [0];
      assert [CONNECTED][0 := CONNECTED.(requests := [0])] == s2.conns;
      assert s1.calls[0 := Call(0, Waiting)] == s2.calls;
    }
    RunTwo(s0, CheckOut(0), s1, Write(0), s2);
  }

  lemma RunTwo(s: State, a: Step, m: State, b: Step, r: State)
    requires Next(s, a) == Some(m) && Next(m, b) == Some(r)
    ensures Run(s, [a, b]) == Some(r)
  {
    RunStep(s, [], a);
    RunStep(s, [a], b);
    assert [] + [a] == [a] && [a] + [b] == [a, b];
  }

  /** After a cancelled call, with nothing else idle, the next call writes behind its request. */
  lemma NextCallerInherits(s: State, c: CallId, d: CallId) returns (cancelled: State, taken: State, r: State)
    requires Inv(s) && Holds(s, c, Waiting) && s.idle == []
    requires d !in s.calls && d !in s.results
    ensures Next(s, Cancel(c)) == Some(cancelled) && Next(cancelled, CheckOut(d)) == Some(taken)
    ensures Next(taken, Write(d)) == Some(r)
    ensures Holds(r, d, Waiting) && r.calls[d].conn == s.calls[c].conn
    ensures var conn := s.conns[s.calls[c].conn];
            r.conns[s.calls[c].conn] == conn.(requests := conn.requests + [d])
  {
    var k := s.calls[c].conn;
    assert InStep(s.conns[k], c, Waiting);
    cancelled := Next(s, Cancel(c)).value;
    assert cancelled.idle == [k];
    taken := Next(cancelled, CheckOut(d)).value;
    r := Next(taken, Write(d)).value;
  }

  lemma {:induction false} Above(used: set<CallId>) returns (n: CallId)
    ensures forall c :: c in used ==> c < n
    decreases |used|
  {
    if used == {} {
      n := 0;
    } else {
      var c :| c in used;
      var m := Above(used - {c});
      n := if m <= c then c + 1 else m;
      forall x | x in used ensures x < n { assert x == c || x in used - {c}; }
    }
  }

  /** Other callers can take idle connections, which disturbs nobody. */
  lemma {:induction false} OthersCheckOut(s: State, n: nat) returns (steps: seq<Step>, r: State)
    requires Inv(s) && n <= |s.idle|
    ensures Run(s, steps) == Some(r) && Inv(r)
    ensures r.conns == s.conns && r.idle == s.idle[n..]
    ensures forall c :: c in s.calls ==> c in r.calls && r.calls[c] == s.calls[c]
    decreases n
  {
    if n == 0 {
      steps, r := [], s;
    } else {
      var before, mid := OthersCheckOut(s, n - 1);
      var d;
      d, r := OneMoreOut(mid);
      RunStep(s, before, CheckOut(d));
      steps := before + [CheckOut(d)];
    }
  }

  lemma OneMoreOut(s: State) returns (d: CallId, r: State)
    requires Inv(s) && s.idle != []
    ensures Next(s, CheckOut(d)) == Some(r) && Inv(r)
    ensures r.conns == s.conns && r.idle == s.idle[1..]
    ensures forall c :: c in s.calls ==> c in r.calls && r.calls[c] == s.calls[c]
  {
    d := Above(s.calls.Keys + s.results.Keys);
    assert d !in s.calls && d !in s.results;
    CheckOutInv(s, d);
    r := Next(s, CheckOut(d)).value;
  }

  /** The cancelled call's request, if nobody has answered it yet, is the next to be served. */
  lemma OldestIsServed(s: State, c: CallId, d: CallId) returns (r: State)
    requires Holds(s, d, Waiting)
    requires var conn := s.conns[s.calls[d].conn];
             conn.alive && !conn.peerClosed && conn.requests == [c, d] && conn.replies == []
    ensures Next(s, Serve(s.calls[d].conn, false)) == Some(r) && Holds(r, d, Waiting)
    ensures r.conns[r.calls[d].conn].replies == [Reply(c, false)]
  {
    r := Next(s, Serve(s.calls[d].conn, false)).value;
  }

  /** The oldest reply goes to whoever reads next. */
  lemma OldestReplyWins(s: State, c: CallId, d: CallId) returns (r: State)
    requires Holds(s, d, Waiting) && s.conns[s.calls[d].conn].replies == [Reply(c, false)]
    ensures Next(s, Read(d)) == Some(r)
    ensures d in r.results && r.results[d] == Returned(Reply(c, false))
  {
    r := Next(s, Read(d)).value;
  }

  lemma RunThree(s: State, before: seq<Step>, m0: State, a: Step, m1: State, b: Step, m2: State, c: Step, m3: State)
    requires Run(s, before) == Some(m0)
    requires Next(m0, a) == Some(m1) && Next(m1, b) == Some(m2) && Next(m2, c) == Some(m3)
    ensures Run(s, before + [a] + [b] + [c]) == Some(m3)
  {
    RunStep(s, before, a);
    RunStep(s, before + [a], b);
    RunStep(s, before + [a] + [b], c);
  }

  /** A run that cancels `c` and brings another call onto its connection. */
  lemma TakesOver(s: State, c: CallId) returns (steps: seq<Step>, d: CallId, r: State)
    requires Inv(s) && Holds(s, c, Waiting)
    ensures Run(s, steps) == Some(r) && Cancel(c) in steps && d != c
    ensures Holds(r, d, Waiting) && r.calls[d].conn == s.calls[c].conn
    ensures var conn := s.conns[s.calls[c].conn];
            r.conns[s.calls[c].conn] == conn.(requests := conn.requests + [d])
  {
    var before, full := OthersCheckOut(s, |s.idle|);
    d := Above(full.calls.Keys + full.results.Keys);
    assert d !in full.calls && d !in full.results && c in full.calls;
    var cancelled, taken;
    cancelled, taken, r := NextCallerInherits(full, c, d);
    RunThree(s, before, full, Cancel(c), cancelled, CheckOut(d), taken, Write(d), r);
    steps := before + [Cancel(c)] + [CheckOut(d)] + [Write(d)];
    assert steps[|before|] == Cancel(c);
  }

  /**
   What goes wrong otherwise: cancel any call whose request is in flight and can still be, or
   already is, answered normally, and some later call returns normally with that answer.
   */
  lemma CancelledReplyIsMisdelivered(s: State, c: CallId) returns (steps: seq<Step>, d: CallId)
    requires Inv(s) && Holds(s, c, Waiting)
    requires var conn := s.conns[s.calls[c].conn];
             if conn.replies == [] then !conn.peerClosed else !conn.replies[0].isError
    ensures Run(s, steps).Some? && Cancel(c) in steps && d != c
    ensures var r := Run(s, steps).value; d in r.results && r.results[d] == Returned(Reply(c, false))
  {
    var mid;
    steps, d, mid := TakesOver(s, c);
    var k := s.calls[c].conn;
    assert InStep(s.conns[k], c, Waiting);
    if s.conns[k].replies == [] {
      assert [c] + [d] == [c, d];
      var served := OldestIsServed(mid, c, d);
      RunStep(s, steps, Serve(k, false));
      steps, mid := steps + [Serve(k, false)], served;
    }
    var r := OldestReplyWins(mid, c, d);
    RunStep(s, steps, Read(d));
    steps := steps + [Read(d)];
  }

  lemma RunStep(s: State, steps: seq<Step>, step: Step)
    requires Run(s, steps).Some?
    ensures Run(s, steps + [step]) == Next(Run(s, steps).value, step)
  {
    assert (steps + [step])[..|steps|] == steps;
  }
}
