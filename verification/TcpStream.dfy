/** The two byte streams of a connection over whole histories: sends, reported events, half-closes and the end. */
module TcpStreams {
  import opened Common
  import opened TcpBuffers
  import opened TcpConnections

  /** What can happen to an established connection. */
  datatype Operation =
    | Send(data: seq<Byte>)
    | Report(events: Events, arrived: seq<Byte>, socketError: int, answer: seq<Byte>, result: SocketWrite,
             reply: seq<Byte>)
    | Take(size: nat)
    | HalfClose(result: SocketWrite)
    | Destroy

  /**
   * Whether it can happen now: poll reports only what the channel asked for, and not after the close; appended bytes
   * meet the buffer's demand; nothing can be written after a half-close; only a closed connection is destroyed.
   */
  predicate Possible(c: TcpConnection, op: Operation)
    requires c.sendBuffer.Valid()
    reads c, c.sendBuffer, c.sendBuffer.buffer
  {
    match op
    case Send(data) => c.state == Connected ==> c.CanAppend(data)
    case Report(events, _, _, answer, _, _) =>
      c.state != DisConnected && c.hasChannel && c.CanAppend(answer) && (events.writable ==> c.writing)
    case Take(_) => true
    case HalfClose(result) => c.state == HalfClosed && c.sendBuffer.ReadableBytes() != 0 ==> result.Fails?
    case Destroy => c.state == DisConnected
  }

  /** The write-complete callback sends nothing. */
  predicate Quiet(op: Operation) {
    op.Report? ==> op.reply == []
  }

  predicate AllQuiet(ops: seq<Operation>) {
    forall i :: 0 <= i < |ops| ==> Quiet(ops[i])
  }

  /** What a connection has been through, as far as its streams and its life are concerned. */
  datatype History = History(state: ConnState, hasChannel: bool, accepted: seq<Byte>, handed: seq<Byte>,
                             received: seq<Byte>, taken: seq<Byte>)

  ghost function Now(c: TcpConnection): History
    reads c
  {
    History(c.state, c.hasChannel, c.accepted, c.handed, c.received, c.taken)
  }

  /**
   * One history continues another: every stream only grows; the life cycle only advances; once the connection is no
   * longer connected nothing is accepted or handed over; once it is closed nothing is received; destroyed is for good.
   */
  ghost predicate Continues(h: History, g: History) {
    && h.accepted <= g.accepted && h.handed <= g.handed && h.received <= g.received && h.taken <= g.taken
    && Stage(h.state) <= Stage(g.state)
    && (h.state != Connected ==> g.accepted == h.accepted && g.handed == h.handed)
    && (h.state == DisConnected ==> g.received == h.received)
    && (!h.hasChannel ==> !g.hasChannel)
  }

  lemma {:induction false} ContinuesOn(h: History, g: History, f: History)
    requires Continues(h, g) && Continues(g, f)
    ensures Continues(h, f)
  {
  }

  /** A reported event as an operation. */
  method PerformReport(c: TcpConnection, op: Operation) returns (threw: bool)
    requires c.Valid() && op.Report? && Possible(c, op)
    modifies c, c.sendBuffer, c.recvBuffer, c.sendBuffer.buffer, c.recvBuffer.buffer
    ensures c.Valid() && Continues(old(Now(c)), Now(c))
    ensures c.sendBuffer.buffer == old(c.sendBuffer.buffer) || fresh(c.sendBuffer.buffer)
    ensures c.recvBuffer.buffer == old(c.recvBuffer.buffer) || fresh(c.recvBuffer.buffer)
    ensures old(c.WriteInterest()) && Quiet(op) ==> c.WriteInterest()
  {
    var wroteAfterClose;
    wroteAfterClose, threw := c.HandleEvent(op.events, op.arrived, op.socketError, op.answer, op.result, op.reply);
  }

  /** One operation; if an exception leaves it, nothing catches it. */
  method Perform(c: TcpConnection, op: Operation) returns (threw: bool)
    requires c.Valid() && Possible(c, op)
    modifies c, c.sendBuffer, c.recvBuffer, c.sendBuffer.buffer, c.recvBuffer.buffer
    ensures c.Valid() && Continues(old(Now(c)), Now(c))
    ensures c.sendBuffer.buffer == old(c.sendBuffer.buffer) || fresh(c.sendBuffer.buffer)
    ensures c.recvBuffer.buffer == old(c.recvBuffer.buffer) || fresh(c.recvBuffer.buffer)
    ensures old(c.WriteInterest()) && Quiet(op) ==> c.WriteInterest()
    ensures op.Send? && old(c.state) == Connected ==> c.accepted == old(c.accepted) + op.data
    ensures op.HalfClose? && op.result.Takes? && old(c.state) == Connected ==> c.state == HalfClosed
    ensures op.Take? ==> |c.taken| == |old(c.taken)| + Min(op.size, |old(c.recvBuffer.Contents())|)
    ensures op.Destroy? ==> !c.hasChannel
  {
    threw := false;
    match op
    case Send(data) =>
      var _ := c.SendInLoop(data);
    case Report(_, _, _, _, _, _) =>
      threw := PerformReport(c, op);
    case Take(size) =>
      var _ := c.Extract(size);
    case HalfClose(result) =>
      c.ShutdownInLoop(result);
    case Destroy =>
      c.DestroyConnection();
  }

  /**
   * Any history, in which what is not possible at its time does not happen, and which ends when an exception leaves
   * the loop. At its end, as at every moment in it: what was handed to the socket is a prefix of what was accepted and
   * the rest waits in the send buffer; what the user took is a prefix of what was received and the rest is in the
   * receive buffer, which has room, so that reading nothing means that nothing came; and, unless the write-complete
   * callback sends, waiting bytes of a connected connection have write interest.
   */
  method Run(c: TcpConnection, ops: seq<Operation>) returns (ended: bool)
    requires c.Valid()
    modifies c, c.sendBuffer, c.recvBuffer, c.sendBuffer.buffer, c.recvBuffer.buffer
    ensures c.Valid() && Continues(old(Now(c)), Now(c))
    ensures c.handed + c.sendBuffer.Contents() == c.accepted
    ensures c.taken + c.recvBuffer.Contents() == c.received && c.recvBuffer.HasRoom()
    ensures c.sendBuffer.buffer == old(c.sendBuffer.buffer) || fresh(c.sendBuffer.buffer)
    ensures c.recvBuffer.buffer == old(c.recvBuffer.buffer) || fresh(c.recvBuffer.buffer)
    ensures old(c.WriteInterest()) && AllQuiet(ops) ==> c.WriteInterest()
  {
    ended := false;
    var i := 0;
    while i < |ops|
      invariant 0 <= i <= |ops|
      invariant c.Valid() && Continues(old(Now(c)), Now(c))
      invariant c.sendBuffer.buffer == old(c.sendBuffer.buffer) || fresh(c.sendBuffer.buffer)
      invariant c.recvBuffer.buffer == old(c.recvBuffer.buffer) || fresh(c.recvBuffer.buffer)
      invariant old(c.WriteInterest()) && AllQuiet(ops) ==> c.WriteInterest()
    {
      if Possible(c, ops[i]) {
        ghost var h := Now(c);
        ended := Perform(c, ops[i]);
        ContinuesOn(old(Now(c)), h, Now(c));
        if ended {
          return;
        }
      }
      i := i + 1;
    }
  }

  /** The same from the beginning: a new connection, established, and then any history. */
  method Lifetime(ops: seq<Operation>) returns (c: TcpConnection, ended: bool)
    ensures fresh(c) && c.Valid() && c.handed <= c.accepted && c.taken <= c.received
    ensures AllQuiet(ops) && c.state == Connected && !c.writing ==> c.handed == c.accepted
  {
    c := new TcpConnection();
    c.EstablishConnect();
    ended := Run(c, ops);
    AllHanded(c.handed, c.sendBuffer.Contents());
  }

  /** After the destruction no history accepts, hands over or receives anything, nor brings the channel back. */
  method Destroyed(c: TcpConnection, ops: seq<Operation>) returns (ended: bool)
    requires c.Valid() && c.state == DisConnected
    modifies c, c.sendBuffer, c.recvBuffer, c.sendBuffer.buffer, c.recvBuffer.buffer
    ensures c.Valid() && !c.hasChannel && c.state == DisConnected
    ensures c.accepted == old(c.accepted) && c.handed == old(c.handed) && c.received == old(c.received)
  {
    c.DestroyConnection();
    ended := Run(c, ops);
  }

  // ---- Three ways to fail, each from a new connection ----

  /** Bytes that the write-complete callback sends wait without write interest. */
  method StrandedReply() returns (c: TcpConnection)
    ensures fresh(c) && c.Valid() && c.state == Connected && !c.writing
    ensures c.accepted == [1, 2] && c.handed == [1] && c.sendBuffer.Contents() == [2]
  {
    c := new TcpConnection();
    c.EstablishConnect();
    var _ := c.SendInLoop([1]);
    var threw := c.HandleWrite(Takes(1), [2]);
    assert c.sendBuffer.Contents() == (c.handed + c.sendBuffer.Contents())[1..];
  }

  /** A half-close drops what its one write does not take. */
  method LostByHalfClose() returns (c: TcpConnection)
    ensures fresh(c) && c.Valid() && c.state == HalfClosed && !c.writing
    ensures c.accepted == [1, 2] && c.handed == [1] && c.sendBuffer.Contents() == [2]
  {
    c := new TcpConnection();
    c.EstablishConnect();
    var _ := c.SendInLoop([1, 2]);
    c.ShutdownInLoop(Takes(1));
  }

  /** The write handler runs on a connection that the same event has closed. */
  method WriteAfterClose() returns (c: TcpConnection, wroteAfterClose: bool)
    ensures fresh(c) && c.Valid() && c.state == DisConnected && wroteAfterClose && c.handed == [1]
  {
    c := new TcpConnection();
    c.EstablishConnect();
    var _ := c.SendInLoop([1]);
    var events := Events(true, false, false, true, false, false);
    var threw;
    wroteAfterClose, threw := c.HandleEvent(events, [], 0, [], Takes(1), []);
  }
}
