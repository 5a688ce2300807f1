/** One connection: its send and receive buffers, its interest in socket events, and its life cycle. */
module TcpConnections {
  import opened Common
  import opened TcpBuffers

  type Positive = n: nat | n > 0 witness 1

  /** What the socket does with a write: it takes up to so many bytes, at least one, or fails. */
  datatype SocketWrite = Takes(most: Positive) | Fails

  /** The part of the waiting bytes that the socket takes. */
  function SentBy(result: SocketWrite, waiting: seq<Byte>): (sent: seq<Byte>)
    ensures sent <= waiting && (sent == [] <==> result.Fails? || waiting == [])
    ensures sent == waiting <==> Drains(result, waiting)
    ensures result.Takes? && result.most <= |waiting| ==> |sent| == result.most
  {
    if result.Fails? then [] else waiting[..Min(result.most, |waiting|)]
  }

  /** Whether one write leaves nothing waiting. */
  predicate Drains(result: SocketWrite, waiting: seq<Byte>) {
    waiting == [] || (result.Takes? && result.most >= |waiting|)
  }

  /** The event bits poll reports for a channel. */
  datatype Events = Events(readable: bool, urgent: bool, peerHalfClosed: bool, writable: bool, hangUp: bool,
                           error: bool)
  {
    predicate Closes() {
      hangUp && !readable
    }

    predicate Reads() {
      !Closes() && !error && (readable || urgent || peerHalfClosed)
    }

    predicate Writes() {
      !Closes() && !error && writable
    }
  }

  /** How far a connection's life has gone, once it is established. */
  function Stage(state: ConnState): nat {
    match state
    case Connected => 0
    case HalfClosed => 1
    case DisConnected => 2
  }

  class TcpConnection {
    var state: ConnState
    const sendBuffer: TcpBuffer
    const recvBuffer: TcpBuffer
    var reading: bool
    var writing: bool
    var hasChannel: bool
    // Every byte accepted by send, and every byte the socket has taken, in order.
    ghost var accepted: seq<Byte>
    ghost var handed: seq<Byte>
    // Every byte read from the socket, and every byte taken out by the user, in order.
    ghost var received: seq<Byte>
    ghost var taken: seq<Byte>

    /** The buffers are sound, and each holds what has come in and has not gone out yet. */
    ghost predicate Valid()
      reads this, sendBuffer, recvBuffer, sendBuffer.buffer, recvBuffer.buffer
    {
      && sendBuffer != recvBuffer && sendBuffer.buffer != recvBuffer.buffer
      && sendBuffer.Valid() && recvBuffer.Valid() && recvBuffer.HasRoom()
      && handed + sendBuffer.Contents() == accepted
      && taken + recvBuffer.Contents() == received
      && (state == HalfClosed ==> !writing)
      && (!hasChannel ==> state == DisConnected && !writing)
    }

    /** While connected, bytes that wait are waited for. */
    ghost predicate WriteInterest()
      requires sendBuffer.Valid()
      reads this, sendBuffer, sendBuffer.buffer
    {
      state == Connected && sendBuffer.Contents() != [] ==> writing
    }

    constructor ()
      ensures Valid() && WriteInterest() && state == DisConnected && hasChannel && !writing
      ensures accepted == handed == received == taken == []
      ensures fresh(sendBuffer) && fresh(recvBuffer) && fresh(sendBuffer.buffer) && fresh(recvBuffer.buffer)
      ensures sendBuffer.writePos == 0 && sendBuffer.buffer.Length == INITIAL_SIZE
    {
      state := DisConnected;
      sendBuffer := new TcpBuffer();
      recvBuffer := new TcpBuffer();
      reading, writing, hasChannel := false, false, true;
      accepted, handed, received, taken := [], [], [], [];
    }

    method EstablishConnect()
      requires Valid() && hasChannel && state == DisConnected && sendBuffer.Contents() == []
      modifies this`state, this`reading
      ensures Valid() && WriteInterest() && state == Connected && reading
    {
      reading := true;
      state := Connected;
    }

    /** Whether the send buffer can take the bytes, as its append demands. */
    predicate CanAppend(data: seq<Byte>)
      requires sendBuffer.Valid()
      reads this, sendBuffer, sendBuffer.buffer
    {
      sendBuffer.CanTake(|data|)
    }

    /** Accepts the bytes only while connected, and then asks for write events, once the buffer has taken them. */
    method SendInLoop(data: seq<Byte>) returns (outcome: Appended)
      requires Valid()
      modifies this`writing, this`accepted, sendBuffer`buffer, sendBuffer`writePos, sendBuffer.buffer
      ensures sendBuffer.buffer == old(sendBuffer.buffer) || fresh(sendBuffer.buffer)
      ensures outcome.Stored? <==> state == Connected ==> old(CanAppend(data))
      ensures outcome.Stored? ==> Valid()
      ensures outcome.Stored? ==> accepted == if state == Connected then old(accepted) + data else old(accepted)
      ensures outcome.Stored? ==> writing == (state == Connected || old(writing))
      ensures outcome.Stored? ==>
                sendBuffer.Contents() ==
                  if state == Connected then old(sendBuffer.Contents()) + data else old(sendBuffer.Contents())
      ensures !outcome.Stored? ==> accepted == old(accepted) && writing == old(writing)
    {
      if state != Connected {
        return Stored;
      }
      Regroup(handed, sendBuffer.Contents(), data);
      outcome := sendBuffer.AppendToBuffer(data);
      if !outcome.Stored? {
        return;
      }
      accepted := accepted + data;
      if !writing {
        writing := true;
      }
    }

    /** The same for bytes that the buffer can take. */
    method SendWithRoom(data: seq<Byte>)
      requires Valid() && (state == Connected ==> CanAppend(data))
      modifies this`writing, this`accepted, sendBuffer`buffer, sendBuffer`writePos, sendBuffer.buffer
      ensures Valid() && (sendBuffer.buffer == old(sendBuffer.buffer) || fresh(sendBuffer.buffer))
      ensures accepted == if state == Connected then old(accepted) + data else old(accepted)
      ensures writing == (state == Connected || old(writing))
      ensures sendBuffer.Contents() ==
                if state == Connected then old(sendBuffer.Contents()) + data else old(sendBuffer.Contents())
    {
      var outcome := SendInLoop(data);
      assert outcome.Stored?;
    }

    /** Gives the socket as much as it takes. */
    method FlushSome(result: SocketWrite) returns (ok: bool)
      requires Valid() && sendBuffer.Contents() != []
      modifies this`handed, sendBuffer`readPos, sendBuffer`writePos, sendBuffer`copied, sendBuffer`consumed
      modifies sendBuffer.buffer
      ensures Valid() && ok == result.Takes?
      ensures handed == old(handed) + SentBy(result, old(sendBuffer.Contents()))
      ensures sendBuffer.Contents() == [] <==> Drains(result, old(sendBuffer.Contents()))
    {
      ok := result.Takes?;
      if !ok {
        return;
      }
      ghost var waiting := sendBuffer.Contents();
      var n := Min(result.most, sendBuffer.ReadableBytes());
      var sent := sendBuffer.WriteToSocket(n);
      HandOver(handed, waiting, n);
      handed := handed + sent;
    }

    /** The write-complete callback, which sends `reply`, then the end of write interest. */
    method WriteComplete(reply: seq<Byte>)
      requires Valid() && sendBuffer.Contents() == []
      modifies this`writing, this`accepted, sendBuffer`buffer, sendBuffer`writePos, sendBuffer.buffer
      ensures Valid() && !writing && (sendBuffer.buffer == old(sendBuffer.buffer) || fresh(sendBuffer.buffer))
      ensures sendBuffer.Contents() == if state == Connected then reply else []
      ensures accepted == if state == Connected then old(accepted) + reply else old(accepted)
    {
      sendBuffer.EmptyTakesAll(|reply|);
      NothingBefore(reply);
      SendWithRoom(reply);
      writing := false;
    }

    /**
     * The socket is writable; `reply` is what the write-complete callback sends synchronously, possibly nothing.
     * Its bytes are left without write interest. A failed write leaves the handler by an exception.
     */
    method HandleWrite(result: SocketWrite, reply: seq<Byte>) returns (threw: bool)
      requires Valid() && writing
      modifies this`writing, this`accepted, this`handed, sendBuffer, sendBuffer.buffer
      ensures Valid() && (sendBuffer.buffer == old(sendBuffer.buffer) || fresh(sendBuffer.buffer))
      ensures threw <==> old(sendBuffer.Contents()) != [] && result.Fails?
      ensures handed == old(handed) + SentBy(result, old(sendBuffer.Contents()))
      ensures var drained := Drains(result, old(sendBuffer.Contents()));
              && writing == !drained
              && accepted == (if drained && state == Connected then old(accepted) + reply else old(accepted))
              && (WriteInterest() <==> !(drained && state == Connected && reply != []))
    {
      if sendBuffer.ReadableBytes() != 0 {
        var ok := FlushSome(result);
        if !ok {
          return true;
        }
      }
      if sendBuffer.ReadableBytes() == 0 {
        WriteComplete(reply);
      }
      return false;
    }

    /**
     * Reads what has arrived; `answer` is what the message callback sends. Nothing read and no socket error means
     * the peer has shut down, and only then.
     */
    method HandleRead(arrived: seq<Byte>, socketError: int, answer: seq<Byte>) returns (got: nat)
      requires Valid() && state != DisConnected && CanAppend(answer)
      modifies this`state, this`writing, this`accepted, this`received
      modifies recvBuffer`buffer, recvBuffer`writePos, recvBuffer.buffer
      modifies sendBuffer`buffer, sendBuffer`writePos, sendBuffer.buffer
      ensures Valid()
      ensures recvBuffer.buffer == old(recvBuffer.buffer) || fresh(recvBuffer.buffer)
      ensures sendBuffer.buffer == old(sendBuffer.buffer) || fresh(sendBuffer.buffer)
      ensures got <= |arrived| && received == old(received) + arrived[..got] && (got == 0 <==> arrived == [])
      ensures state == if arrived == [] && socketError == 0 then DisConnected else old(state)
      ensures var answers := old(state) == Connected && arrived != [];
              && accepted == (if answers then old(accepted) + answer else old(accepted))
              && sendBuffer.Contents() ==
                   (if answers then old(sendBuffer.Contents()) + answer else old(sendBuffer.Contents()))
              && writing == (answers || old(writing))
    {
      ghost var before := recvBuffer.Contents();
      got := recvBuffer.ReadFromSocket(arrived);
      Regroup(taken, before, arrived[..got]);
      received := received + arrived[..got];
      if got > 0 {
        SendWithRoom(answer);
      } else if socketError == 0 {
        HandleClose();
      }
    }

    method HandleClose()
      requires state != DisConnected
      modifies this`state
      ensures state == DisConnected
    {
      state := DisConnected;
    }

    /** The user takes received bytes out. */
    method Extract(size: nat) returns (result: seq<Byte>)
      requires Valid()
      modifies this`taken, recvBuffer`readPos, recvBuffer`writePos, recvBuffer`copied, recvBuffer`consumed
      modifies recvBuffer.buffer
      ensures Valid() && taken == old(taken) + result && result <= old(recvBuffer.Contents())
      ensures |result| == Min(size, |old(recvBuffer.Contents())|)
    {
      ghost var before := recvBuffer.Contents();
      result := recvBuffer.Extract(size);
      Regroup(taken, result, recvBuffer.Contents());
      taken := taken + result;
    }

    /** One write, if anything waits. */
    method LastWrite(result: SocketWrite) returns (ok: bool)
      requires Valid()
      modifies this`handed, sendBuffer`readPos, sendBuffer`writePos, sendBuffer`copied, sendBuffer`consumed
      modifies sendBuffer.buffer
      ensures Valid() && ok == (old(sendBuffer.Contents()) == [] || result.Takes?)
      ensures handed == old(handed) + SentBy(result, old(sendBuffer.Contents()))
      ensures sendBuffer.Contents() == [] <==> Drains(result, old(sendBuffer.Contents()))
    {
      if sendBuffer.ReadableBytes() == 0 {
        return true;
      }
      ok := FlushSome(result);
    }

    /**
     * The queued half-close: one last write, then no more writing. A failed write leaves everything as it was.
     * Everything accepted has been handed over exactly when that one write can take all that waits.
     */
    method ShutdownInLoop(result: SocketWrite)
      requires Valid()
      requires state == HalfClosed && sendBuffer.Contents() != [] ==> result.Fails?
      modifies this`state, this`writing, this`handed, sendBuffer`readPos, sendBuffer`writePos
      modifies sendBuffer`copied, sendBuffer`consumed, sendBuffer.buffer
      ensures Valid() && (old(WriteInterest()) ==> WriteInterest())
      ensures old(state) != Connected ==> handed == old(handed) && state == old(state)
      ensures old(state) == Connected ==>
                && state == (if old(sendBuffer.Contents()) == [] || result.Takes? then HalfClosed else Connected)
                && handed == old(handed) + SentBy(result, old(sendBuffer.Contents()))
                && (handed == accepted <==> Drains(result, old(sendBuffer.Contents())))
    {
      if state == DisConnected {
        return;
      }
      var ok := LastWrite(result);
      AllHanded(handed, sendBuffer.Contents());
      if !ok {
        return;
      }
      state := HalfClosed;
      writing := false;
    }

    /** Drops interest and channel; the socket goes with them. */
    method DestroyConnection()
      requires Valid() && state == DisConnected
      modifies this`reading, this`writing, this`hasChannel
      ensures Valid() && WriteInterest() && !hasChannel && !reading
    {
      reading, writing, hasChannel := false, false, false;
    }

    /** The reading part of an event. */
    method ReadPart(events: Events, arrived: seq<Byte>, socketError: int, answer: seq<Byte>)
      requires Valid() && state != DisConnected && CanAppend(answer) && !events.Closes() && !events.error
      modifies this`state, this`writing, this`accepted, this`received
      modifies recvBuffer`buffer, recvBuffer`writePos, recvBuffer.buffer
      modifies sendBuffer`buffer, sendBuffer`writePos, sendBuffer.buffer
      ensures Valid() && (old(WriteInterest()) ==> WriteInterest()) && (old(writing) ==> writing)
      ensures recvBuffer.buffer == old(recvBuffer.buffer) || fresh(recvBuffer.buffer)
      ensures sendBuffer.buffer == old(sendBuffer.buffer) || fresh(sendBuffer.buffer)
      ensures old(received) <= received && |received| <= |old(received)| + |arrived|
      ensures |received| > |old(received)| <==>
              (events.readable || events.urgent || events.peerHalfClosed) && !events.error
              && (events.readable || !events.hangUp) && arrived != []
      ensures state == if events.Reads() && arrived == [] && socketError == 0 then DisConnected else old(state)
      ensures accepted == old(accepted) + Answer(events, old(state), arrived, answer)
      ensures sendBuffer.Contents() == old(Waiting(events, arrived, answer))
    {
      if events.readable || events.urgent || events.peerHalfClosed {
        var got := HandleRead(arrived, socketError, answer);
      }
    }

    /** The writing part of an event. */
    method WritePart(events: Events, result: SocketWrite, reply: seq<Byte>)
      returns (wroteAfterClose: bool, threw: bool)
      requires Valid() && !events.Closes() && !events.error && (events.writable ==> writing)
      modifies this`writing, this`accepted, this`handed, sendBuffer, sendBuffer.buffer
      ensures Valid() && (sendBuffer.buffer == old(sendBuffer.buffer) || fresh(sendBuffer.buffer))
      ensures wroteAfterClose <==> events.Writes() && state != Connected
      ensures threw <==> events.Writes() && old(sendBuffer.Contents()) != [] && result.Fails?
      ensures handed == old(handed) + if events.Writes() then SentBy(result, old(sendBuffer.Contents())) else []
      ensures accepted == old(accepted) + Reply(events, state, result, old(sendBuffer.Contents()), reply)
      ensures old(WriteInterest()) && Reply(events, state, result, old(sendBuffer.Contents()), reply) == [] ==>
                WriteInterest()
    {
      wroteAfterClose, threw := false, false;
      NothingAdded(accepted);
      NothingAdded(handed);
      if events.writable {
        wroteAfterClose := state != Connected;
        threw := HandleWrite(result, reply);
      }
    }

    /**
     * What the channel does with one reported event. `wroteAfterClose` tells that the write handler ran on a
     * connection that is no longer connected, which its assertion forbids; `threw`, that an exception left it.
     */
    method HandleEvent(events: Events, arrived: seq<Byte>, socketError: int, answer: seq<Byte>,
                       result: SocketWrite, reply: seq<Byte>)
      returns (wroteAfterClose: bool, threw: bool)
      requires Valid() && state != DisConnected && hasChannel && CanAppend(answer)
      requires events.writable ==> writing
      modifies this`state, this`writing, this`accepted, this`handed, this`received
      modifies sendBuffer, sendBuffer.buffer, recvBuffer`buffer, recvBuffer`writePos, recvBuffer.buffer
      ensures Valid()
      ensures recvBuffer.buffer == old(recvBuffer.buffer) || fresh(recvBuffer.buffer)
      ensures sendBuffer.buffer == old(sendBuffer.buffer) || fresh(sendBuffer.buffer)
      ensures old(received) <= received && |received| <= |old(received)| + |arrived|
      ensures |received| > |old(received)| <==>
              (events.readable || events.urgent || events.peerHalfClosed) && !events.error
              && (events.readable || !events.hangUp) && arrived != []
      ensures state == if events.Closes() || (events.Reads() && arrived == [] && socketError == 0) then DisConnected
                       else old(state)
      ensures accepted == old(accepted) + Answer(events, old(state), arrived, answer)
                        + Reply(events, state, result, old(Waiting(events, arrived, answer)), reply)
      ensures handed == old(handed) +
                if events.Writes() then SentBy(result, old(Waiting(events, arrived, answer))) else []
      ensures threw <==> events.Writes() && old(Waiting(events, arrived, answer)) != [] && result.Fails?
      ensures old(WriteInterest())
              && Reply(events, state, result, old(Waiting(events, arrived, answer)), reply) == [] ==>
                WriteInterest()
      ensures wroteAfterClose <==> events.Writes() && events.Reads() && arrived == [] && socketError == 0
      ensures wroteAfterClose ==> old(state) == Connected && state == DisConnected
    {
      wroteAfterClose, threw := false, false;
      NothingAdded(accepted);
      NothingAdded(handed);
      if events.Closes() {
        HandleClose();
        return;
      }
      if events.error {
        return;
      }
      ReadPart(events, arrived, socketError, answer);
      wroteAfterClose, threw := WritePart(events, result, reply);
    }

    /** The bytes that wait when the write handler runs. */
    ghost function Waiting(events: Events, arrived: seq<Byte>, answer: seq<Byte>): seq<Byte>
      requires sendBuffer.Valid()
      reads this, sendBuffer, sendBuffer.buffer
    {
      sendBuffer.Contents() + Answer(events, state, arrived, answer)
    }
  }

  /** What the message callback adds to the stream. */
  function Answer(events: Events, state: ConnState, arrived: seq<Byte>, answer: seq<Byte>): seq<Byte> {
    if events.Reads() && state == Connected && arrived != [] then answer else []
  }

  /** What the write-complete callback adds to the stream. */
  function Reply(events: Events, state: ConnState, result: SocketWrite, waiting: seq<Byte>,
                 reply: seq<Byte>): seq<Byte>
  {
    if events.Writes() && state == Connected && Drains(result, waiting) then reply else []
  }

  lemma {:induction false} NothingAdded(stream: seq<Byte>)
    ensures stream + [] == stream
  {
  }

  lemma {:induction false} NothingBefore(data: seq<Byte>)
    ensures [] + data == data
  {
  }

  lemma {:induction false} AllHanded(handed: seq<Byte>, waiting: seq<Byte>)
    ensures handed == handed + waiting <==> waiting == []
  {
    assert |handed + waiting| == |handed| + |waiting|;
  }

  /** Bytes that move from the waiting ones to the ones handed over leave the whole stream as it is. */
  lemma {:induction false} HandOver(handed: seq<Byte>, waiting: seq<Byte>, n: nat)
    requires n <= |waiting|
    ensures (handed + waiting[..n]) + waiting[n..] == handed + waiting
    ensures waiting[n..] == [] <==> n == |waiting|
  {
    assert waiting[..n] + waiting[n..] == waiting;
  }
}
