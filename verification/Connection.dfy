/**
 A connection: what the kernel takes and gives in arbitrary portions, and what the two buffers around it keep.  The
 kernel's answers are unconstrained within its contract, so the methods are proved for every schedule of partial
 sends and every chunking of the received bytes.
 */
module Connections {
  import opened Wrappers
  import opened ByteOrder
  import opened Protocol
  import opened Stream

  /** The receive buffer. */
  class Buffer {
    var buf: Bytes

    constructor ()
      ensures buf == []
    {
      buf := [];
    }

    method Append(data: Bytes)
      modifies this
      ensures buf == old(buf) + data
    {
      buf := buf + data;
    }

    /** One whole frame from the front, if the front is a whole well-headed frame; else nothing changes. */
    method TryPopFrame() returns (r: Option<Bytes>)
      modifies this
      ensures match Pop(old(buf))
              case Some(n) => r == Some(old(buf)[..n]) && buf == old(buf)[n..]
              case None => r == None && buf == old(buf)
    {
      if |buf| < 6 {
        return None;
      }
      if Get16(buf[..2]) != PROTOCOL_MAGIC {
        return None;
      }
      var totalLen := Get32(buf[2..6]);
      if totalLen < FRAME_HEADER_SIZE || totalLen > MAX_FRAME_SIZE {
        return None;
      }
      if |buf| < totalLen {
        return None;
      }
      var frame := buf[..totalLen];
      buf := buf[totalLen..];
      return Some(frame);
    }
  }

  /** One answer of recv. */
  datatype Recv = Data(bytes: Bytes) | Eof | WouldBlock | Interrupted | Failed

  /** What one round of reading appends before it ends. */
  function RoundBytes(answers: seq<Recv>): Bytes {
    if answers == [] then []
    else match answers[0]
      case Data(bytes) => bytes + RoundBytes(answers[1..])
      case Interrupted => RoundBytes(answers[1..])
      case _ => []
  }

  /** Whether the round ends by closing; answers that run out stand for a socket with nothing more to read. */
  predicate RoundCloses(answers: seq<Recv>) {
    answers != [] &&
    (answers[0].Eof? || answers[0].Failed? ||
     ((answers[0].Data? || answers[0].Interrupted?) && RoundCloses(answers[1..])))
  }

  /** send(): -1, or the number of bytes the kernel took. */
  method KernelSend(len: nat) returns (n: int)
    ensures -1 <= n <= len
  {
    n :| -1 <= n <= len;
  }

  method KernelWouldBlock() returns (again: bool)
  {
    again := *;
  }

  lemma Associative(a: Bytes, b: Bytes, c: Bytes)
    ensures (a + b) + c == a + (b + c)
  {
  }

  class Connection {
    const readBuffer: Buffer
    var writeBuffer: Bytes
    var writeOffset: nat
    /** Whether EPOLLOUT is asked for. */
    var armed: bool
    var closed: bool

    /** All bytes given to Send, the bytes the kernel took, the bytes recv gave, the frames called back. */
    ghost var queued: Bytes
    ghost var wire: Bytes
    ghost var received: Bytes
    ghost var delivered: seq<Frame>

    ghost predicate Valid()
      reads this, readBuffer
    {
      && writeOffset <= |writeBuffer| && (writeBuffer == [] || writeOffset < |writeBuffer|)
      && wire + Unsent() == queued
      && (writeBuffer != [] && !closed ==> armed)
      && delivered <= Delivery(received)
      && (!closed ==> delivered == Delivery(received) && readBuffer.buf == Rest(received))
    }

    ghost function Unsent(): Bytes
      reads this
      requires writeOffset <= |writeBuffer|
    {
      writeBuffer[writeOffset..]
    }

    constructor ()
      ensures Valid() && fresh(readBuffer)
      ensures !closed && queued == [] && wire == [] && received == [] && delivered == []
    {
      readBuffer := new Buffer();
      writeBuffer, writeOffset, armed, closed := [], 0, false, false;
      queued, wire, received, delivered := [], [], [], [];
      new;
      EmptyHasNoHead();
    }

    /** Queues data behind what is unsent; the wire only grows, and the order of the bytes is the order of Send. */
    method Send(data: Bytes)
      requires Valid() && !closed
      modifies this
      ensures Valid() && !closed
      ensures queued == old(queued) + data && old(wire) <= wire
      ensures received == old(received) && delivered == old(delivered)
    {
      hide Delivery, Rest, Pop, Get16, Get32;
      ghost var w, u := wire, Unsent();
      Associative(w, u, data);
      queued := queued + data;
      assert queued == w + (u + data);
      if writeBuffer == [] {
        assert u == [] && u + data == data;
        var n := KernelSend(|data|);
        if n == |data| {
          wire := wire + data;
          assert wire + [] == wire;
          return;
        }
        if n > 0 {
          Associative(w, data[..n], data[n..]);
          assert data == data[..n] + data[n..];
          wire := wire + data[..n];
          writeBuffer := writeBuffer + data[n..];
        } else {
          writeBuffer := writeBuffer + data;
        }
      } else {
        assert (writeBuffer + data)[writeOffset..] == u + data;
        writeBuffer := writeBuffer + data;
      }
      armed := true;
    }

    /** Sends from the write buffer until it is empty, the kernel is full, or the connection fails. */
    method OnWrite()
      requires Valid() && !closed
      modifies this
      ensures Valid()
      ensures queued == old(queued) && old(wire) <= wire
      ensures received == old(received) && delivered == old(delivered)
      ensures !closed && !armed && old(armed) ==> wire == queued
    {
      hide Delivery, Rest, Pop, Get16, Get32;
      while writeBuffer != []
        invariant Valid() && !closed
        invariant queued == old(queued) && old(wire) <= wire
        invariant received == old(received) && delivered == old(delivered)
        invariant armed == old(armed)
        decreases |writeBuffer| - writeOffset
      {
        var remaining := |writeBuffer| - writeOffset;
        var n := KernelSend(remaining);
        if n > 0 {
          ghost var u := Unsent();
          assert u == u[..n] + u[n..] && writeBuffer[writeOffset + n..] == u[n..];
          Associative(wire, u[..n], u[n..]);
          wire := wire + u[..n];
          writeOffset := writeOffset + n;
          if writeOffset >= |writeBuffer| {
            writeBuffer, writeOffset, armed := [], 0, false;
            return;
          }
        } else {
          var again := KernelWouldBlock();
          if n == -1 && again {
            return;
          }
          OnClose();
          return;
        }
      }
    }

    method OnClose()
      modifies this`closed
      ensures closed
    {
      closed := true;
    }

    /**
     One round of reading.  A round that ends with nothing more to read hands over every whole frame; a round that ends
     by closing hands over none, not even frames it had completed.
     */
    method OnRead(answers: seq<Recv>)
      requires Valid() && !closed
      requires forall a :: a in answers && a.Data? ==> 1 <= |a.bytes| <= 4096
      modifies this, readBuffer
      ensures Valid()
      ensures received == old(received) + RoundBytes(answers)
      ensures closed == RoundCloses(answers)
      ensures delivered == if closed then old(delivered) else Delivery(received)
      ensures delivered == Delivery(received) <==> !RoundCloses(answers) || Delivery(received) == old(delivered)
      ensures queued == old(queued) && wire == old(wire)
    {
      hide Pop, Delivery, Rest;
      var i := 0;
      while i < |answers|
        invariant i <= |answers|
        invariant old(received) <= received
        invariant readBuffer.buf == old(readBuffer.buf) + received[|old(received)|..]
        invariant received + RoundBytes(answers[i..]) == old(received) + RoundBytes(answers)
        invariant RoundCloses(answers) == RoundCloses(answers[i..])
        invariant unchanged(this`writeBuffer, this`writeOffset, this`armed, this`closed)
        invariant unchanged(this`queued, this`wire, this`delivered)
      {
        var answer := answers[i];
        assert answers[i..][1..] == answers[i + 1..];
        i := i + 1;
        match answer {
          case Data(bytes) =>
            readBuffer.Append(bytes);
            received := received + bytes;
          case Interrupted =>
          case WouldBlock =>
            break;
          case _ =>
            KeepsDelivered(old(received), received);
            OnClose();
            return;
        }
      }
      ghost var arrived := received[|old(received)|..];
      assert received == old(received) + arrived;
      DeliveryAppend(old(received), arrived);
      CutAppend(old(received), arrived);
      Drain();
    }

    lemma KeepsDelivered(before: Bytes, now: Bytes)
      requires before <= now
      ensures Delivery(before) <= Delivery(now)
    {
      assert now == before + now[|before|..];
      DeliveryAppend(before, now[|before|..]);
    }

    /** Pops, decodes and calls back until the buffer holds no whole frame; each pop takes at least 13 bytes. */
    method Drain()
      modifies readBuffer, this`delivered
      ensures delivered == old(delivered) + Delivery(old(readBuffer.buf))
      ensures readBuffer.buf == Rest(old(readBuffer.buf))
    {
      hide *;
      var more := true;
      while more
        invariant old(delivered) + Delivery(old(readBuffer.buf)) == delivered + Delivery(readBuffer.buf)
        invariant Rest(old(readBuffer.buf)) == Rest(readBuffer.buf)
        invariant !more ==> Delivery(readBuffer.buf) == [] && Rest(readBuffer.buf) == readBuffer.buf
        decreases more, |readBuffer.buf|
      {
        more := HandleOne();
      }
    }

    /** One turn of the draining loop. */
    method HandleOne() returns (more: bool)
      modifies readBuffer, this`delivered
      ensures more ==> |readBuffer.buf| < old(|readBuffer.buf|)
      ensures !more ==> readBuffer.buf == old(readBuffer.buf) && delivered == old(delivered)
      ensures !more ==> Delivery(readBuffer.buf) == [] && Rest(readBuffer.buf) == readBuffer.buf
      ensures Rest(readBuffer.buf) == Rest(old(readBuffer.buf))
      ensures delivered + Delivery(readBuffer.buf) == old(delivered) + Delivery(old(readBuffer.buf))
    {
      hide *;
      ghost var s, d := readBuffer.buf, delivered;
      PopStep(s);
      var piece := readBuffer.TryPopFrame();
      match piece {
        case None =>
          return false;
        case Some(raw) =>
          var frame := Decode(raw);
          ghost var later := Delivery(readBuffer.buf);
          if frame.Some? {
            delivered := delivered + [frame.value];
            assert delivered + later == d + ([frame.value] + later);
          } else {
            assert [] + later == later;
          }
          return true;
      }
    }
  }

  /** A frame that arrives whole in a round that also brings the end of the stream is lost. */
  method ClosingRoundLoses(f: Frame) returns (c: Connection)
    requires Encodable(f) && Size(f) <= 4096
    ensures c.Valid() && c.closed && c.received == Encoded(f)
    ensures Delivery(c.received) == [f] && c.delivered == []
  {
    hide Delivery, Rest, Encoded, Encodable, Pop;
    c := new Connection();
    Layout(f);
    WholeFrame(f);
    var bytes := Encode(f.requestId, f.msgType, f.methodName, f.body);
    var answers := [Data(bytes), Eof];
    assert answers[1..] == [Eof] && RoundBytes([Eof]) == [];
    assert RoundBytes(answers) == bytes + [];
    c.OnRead(answers);
  }

  lemma WholeFrame(f: Frame)
    requires Encodable(f)
    ensures Delivery(Encoded(f)) == [f]
  {
    hide Delivery, Rest, Encoded, Encodable, Pop;
    var bytes := Encoded(f);
    var one: seq<Bytes> := [bytes];
    assert AllEncoded([f]) == one;
    assert one[1..] == [] && Concat(one) == bytes + [];
    EndToEnd([f], bytes, bytes, [], bytes);
  }

  /** Two ends of a stream: what the receiver has called back is what was sent, in order, as far as it has read. */
  lemma TwoEnds(sender: Connection, receiver: Connection, sent: seq<Frame>)
    requires sender.Valid() && receiver.Valid() && forall f :: f in sent ==> Encodable(f)
    requires sender.queued == Concat(AllEncoded(sent)) && receiver.received <= sender.wire
    ensures receiver.delivered <= sent
    ensures !receiver.closed && receiver.received == sender.queued ==> receiver.delivered == sent
  {
    hide Delivery, Rest, Encoded, Encodable, AllEncoded, Concat;
    EndToEnd(sent, sender.queued, sender.wire, sender.Unsent(), receiver.received);
  }

  /** What one pop contributes to the delivery. */
  lemma PopStep(s: Bytes)
    ensures match Pop(s)
            case None => Delivery(s) == [] && Rest(s) == s
            case Some(n) =>
              && 0 < n
              && Delivery(s) == (match Meaning(s[..n]) case Some(f) => [f] case None => []) + Delivery(s[n..])
              && Rest(s) == Rest(s[n..])
  {
    hide Meaning;
    match Pop(s)
    case None =>
    case Some(n) =>
      hide Pop;
      assert Pieces(s)[1..] == Pieces(s[n..]);
  }
}
