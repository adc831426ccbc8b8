/**
 * One peer connection (PeerConnection.cpp): a FIFO write queue with an
 * "in flight" flag and a two-step "length, then body" reader.  Asio
 * completions are explicit events: `HandleWrite(ok)` is the completion of
 * the outstanding `async_write`, `OnLengthRead` and `OnBodyRead` the
 * completions of the two `async_read`s; the bytes they deliver are
 * parameters.
 */
module Connection {
  import opened Ints
  import opened Messages
  import opened Framing

  /** Which `async_read` is outstanding. */
  datatype ReadState = Idle | AwaitingLength | AwaitingBody

  /** The frames sent for a sequence of serialized messages. */
  function Frames(payloads: seq<seq<Byte>>): (fs: seq<seq<Byte>>)
    ensures |fs| == |payloads|
    ensures forall i :: 0 <= i < |payloads| ==> fs[i] == LengthFrame(payloads[i])
  {
    if payloads == [] then [] else [LengthFrame(payloads[0])] + Frames(payloads[1..])
  }

  lemma FramesAppend(payloads: seq<seq<Byte>>, p: seq<Byte>)
    ensures Frames(payloads + [p]) == Frames(payloads) + [LengthFrame(p)]
  {
    var l, r := Frames(payloads + [p]), Frames(payloads) + [LengthFrame(p)];
    assert |l| == |r|;
    forall i | 0 <= i < |l| ensures l[i] == r[i] {
      if i < |payloads| { assert (payloads + [p])[i] == payloads[i]; }
    }
  }

  /** The byte stream made by writing buffers one after another. */
  function Concat(bufs: seq<seq<Byte>>): seq<Byte>
  {
    if bufs == [] then [] else bufs[0] + Concat(bufs[1..])
  }

  /**
   * Whatever prefix of the frames has been written, the bytes on the wire
   * are exactly the wire encoding of the messages sent so far, in the
   * order they were sent.
   */
  lemma {:induction false} WrittenIsWirePrefix(payloads: seq<seq<Byte>>, written: seq<seq<Byte>>, queued: seq<seq<Byte>>)
    requires written + queued == Frames(payloads)
    ensures |written| <= |payloads|
    ensures Concat(written) == Wire(payloads[..|written|])
  {
    assert |written| <= |payloads|;
    if written != [] {
      assert written[0] == LengthFrame(payloads[0]);
      assert written[1..] + queued == Frames(payloads[1..]) by {
        assert (written + queued)[1..] == written[1..] + queued;
      }
      WrittenIsWirePrefix(payloads[1..], written[1..], queued);
      assert payloads[1..][..|written| - 1] == payloads[..|written|][1..];
    } else {
      assert payloads[..0] == [];
    }
  }

  /** `std::vector::resize`: keeps a prefix, or pads with zero bytes. */
  function Resized(buf: seq<Byte>, n: nat): (r: seq<Byte>)
    ensures |r| == n
    ensures forall i :: 0 <= i < n && i < |buf| ==> r[i] == buf[i]
    ensures forall i :: |buf| <= i < n ==> r[i] == 0
  {
    if n <= |buf| then buf[..n] else buf + seq(n - |buf|, _ => 0)
  }

  /** The frames written so far followed by the queued ones are the frames of every message sent, in order. */
  ghost predicate QueueMatches(written: seq<seq<Byte>>, queue: seq<seq<Byte>>, sent: seq<seq<Byte>>)
  {
    written + queue == Frames(sent)
  }

  /** Moving the front queued frame to the written ones keeps the match. */
  lemma QueueAdvance(written: seq<seq<Byte>>, queue: seq<seq<Byte>>, sent: seq<seq<Byte>>)
    requires queue != [] && QueueMatches(written, queue, sent)
    ensures QueueMatches(written + [queue[0]], queue[1..], sent)
  {
    assert written + [queue[0]] + queue[1..] == written + queue;
  }

  /** Sending one more message queues its frame behind the others. */
  lemma QueueAppend(written: seq<seq<Byte>>, queue: seq<seq<Byte>>, sent: seq<seq<Byte>>, p: seq<Byte>)
    requires QueueMatches(written, queue, sent)
    ensures QueueMatches(written, queue + [LengthFrame(p)], sent + [p])
  {
    FramesAppend(sent, p);
  }

  /** The length is a `uint32_t`, and while a body is awaited the buffer has exactly that length. */
  predicate ReaderMatches(state: ReadState, buffer: seq<Byte>, length: nat)
  {
    IsUint32(length) && (state == AwaitingBody ==> |buffer| == length)
  }

  class PeerConnection {
    /** `write_queue_`: framed buffers not yet fully written; the front one is being written. */
    var writeQueue: seq<seq<Byte>>
    /** `is_writing_`. */
    var isWriting: bool
    /** False once `stop()` has closed the socket. */
    var isOpen: bool
    /** `read_buffer_`. */
    var readBuffer: seq<Byte>
    /** `message_length_`, a `uint32_t`. */
    var messageLength: nat
    var readState: ReadState
    /** The bodies handed to the message handler, oldest first. */
    var delivered: seq<seq<Byte>>

    /** Every serialized message accepted by `sendMessage`, oldest first. */
    ghost var Sent: seq<seq<Byte>>
    /** The frames whose write completed, i.e. what reached the socket, oldest first. */
    ghost var Written: seq<seq<Byte>>

    ghost predicate Valid()
      reads this
    {
      && isWriting == (writeQueue != [])
      && QueueMatches(Written, writeQueue, Sent)
      && ReaderMatches(readState, readBuffer, messageLength)
    }

    /** The constructor: nothing queued, no write in flight, a 1024-byte read buffer. */
    constructor ()
      ensures Valid()
      ensures writeQueue == [] && !isWriting && isOpen
      ensures |readBuffer| == 1024 && readState == Idle && delivered == []
      ensures Sent == [] && Written == []
    {
      writeQueue := [];
      isWriting := false;
      isOpen := true;
      readBuffer := seq(1024, _ => 0);
      messageLength := 0;
      readState := Idle;
      delivered := [];
      Sent := [];
      Written := [];
    }

    /**
     * `sendMessage(message)`, where `serialized` is what the message's
     * `serialize()` produced.  Only TEXT messages are accepted; the frame
     * goes to the back of the queue, and a write starts only if the queue
     * was empty.
     */
    method SendMessage(m: Message, serialized: seq<Byte>)
      requires Valid()
      modifies this`writeQueue, this`Sent, this`isWriting
      ensures Valid()
      ensures m.Type() != TEXT ==> writeQueue == old(writeQueue) && Sent == old(Sent)
      ensures m.Type() == TEXT ==> writeQueue == old(writeQueue) + [LengthFrame(serialized)] && Sent == old(Sent) + [serialized]
      ensures isWriting
        <==> (old(isWriting) || m.Type() == TEXT)
      ensures Written == old(Written) && delivered == old(delivered) && isOpen == old(isOpen)
      ensures readState == old(readState) && readBuffer == old(readBuffer) && messageLength == old(messageLength)
    {
      if m.Type() != TEXT {
        return;
      }
      var frame := LengthFrame(serialized);
      var writeInProgress := writeQueue != [];
      QueueAppend(Written, writeQueue, Sent, serialized);
      writeQueue := writeQueue + [frame];
      Sent := Sent + [serialized];
      if !writeInProgress {
        DoWrite();
      }
    }

    /** `doWrite`: starts writing the front frame, or records that nothing is being written. */
    method DoWrite()
      modifies this`isWriting
      ensures isWriting == (writeQueue != [])
    {
      if writeQueue == [] {
        isWriting := false;
        return;
      }
      isWriting := true;
    }

    /**
     * `handleWrite`: completion of the outstanding write.  On success the
     * front frame has reached the socket; it is popped and the next write
     * starts.  On error the connection stops and the queue is kept.
     */
    method HandleWrite(ok: bool)
      requires Valid() && isWriting
      modifies this`Written, this`writeQueue, this`isWriting, this`isOpen
      ensures Valid()
      ensures ok ==> Written == old(Written) + [old(writeQueue)[0]] && writeQueue == old(writeQueue)[1..]
      ensures ok ==> isOpen == old(isOpen)
      ensures !ok ==> Written == old(Written) && writeQueue == old(writeQueue) && !isOpen
      ensures Sent == old(Sent) && delivered == old(delivered)
      ensures readState == old(readState) && readBuffer == old(readBuffer) && messageLength == old(messageLength)
    {
      if ok {
        QueueAdvance(Written, writeQueue, Sent);
        Written := Written + [writeQueue[0]];
        writeQueue := writeQueue[1..];
        DoWrite();
      } else {
        Stop();
      }
    }

    /** `stop`: closes the socket. */
    method Stop()
      modifies this`isOpen
      ensures !isOpen
    {
      isOpen := false;
    }

    /** `start` / `doRead`: arms the read of a four-byte length. */
    method DoRead()
      requires Valid()
      modifies this`readState
      ensures Valid() && readState == AwaitingLength
    {
      readState := AwaitingLength;
    }

    /**
     * Completion of the length read.  On success the length is decoded and
     * the read buffer resized to exactly that many bytes before the body
     * read is armed; on error the connection stops.
     */
    method OnLengthRead(ok: bool, lengthBytes: seq<Byte>)
      requires Valid() && readState == AwaitingLength && |lengthBytes| == MESSAGE_LENGTH_SIZE
      modifies this`messageLength, this`readBuffer, this`readState, this`isOpen
      ensures Valid()
      ensures ok ==> messageLength == DecodeUint32(lengthBytes) && readState == AwaitingBody
      ensures ok ==> readBuffer == Resized(old(readBuffer), messageLength) && isOpen == old(isOpen)
      ensures !ok ==> !isOpen && readState == Idle && readBuffer == old(readBuffer)
      ensures delivered == old(delivered) && writeQueue == old(writeQueue) && isWriting == old(isWriting)
      ensures Sent == old(Sent) && Written == old(Written)
    {
      if ok {
        messageLength := DecodeUint32(lengthBytes);
        readBuffer := Resized(readBuffer, messageLength);
        readState := AwaitingBody;
      } else {
        Stop();
        readState := Idle;
      }
    }

    /**
     * `handleRead`: completion of the body read.  On success the body is
     * handed to the message handler and the next length read is armed; on
     * error the connection stops and reading ends.
     */
    method OnBodyRead(ok: bool, body: seq<Byte>)
      requires Valid() && readState == AwaitingBody && |body| == |readBuffer|
      modifies this`readBuffer, this`delivered, this`readState, this`isOpen
      ensures Valid()
      ensures ok ==> delivered == old(delivered) + [body] && readState == AwaitingLength
      ensures ok ==> readBuffer == body && isOpen == old(isOpen)
      ensures !ok ==> delivered == old(delivered) && readState == Idle && !isOpen
      ensures writeQueue == old(writeQueue) && isWriting == old(isWriting)
      ensures Sent == old(Sent) && Written == old(Written)
    {
      if ok {
        readBuffer := body;
        delivered := delivered + [body];
        DoRead();
      } else {
        Stop();
        readState := Idle;
      }
    }
  }

  /** A length read followed by a body read of the same frame hands the sender's bytes to the handler. */
  method ReceiveOneFrame(c: PeerConnection, payload: seq<Byte>)
    requires c.Valid() && c.readState == AwaitingLength && |payload| < UINT32_LIMIT
    modifies c
    ensures c.Valid() && c.delivered == old(c.delivered) + [payload] && c.readState == AwaitingLength
  {
    var frame := LengthFrame(payload);
    c.OnLengthRead(true, frame[..4]);
    c.OnBodyRead(true, frame[4..]);
  }
}
