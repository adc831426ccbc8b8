/**
 * Wire framing.  PeerConnection.hpp's `serializeMessage` lays a message out
 * as `[type: 1 byte][length: uint32][payload]`; PeerConnection.cpp's
 * `sendMessage` and `doRead` use `[length: uint32][payload]` with no type
 * byte.  Both layouts are modelled, each with the reader that inverts it.
 * The uint32 is in host byte order, taken to be little endian.
 */
module Framing {
  import opened Ints
  import opened Wrappers
  import opened Messages

  /** `sizeof(MessageType)`: the enum's underlying type is `uint8_t`. */
  const MESSAGE_TYPE_SIZE: nat := 1
  /** `sizeof(uint32_t)`. */
  const MESSAGE_LENGTH_SIZE: nat := 4

  /** `serializeMessage`: type byte, payload length cast to `uint32_t`, payload. */
  function TypedFrame(t: MessageType, payload: seq<Byte>): (f: seq<Byte>)
    ensures |f| == MESSAGE_TYPE_SIZE + MESSAGE_LENGTH_SIZE + |payload|
    ensures f[0] == TagByte(t)
    ensures DecodeUint32(f[1..5]) == |payload| % UINT32_LIMIT
    ensures f[5..] == payload
  {
    Uint32RoundTrip(|payload|);
    var f := [TagByte(t)] + EncodeUint32(|payload|) + payload;
    assert f[1..5] == EncodeUint32(|payload|);
    f
  }

  /** The framing `sendMessage` applies to a serialized TEXT message: length cast to `uint32_t`, then the bytes. */
  function LengthFrame(payload: seq<Byte>): (f: seq<Byte>)
    ensures |f| == MESSAGE_LENGTH_SIZE + |payload|
    ensures DecodeUint32(f[..4]) == |payload| % UINT32_LIMIT
    ensures f[4..] == payload
  {
    Uint32RoundTrip(|payload|);
    var f := EncodeUint32(|payload|) + payload;
    assert f[..4] == EncodeUint32(|payload|);
    f
  }

  /**
   * The reader the header declares (readMessageType, readMessageLength,
   * readMessageBody): one type byte, a four-byte length, then that many
   * body bytes.  None when the stream ends early or the type byte is not an
   * enumerator; otherwise the type, the body and the unread rest.
   */
  function ReadTypedFrame(stream: seq<Byte>): (r: Option<(MessageType, seq<Byte>, seq<Byte>)>)
    ensures r.Some? ==> |r.value.2| < |stream|
    ensures r.Some? ==> stream == TypedFrame(r.value.0, r.value.1) + r.value.2
  {
    if |stream| < MESSAGE_TYPE_SIZE + MESSAGE_LENGTH_SIZE then None
    else match TagType(stream[0])
      case None => None
      case Some(t) =>
        var n := DecodeUint32(stream[1..5]);
        if |stream| - 5 < n then None
        else
          Uint32BytesRoundTrip(stream[1..5]);
          assert stream == [stream[0]] + stream[1..5] + stream[5..5 + n] + stream[5 + n..];
          Some((t, stream[5..5 + n], stream[5 + n..]))
  }

  /** `doRead`: a four-byte length, then a body of exactly that many bytes. */
  function ReadLengthFrame(stream: seq<Byte>): (r: Option<(seq<Byte>, seq<Byte>)>)
    ensures r.Some? ==> |r.value.1| <= |stream| - MESSAGE_LENGTH_SIZE
    ensures r.Some? ==> stream == LengthFrame(r.value.0) + r.value.1
  {
    if |stream| < MESSAGE_LENGTH_SIZE then None
    else
      var n := DecodeUint32(stream[..4]);
      if |stream| - 4 < n then None
      else
        Uint32BytesRoundTrip(stream[..4]);
        assert stream == stream[..4] + stream[4..4 + n] + stream[4 + n..];
        Some((stream[4..4 + n], stream[4 + n..]))
  }

  /** A typed frame is read back as its type and payload, whatever follows it, when the payload fits a uint32 length. */
  lemma TypedFrameRoundTrip(t: MessageType, payload: seq<Byte>, rest: seq<Byte>)
    requires |payload| < UINT32_LIMIT
    ensures ReadTypedFrame(TypedFrame(t, payload) + rest) == Some((t, payload, rest))
  {
    var s := TypedFrame(t, payload) + rest;
    assert s[1..5] == TypedFrame(t, payload)[1..5];
    assert s[5..5 + |payload|] == payload;
    assert s[5 + |payload|..] == rest;
  }

  /** A length frame is read back as its payload, whatever follows it, when the payload fits a uint32 length. */
  lemma LengthFrameRoundTrip(payload: seq<Byte>, rest: seq<Byte>)
    requires |payload| < UINT32_LIMIT
    ensures ReadLengthFrame(LengthFrame(payload) + rest) == Some((payload, rest))
  {
    var s := LengthFrame(payload) + rest;
    assert s[..4] == LengthFrame(payload)[..4];
    assert s[4..4 + |payload|] == payload;
    assert s[4 + |payload|..] == rest;
  }

  /** With a payload of 2^32 bytes or more the length field wraps, so the reader returns a different body. */
  lemma OversizedPayloadMisread(payload: seq<Byte>, rest: seq<Byte>)
    requires |payload| >= UINT32_LIMIT
    ensures ReadLengthFrame(LengthFrame(payload) + rest) != Some((payload, rest))
  {
    var s := LengthFrame(payload) + rest;
    assert s[..4] == LengthFrame(payload)[..4];
  }

  /** The bytes a sequence of length frames puts on the wire, in order. */
  function Wire(payloads: seq<seq<Byte>>): (w: seq<Byte>)
    ensures |w| >= MESSAGE_LENGTH_SIZE * |payloads|
  {
    if payloads == [] then [] else LengthFrame(payloads[0]) + Wire(payloads[1..])
  }

  /** Reading length frames until the stream is used up; None if it ends inside a frame. */
  function ReadAllLengthFrames(stream: seq<Byte>): (r: Option<seq<seq<Byte>>>)
    decreases |stream|
  {
    if stream == [] then Some([])
    else match ReadLengthFrame(stream)
      case None => None
      case Some((body, rest)) =>
        match ReadAllLengthFrames(rest)
        case None => None
        case Some(bodies) => Some([body] + bodies)
  }

  /** Frames written one after another are read back one after another, in the order written. */
  lemma {:induction false} WireRoundTrip(payloads: seq<seq<Byte>>)
    requires forall i :: 0 <= i < |payloads| ==> |payloads[i]| < UINT32_LIMIT
    ensures ReadAllLengthFrames(Wire(payloads)) == Some(payloads)
  {
    if payloads != [] {
      LengthFrameRoundTrip(payloads[0], Wire(payloads[1..]));
      WireRoundTrip(payloads[1..]);
      assert [payloads[0]] + payloads[1..] == payloads;
    }
  }

  /** The wire of a concatenation is the concatenation of the wires. */
  lemma {:induction false} WireAppend(a: seq<seq<Byte>>, b: seq<seq<Byte>>)
    ensures Wire(a + b) == Wire(a) + Wire(b)
  {
    if a != [] {
      assert (a + b)[1..] == a[1..] + b;
      WireAppend(a[1..], b);
    } else {
      assert a + b == b;
    }
  }
}
