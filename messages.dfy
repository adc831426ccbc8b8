/**
 * The four message variants exchanged between peers and the
 * `ChunkMetrics` time encoding (src/network/Message/).  Each variant is
 * immutable after construction; its Boost.Serialization payload is not
 * part of this model.
 */
module Messages {
  import opened Ints
  import opened Wrappers

  /**
   * `enum class MessageType : uint8_t`.  The enum lists TEXT,
   * FILE_METADATA and CHUNK; CHUNK_METRICS is used by ChunkMetrics and the
   * dispatcher, so it is modelled as the fourth enumerator.
   */
  datatype MessageType = TEXT | FILE_METADATA | CHUNK | CHUNK_METRICS

  /** The enumerator's underlying `uint8_t` value: declaration order from 0. */
  function TagByte(t: MessageType): (b: Byte)
    ensures b < 4
  {
    match t
    case TEXT => 0
    case FILE_METADATA => 1
    case CHUNK => 2
    case CHUNK_METRICS => 3
  }

  /** The enumerator whose underlying value is `b`, if there is one. */
  function TagType(b: Byte): (r: Option<MessageType>)
    ensures r.Some? <==> b < 4
    ensures r.Some? ==> TagByte(r.value) == b
  {
    if b == 0 then Some(TEXT)
    else if b == 1 then Some(FILE_METADATA)
    else if b == 2 then Some(CHUNK)
    else if b == 3 then Some(CHUNK_METRICS)
    else None
  }

  /** Distinct enumerators have distinct bytes, and every enumerator is read back from its byte. */
  lemma TagRoundTrip(t: MessageType)
    ensures TagType(TagByte(t)) == Some(t)
  {
  }

  /** A system-clock time point, as a count of nanoseconds since the epoch (libstdc++'s period). */
  type TimePoint = int

  const NANOS_PER_MICRO: nat := 1000

  datatype Message =
    | TextMessage(text: string)
    | FileMetadata(fileId: string, fileName: string, fileSize: nat, fileHash: string)
    | ChunkMessage(fileId: string, offset: nat, data: seq<Byte>)
      /** `receivedTime` is the stored `int64_t` count of microseconds since the epoch. */
    | ChunkMetrics(fileId: string, offset: nat, chunkSize: nat, receivedTime: int)
  {
    /** Each variant's `getType()`. */
    function Type(): MessageType
    {
      match this
      case TextMessage(_) => TEXT
      case FileMetadata(_, _, _, _) => FILE_METADATA
      case ChunkMessage(_, _, _) => CHUNK
      case ChunkMetrics(_, _, _, _) => CHUNK_METRICS
    }
  }

  /**
   * The ChunkMetrics constructor: keeps the file id, offset and chunk size,
   * and stores the time point as whole microseconds since the epoch,
   * truncated toward zero as `duration_cast` does.
   */
  function MakeChunkMetrics(fileId: string, offset: nat, chunkSize: nat, received: TimePoint): (m: Message)
    ensures m.ChunkMetrics? && m.Type() == CHUNK_METRICS
    ensures m.fileId == fileId && m.offset == offset && m.chunkSize == chunkSize
    ensures received >= 0 ==> 0 <= m.receivedTime * 1000 <= received < m.receivedTime * 1000 + 1000
    ensures received < 0 ==> m.receivedTime * 1000 - 1000 < received <= m.receivedTime * 1000 <= 0
  {
    TruncDivIsDiv(received, NANOS_PER_MICRO);
    ChunkMetrics(fileId, offset, chunkSize, TruncDiv(received, NANOS_PER_MICRO))
  }

  /** `getReceivedTime()`: the time point for the stored microsecond count. */
  function ReceivedTime(m: Message): (t: TimePoint)
    requires m.ChunkMetrics?
    ensures t % 1000 == 0
    ensures t / 1000 == m.receivedTime
  {
    m.receivedTime * NANOS_PER_MICRO
  }

  /** A microsecond-aligned time point survives the constructor and getReceivedTime unchanged. */
  lemma ReceivedTimeRoundTrip(fileId: string, offset: nat, chunkSize: nat, received: TimePoint)
    requires received % 1000 == 0
    ensures ReceivedTime(MakeChunkMetrics(fileId, offset, chunkSize, received)) == received
  {
    TruncDivExact(received / 1000, NANOS_PER_MICRO);
  }

  /** Otherwise the rebuilt time point is less than a microsecond from the original, toward the epoch. */
  lemma ReceivedTimeTruncates(fileId: string, offset: nat, chunkSize: nat, received: TimePoint)
    ensures var t := ReceivedTime(MakeChunkMetrics(fileId, offset, chunkSize, received));
            (received >= 0 ==> 0 <= t <= received < t + 1000) &&
            (received < 0 ==> t - 1000 < received <= t <= 0)
  {
  }
}
