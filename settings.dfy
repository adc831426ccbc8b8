/**
 * Socket tuning policy (NetworkSettings.hpp): window size, Nagle, keep-alive,
 * reuse-address and the two socket buffer sizes, which `updateBufferSizes`
 * derives from the current chunk size.  Applying the settings to a socket
 * is not part of this model.
 */
module Settings {
  import opened Ints

  /** A C++ `int`. */
  type Int32 = x: int | -0x8000_0000 <= x < 0x8000_0000

  const DEFAULT_WINDOW_SIZE: Int32 := 65536
  const DEFAULT_BUFFER_SIZE: Int32 := 1048576
  const MIN_BUFFER_SIZE: nat := 8192
  const MAX_BUFFER_SIZE: nat := 16777216

  /** A copy of a NetworkSettings object (the class is copied by value into each connection). */
  datatype SettingsValue = SettingsValue(
    windowSize: Int32, disableNagle: bool, keepAlive: bool, reuseAddress: bool,
    sendBufferSize: Int32, receiveBufferSize: Int32, minBufferSize: nat, maxBufferSize: nat)

  /** `current_chunk_size * 2` in `size_t`, which wraps modulo 2^64. */
  function DoubledChunk(chunk: nat): (r: nat)
    requires chunk < UINT64_LIMIT
    ensures r < UINT64_LIMIT
    ensures chunk < UINT64_LIMIT / 2 ==> r == 2 * chunk
  {
    (chunk * 2) % UINT64_LIMIT
  }

  /** `std::clamp(v, lo, hi)`, defined for lo <= hi. */
  function Clamp(v: nat, lo: nat, hi: nat): (r: nat)
    requires lo <= hi
    ensures lo <= r <= hi
    ensures lo <= v <= hi ==> r == v
    ensures v < lo ==> r == lo
    ensures hi < v ==> r == hi
  {
    if v < lo then lo else if hi < v then hi else v
  }

  /** The buffer size `updateBufferSizes` picks for a chunk size. */
  function BufferSizeFor(chunk: nat, lo: nat, hi: nat): nat
    requires chunk < UINT64_LIMIT && lo <= hi
  {
    Clamp(DoubledChunk(chunk), lo, hi)
  }

  /** A larger chunk never gets a smaller buffer, as long as doubling it does not wrap. */
  lemma BufferSizeMonotone(c1: nat, c2: nat, lo: nat, hi: nat)
    requires c1 <= c2 < UINT64_LIMIT / 2 && lo <= hi
    ensures BufferSizeFor(c1, lo, hi) <= BufferSizeFor(c2, lo, hi)
  {
  }

  /** A chunk of 2^63 bytes or more wraps when doubled: 2^63 gets the minimum buffer. */
  lemma BufferSizeWrapsAtHalfRange()
    ensures BufferSizeFor(UINT64_LIMIT / 2, MIN_BUFFER_SIZE, MAX_BUFFER_SIZE) == MIN_BUFFER_SIZE
  {
  }

  /** The settings after `updateBufferSizes(chunk)`: both buffers set to the clamped size, all else kept. */
  function Updated(v: SettingsValue, chunk: nat): (r: SettingsValue)
    requires chunk < UINT64_LIMIT && v.minBufferSize <= v.maxBufferSize < 0x8000_0000
    ensures r.sendBufferSize == r.receiveBufferSize
    ensures v.minBufferSize <= r.sendBufferSize <= v.maxBufferSize
    ensures r.windowSize == v.windowSize && r.disableNagle == v.disableNagle
    ensures r.keepAlive == v.keepAlive && r.reuseAddress == v.reuseAddress
    ensures r.minBufferSize == v.minBufferSize && r.maxBufferSize == v.maxBufferSize
  {
    var b := BufferSizeFor(chunk, v.minBufferSize, v.maxBufferSize);
    v.(sendBufferSize := b, receiveBufferSize := b)
  }

  /** Updating twice for the same chunk size is the same as updating once. */
  lemma UpdatedIdempotent(v: SettingsValue, chunk: nat)
    requires chunk < UINT64_LIMIT && v.minBufferSize <= v.maxBufferSize < 0x8000_0000
    ensures Updated(Updated(v, chunk), chunk) == Updated(v, chunk)
  {
  }

  /** The result depends only on the chunk size, not on the buffer sizes held before. */
  lemma UpdatedForgetsBuffers(v: SettingsValue, w: SettingsValue, chunk: nat)
    requires chunk < UINT64_LIMIT && v.minBufferSize <= v.maxBufferSize < 0x8000_0000
    requires w == v.(sendBufferSize := w.sendBufferSize, receiveBufferSize := w.receiveBufferSize)
    ensures Updated(v, chunk) == Updated(w, chunk)
  {
  }

  class NetworkSettings {
    var windowSize: Int32
    var disableNagle: bool
    var keepAlive: bool
    var reuseAddress: bool
    var sendBufferSize: Int32
    var receiveBufferSize: Int32
    var minBufferSize: nat
    var maxBufferSize: nat

    /** The buffer bounds are never changed after construction; they satisfy what `std::clamp` needs. */
    ghost predicate Valid()
      reads this
    {
      minBufferSize == MIN_BUFFER_SIZE && maxBufferSize == MAX_BUFFER_SIZE
    }

    function Value(): SettingsValue
      reads this
    {
      SettingsValue(windowSize, disableNagle, keepAlive, reuseAddress,
                    sendBufferSize, receiveBufferSize, minBufferSize, maxBufferSize)
    }

    /** The defaults: 64 KiB window, Nagle disabled, keep-alive and reuse on, 1 MiB buffers within [8 KiB, 16 MiB]. */
    constructor ()
      ensures Valid()
      ensures Value() == SettingsValue(65536, true, true, true, 1048576, 1048576, 8192, 16777216)
    {
      windowSize := DEFAULT_WINDOW_SIZE;
      disableNagle := true;
      keepAlive := true;
      reuseAddress := true;
      sendBufferSize := DEFAULT_BUFFER_SIZE;
      receiveBufferSize := DEFAULT_BUFFER_SIZE;
      minBufferSize := MIN_BUFFER_SIZE;
      maxBufferSize := MAX_BUFFER_SIZE;
    }

    function GetWindowSize(): Int32 reads this { windowSize }
    function GetDisableNagle(): bool reads this { disableNagle }
    function GetKeepAlive(): bool reads this { keepAlive }
    function GetReuseAddress(): bool reads this { reuseAddress }
    function GetSendBufferSize(): Int32 reads this { sendBufferSize }
    function GetReceiveBufferSize(): Int32 reads this { receiveBufferSize }

    method SetWindowSize(size: Int32)
      modifies this`windowSize
      ensures GetWindowSize() == size
    {
      windowSize := size;
    }

    method SetDisableNagle(disable: bool)
      modifies this`disableNagle
      ensures GetDisableNagle() == disable
    {
      disableNagle := disable;
    }

    method SetKeepAlive(enable: bool)
      modifies this`keepAlive
      ensures GetKeepAlive() == enable
    {
      keepAlive := enable;
    }

    method SetReuseAddress(enable: bool)
      modifies this`reuseAddress
      ensures GetReuseAddress() == enable
    {
      reuseAddress := enable;
    }

    method SetSendBufferSize(size: Int32)
      modifies this`sendBufferSize
      ensures GetSendBufferSize() == size
    {
      sendBufferSize := size;
    }

    method SetReceiveBufferSize(size: Int32)
      modifies this`receiveBufferSize
      ensures GetReceiveBufferSize() == size
    {
      receiveBufferSize := size;
    }

    /** The implicit copy assignment: every field takes the other object's value. */
    method Assign(v: SettingsValue)
      requires v.minBufferSize == MIN_BUFFER_SIZE && v.maxBufferSize == MAX_BUFFER_SIZE
      modifies this
      ensures Valid() && Value() == v
    {
      windowSize, disableNagle, keepAlive, reuseAddress := v.windowSize, v.disableNagle, v.keepAlive, v.reuseAddress;
      sendBufferSize, receiveBufferSize := v.sendBufferSize, v.receiveBufferSize;
      minBufferSize, maxBufferSize := v.minBufferSize, v.maxBufferSize;
    }

    /**
     * `updateBufferSizes`: both socket buffers become twice the chunk size
     * clamped to [min, max]; nothing else changes.
     */
    method UpdateBufferSizes(currentChunkSize: nat)
      requires Valid() && currentChunkSize < UINT64_LIMIT
      modifies this`sendBufferSize, this`receiveBufferSize
      ensures Valid()
      ensures Value() == Updated(old(Value()), currentChunkSize)
      ensures MIN_BUFFER_SIZE <= GetSendBufferSize() == GetReceiveBufferSize() <= MAX_BUFFER_SIZE
    {
      var optimalBufferSize := DoubledChunk(currentChunkSize);
      optimalBufferSize := Clamp(optimalBufferSize, minBufferSize, maxBufferSize);
      SetSendBufferSize(optimalBufferSize);
      SetReceiveBufferSize(optimalBufferSize);
    }
  }
}
