/**
 * The file-transfer engine (FileTransfer.cpp).  A table of active
 * transfers keyed by file id; each entry records the file path, the peer,
 * the current offset, the file size, whether this side sends, whether the
 * transfer is paused, and the transfer's own chunk-size optimizer.  The
 * three callbacks (chunk ready, metadata ready, transfer complete) are
 * appended to an event log.  The filesystem is the store of the Storage
 * module.
 */
module Transfer {
  import opened Ints
  import opened Messages
  import opened Storage
  import opened Optimizer

  const MIN_CHUNK_SIZE: nat := 1024
  const MAX_CHUNK_SIZE: nat := 10485760

  /** `TransferInfo`; the optimizer is owned by the entry (a `unique_ptr`). */
  datatype TransferInfo = TransferInfo(
    filePath: Path, peerId: string, currentOffset: nat, fileSize: nat,
    isSending: bool, isPaused: bool, optimizer: ChunkSizeOptimizer)

  /** One callback invocation. */
  datatype TransferEvent =
    | MetadataReady(metadata: Message)
    | ChunkReady(chunk: Message)
    | TransferComplete(fileId: string, success: bool)

  /** What the engine's operations change: the table, the files, the callbacks made. */
  datatype EngineState = EngineState(active: map<string, TransferInfo>, store: Store, events: seq<TransferEvent>)

  /** No transfer's offset is past its file size. */
  predicate OffsetsInRange(active: map<string, TransferInfo>)
  {
    forall id :: id in active ==> active[id].currentOffset <= active[id].fileSize
  }

  function Pow2(k: nat): (p: nat)
    ensures p >= 1
  {
    if k == 0 then 1 else 2 * Pow2(k - 1)
  }

  lemma {:induction false} Pow2Monotone(j: nat, k: nat)
    requires j <= k
    ensures Pow2(j) <= Pow2(k)
    decreases k
  {
    if j < k {
      Pow2Monotone(j, k - 1);
    }
  }

  /**
   * The candidate list: the doubling sequence from MIN_CHUNK_SIZE, stopped
   * at the last value not above MAX_CHUNK_SIZE.
   */
  predicate IsDoubling(s: seq<nat>)
  {
    && |s| > 0
    && s[0] == MIN_CHUNK_SIZE
    && (forall k :: 0 <= k < |s| - 1 ==> s[k + 1] == 2 * s[k])
    && s[|s| - 1] <= MAX_CHUNK_SIZE < 2 * s[|s| - 1]
  }

  lemma {:induction false} DoublingIsPow2(s: seq<nat>, k: nat)
    requires IsDoubling(s) && k < |s|
    ensures s[k] == 1024 * Pow2(k)
  {
    if k > 0 {
      DoublingIsPow2(s, k - 1);
    }
  }

  /** Only 2^13 lies in the window where 1024 * 2^n fits MAX_CHUNK_SIZE and twice it does not. */
  lemma Pow2Window(n: nat)
    ensures 1024 * Pow2(n) <= MAX_CHUNK_SIZE < 2048 * Pow2(n) ==> n == 13
  {
    assert Pow2(13) == 8192 && Pow2(14) == 16384;
    if n <= 12 {
      Pow2Monotone(n + 1, 13);
    } else if n >= 14 {
      Pow2Monotone(14, n);
    }
  }

  /**
   * The candidate list has exactly fourteen sizes, 1024 * 2^k for k = 0 .. 13
   * (1 KiB to 8 MiB).
   */
  lemma DoublingTable(s: seq<nat>)
    requires IsDoubling(s)
    ensures |s| == 14
    ensures forall k :: 0 <= k < |s| ==> s[k] == 1024 * Pow2(k)
  {
    forall k | 0 <= k < |s| ensures s[k] == 1024 * Pow2(k) {
      DoublingIsPow2(s, k);
    }
    Pow2Window(|s| - 1);
  }

  /** The doubling list is exactly the written-out candidate list. */
  lemma DoublingIsTheList(s: seq<nat>)
    requires IsDoubling(s)
    ensures s == DOUBLINGS
  {
    DoublingTable(s);
    DoublingsArePow2();
    assert forall k :: 0 <= k < 14 ==> s[k] == DOUBLINGS[k];
  }

  /** The candidate sizes strictly increase. */
  lemma DoublingIncreasing(s: seq<nat>)
    requires IsDoubling(s)
    ensures forall i, j :: 0 <= i < j < |s| ==> s[i] < s[j]
  {
    forall i, j | 0 <= i < j < |s| ensures s[i] < s[j] {
      DoublingIsPow2(s, i);
      DoublingIsPow2(s, j);
      Pow2Monotone(i + 1, j);
    }
  }

  /**
   * `generatePossibleChunkSizes`: from MIN_CHUNK_SIZE, doubling, while not
   * above MAX_CHUNK_SIZE.
   */
  method GeneratePossibleChunkSizes() returns (sizes: seq<nat>)
    ensures IsDoubling(sizes)
    ensures forall k :: 0 <= k < |sizes| ==> MIN_CHUNK_SIZE <= sizes[k] <= MAX_CHUNK_SIZE
  {
    sizes := [];
    var size := MIN_CHUNK_SIZE;
    while size <= MAX_CHUNK_SIZE
      invariant sizes == [] ==> size == MIN_CHUNK_SIZE
      invariant sizes != [] ==> sizes[0] == MIN_CHUNK_SIZE && size == 2 * sizes[|sizes| - 1]
      invariant forall k :: 0 <= k < |sizes| - 1 ==> sizes[k + 1] == 2 * sizes[k]
      invariant forall k :: 0 <= k < |sizes| ==> MIN_CHUNK_SIZE <= sizes[k] <= MAX_CHUNK_SIZE
      invariant size >= MIN_CHUNK_SIZE
      decreases MAX_CHUNK_SIZE - size
    {
      sizes := sizes + [size];
      size := size * 2;
    }
  }

  /**
   * `generateFileId`: the file's hash, "_", the peer id.  The hash has no
   * '_', so the first '_' of the id separates the two.
   */
  function FileIdFor(store: Store, path: Path, peerId: string, checksum: seq<Byte> -> nat): (id: string)
    ensures var sep := Find(id, '_');
            && sep < |id|
            && id[..sep] == FileHash(store, path, checksum)
            && id[sep + 1..] == peerId
  {
    var hash := FileHash(store, path, checksum);
    var id := hash + "_" + peerId;
    assert id[|hash|] == '_';
    assert forall j :: 0 <= j < |hash| ==> id[j] == hash[j];
    assert Find(id, '_') == |hash|;
    assert id[..|hash|] == hash && id[|hash| + 1..] == peerId;
    id
  }

  /** Whether `name` is an absolute path. */
  predicate IsAbsolute(name: string)
  {
    |name| > 0 && name[0] == '/'
  }

  /**
   * Where `startReceiving` puts an incoming file: the working directory
   * joined with the file name by the path library's `/`.  An absolute name
   * replaces the directory; otherwise the name follows the directory, with
   * one '/' between them unless the directory already ends in one.  Parts
   * such as ".." are not resolved, so "under the directory" is textual.
   */
  function DestinationPath(workingDirectory: Path, fileName: string): (p: Path)
    ensures IsAbsolute(fileName) ==> p == fileName
    ensures !IsAbsolute(fileName) ==>
              && |p| == |workingDirectory| + |fileName| +
                   (if workingDirectory == [] || workingDirectory[|workingDirectory| - 1] == '/' then 0 else 1)
              && p[..|workingDirectory|] == workingDirectory
              && p[|p| - |fileName|..] == fileName
              && (workingDirectory != [] ==> p[|p| - |fileName| - 1] == '/')
    ensures (forall i :: 0 <= i < |fileName| ==> fileName[i] != '/') ==> FileName(p) == fileName
  {
    if IsAbsolute(fileName) then
      fileName
    else
      var plain := forall i :: 0 <= i < |fileName| ==> fileName[i] != '/';
      if workingDirectory == [] then
        if plain then FileNameOfPlainName(fileName); fileName else fileName
      else if workingDirectory[|workingDirectory| - 1] == '/' then
        var dir := workingDirectory[..|workingDirectory| - 1];
        assert workingDirectory == dir + "/";
        if plain then FileNameAfterSlash(dir, fileName); workingDirectory + fileName
        else workingDirectory + fileName
      else
        if plain then FileNameAfterSlash(workingDirectory, fileName); workingDirectory + "/" + fileName
        else workingDirectory + "/" + fileName
  }

  /** A name without '/' after a directory and '/' is the joined path's file name. */
  lemma {:induction false} FileNameAfterSlash(dir: Path, name: string)
    requires forall i :: 0 <= i < |name| ==> name[i] != '/'
    ensures FileName(dir + "/" + name) == name
    decreases |name|
  {
    var p := dir + "/" + name;
    if name == [] {
      assert p[|p| - 1] == '/';
    } else {
      var init := name[..|name| - 1];
      FileNameAfterSlash(dir, init);
      assert p[..|p| - 1] == dir + "/" + init;
      assert init + [name[|name| - 1]] == name;
    }
  }

  /** A name without '/' is its own file name. */
  lemma {:induction false} FileNameOfPlainName(name: string)
    requires forall i :: 0 <= i < |name| ==> name[i] != '/'
    ensures FileName(name) == name
    decreases |name|
  {
    if name != [] {
      var init := name[..|name| - 1];
      FileNameOfPlainName(init);
      assert init + [name[|name| - 1]] == name;
    }
  }

  /**
   * `checkTransferCompletion`: once the offset has reached the file size,
   * success is reported (the hash is computed but not compared) and the
   * entry is erased.
   */
  function CheckCompletion(s: EngineState, id: string): (r: EngineState)
    ensures r.store == s.store
    ensures id in s.active && s.active[id].currentOffset >= s.active[id].fileSize ==>
              r.active == s.active - {id} && r.events == s.events + [TransferComplete(id, true)]
    ensures !(id in s.active && s.active[id].currentOffset >= s.active[id].fileSize) ==> r == s
    ensures OffsetsInRange(s.active) ==> OffsetsInRange(r.active)
  {
    if id in s.active && s.active[id].currentOffset >= s.active[id].fileSize then
      s.(active := s.active - {id}, events := s.events + [TransferComplete(id, true)])
    else s
  }

  /** `id` names a transfer this side is sending. */
  predicate IsSender(active: map<string, TransferInfo>, id: string)
  {
    id in active && active[id].isSending
  }

  /** `processNextChunk` would read a chunk of `id` now: the entry exists, is not paused and has bytes left. */
  predicate ChunkDue(active: map<string, TransferInfo>, id: string)
  {
    id in active && !active[id].isPaused && active[id].currentOffset < active[id].fileSize
  }

  /**
   * `processNextChunk`, given the size the optimizer answers.  Unknown or
   * paused: nothing.  At or past the end: completion.  Otherwise one chunk
   * of `min(optimal, remaining)` requested bytes is read at the offset and
   * emitted, and the offset advances by the requested length.
   */
  function NextChunk(s: EngineState, id: string, optimal: nat): (r: EngineState)
    ensures r.store == s.store
    ensures (id !in s.active || s.active[id].isPaused) ==> r == s
    ensures OffsetsInRange(s.active) ==> OffsetsInRange(r.active)
    ensures r.active.Keys <= s.active.Keys
    ensures forall k :: k in s.active && k != id ==> k in r.active && r.active[k] == s.active[k]
    ensures id in s.active && !s.active[id].isPaused && s.active[id].currentOffset < s.active[id].fileSize ==>
              var info := s.active[id];
              var len := if optimal < info.fileSize - info.currentOffset then optimal else info.fileSize - info.currentOffset;
              && id in r.active
              && r.active[id] == info.(currentOffset := info.currentOffset + len)
              && len <= optimal && info.currentOffset + len <= info.fileSize
              && (optimal > 0 ==> len > 0)
              && r.events == s.events + [ChunkReady(ChunkMessage(id, info.currentOffset,
                                                      ReadChunk(s.store, info.filePath, info.currentOffset, len)))]
  {
    if id !in s.active || s.active[id].isPaused then s
    else
      var info := s.active[id];
      if info.currentOffset >= info.fileSize then CheckCompletion(s, id)
      else
        var remaining := info.fileSize - info.currentOffset;
        var len := if optimal < remaining then optimal else remaining;
        var data := ReadChunk(s.store, info.filePath, info.currentOffset, len);
        s.(active := s.active[id := info.(currentOffset := info.currentOffset + len)],
           events := s.events + [ChunkReady(ChunkMessage(id, info.currentOffset, data))])
  }

  /**
   * `handleIncomingChunk`.  Unknown id or a sending transfer: nothing.
   * Otherwise the payload is written at the chunk's offset and the offset
   * becomes the chunk's end (an assignment, not an increment); reaching
   * the file size completes the transfer.
   */
  function IncomingChunk(s: EngineState, chunk: Message): (r: EngineState)
    requires chunk.ChunkMessage?
    ensures (chunk.fileId !in s.active || s.active[chunk.fileId].isSending) ==> r == s
    ensures OffsetsInRange(s.active) ==> OffsetsInRange(r.active)
    ensures chunk.fileId in s.active && !s.active[chunk.fileId].isSending ==>
              var info := s.active[chunk.fileId];
              var end := chunk.offset + |chunk.data|;
              && r.store == WriteChunk(s.store, info.filePath, chunk.offset, chunk.data)
              && (end < info.fileSize ==> r.active == s.active[chunk.fileId := info.(currentOffset := end)] && r.events == s.events)
              && (end >= info.fileSize ==> r.active == s.active - {chunk.fileId}
                                           && r.events == s.events + [TransferComplete(chunk.fileId, true)])
  {
    var id := chunk.fileId;
    if id !in s.active || s.active[id].isSending then s
    else
      var info := s.active[id];
      var end := chunk.offset + |chunk.data|;
      var s1 := s.(store := WriteChunk(s.store, info.filePath, chunk.offset, chunk.data),
                   active := s.active[id := info.(currentOffset := end)]);
      if end >= info.fileSize then CheckCompletion(s1, id) else s1
  }

  /** `pauseTransfer` (paused) and the first half of `resumeTransfer` (not paused): only the flag changes. */
  function SetPaused(s: EngineState, id: string, paused: bool): (r: EngineState)
    ensures r.store == s.store && r.events == s.events && r.active.Keys == s.active.Keys
    ensures id in s.active ==> r.active == s.active[id := s.active[id].(isPaused := paused)]
    ensures id !in s.active ==> r == s
    ensures OffsetsInRange(s.active) ==> OffsetsInRange(r.active)
  {
    if id in s.active then s.(active := s.active[id := s.active[id].(isPaused := paused)]) else s
  }

  /** `cancelTransfer`: an existing entry is erased and then failure is reported once; an unknown id changes nothing. */
  function Cancelled(s: EngineState, id: string): (r: EngineState)
    ensures r.store == s.store
    ensures id in s.active ==> r.active == s.active - {id} && r.events == s.events + [TransferComplete(id, false)]
    ensures id !in s.active ==> r == s
    ensures OffsetsInRange(s.active) ==> OffsetsInRange(r.active)
  {
    if id in s.active then s.(active := s.active - {id}, events := s.events + [TransferComplete(id, false)]) else s
  }

  /**
   * `getTransferProgress` as the integer percent its callers cast it to:
   * 0 for an unknown id or an empty file, else offset * 100 / size capped
   * at 100.
   */
  function Progress(active: map<string, TransferInfo>, id: string): (p: nat)
    ensures p <= 100
    ensures (id !in active || active[id].fileSize == 0) ==> p == 0
    ensures id in active && active[id].fileSize > 0 ==>
              (p == 100 <==> active[id].currentOffset >= active[id].fileSize)
    ensures id in active && active[id].fileSize > 0 ==>
              p * active[id].fileSize <= 100 * active[id].currentOffset
  {
    if id !in active || active[id].fileSize == 0 then 0
    else
      var info := active[id];
      var q := (info.currentOffset * 100) / info.fileSize;
      PercentBelowFull(info.currentOffset, info.fileSize);
      if q < 100 then q else 100
  }

  lemma MulMonotone(a: int, b: int, c: nat)
    requires a <= b
    ensures a * c <= b * c
  {
  }

  lemma PercentBelowFull(offset: nat, size: nat)
    requires size > 0
    ensures (offset * 100) / size < 100 <==> offset < size
    ensures ((offset * 100) / size) * size <= offset * 100
  {
    var q := (offset * 100) / size;
    assert offset * 100 == q * size + (offset * 100) % size;
    if q >= 100 {
      MulMonotone(100, q, size);
    } else {
      MulMonotone(q, 99, size);
    }
  }

  /** The state `processNextChunk` leaves when it emits a chunk of `len` requested bytes. */
  lemma NextChunkEmits(s: EngineState, id: string, optimal: nat, info: TransferInfo, len: nat)
    requires id in s.active && info == s.active[id] && !info.isPaused && info.currentOffset < info.fileSize
    requires len == if optimal < info.fileSize - info.currentOffset then optimal else info.fileSize - info.currentOffset
    ensures NextChunk(s, id, optimal) ==
              s.(active := s.active[id := info.(currentOffset := info.currentOffset + len)],
                 events := s.events + [ChunkReady(ChunkMessage(id, info.currentOffset,
                                                                ReadChunk(s.store, info.filePath, info.currentOffset, len)))])
  {
  }

  /** The state `handleIncomingChunk` leaves for a receiving transfer: the write, the new offset, then the completion check. */
  lemma IncomingChunkWrites(s: EngineState, chunk: Message, info: TransferInfo, written: EngineState)
    requires chunk.ChunkMessage? && chunk.fileId in s.active && info == s.active[chunk.fileId] && !info.isSending
    requires written == s.(store := WriteChunk(s.store, info.filePath, chunk.offset, chunk.data),
                           active := s.active[chunk.fileId := info.(currentOffset := chunk.offset + |chunk.data|)])
    ensures IncomingChunk(s, chunk) ==
              if chunk.offset + |chunk.data| >= info.fileSize then CheckCompletion(written, chunk.fileId) else written
  {
  }

  /** The engine's candidate list written out: 1 KiB, 2 KiB, ..., 8 MiB. */
  const DOUBLINGS: seq<nat> :=
    [1024, 2048, 4096, 8192, 16384, 32768, 65536, 131072, 262144, 524288, 1048576, 2097152, 4194304, 8388608]

  /**
   * `sizes` is the engine's candidate list, so every candidate lies in
   * [MIN_CHUNK_SIZE, MAX_CHUNK_SIZE].
   */
  ghost predicate IsCandidateList(sizes: seq<nat>)
  {
    && sizes != []
    && (forall k :: 0 <= k < |sizes| ==> MIN_CHUNK_SIZE <= sizes[k] <= MAX_CHUNK_SIZE)
    && sizes == DOUBLINGS
  }

  /** The written-out list is the fourteen doublings 1024·2^k, k = 0..13. */
  lemma DoublingsArePow2()
    ensures |DOUBLINGS| == 14 && forall k :: 0 <= k < 14 ==> DOUBLINGS[k] == 1024 * Pow2(k)
  {
    assert Pow2(0) == 1 && Pow2(1) == 2 && Pow2(2) == 4 && Pow2(3) == 8;
    assert Pow2(4) == 16 && Pow2(5) == 32 && Pow2(6) == 64 && Pow2(7) == 128;
    assert Pow2(8) == 256 && Pow2(9) == 512 && Pow2(10) == 1024;
    assert Pow2(11) == 2048 && Pow2(12) == 4096 && Pow2(13) == 8192;
  }

  /**
   * The optimizer an entry owns is ready to answer: valid, with candidates
   * in [MIN_CHUNK_SIZE, MAX_CHUNK_SIZE], and still the candidate list the
   * engine gave it (`possible_sizes_` is never reassigned after construction).
   */
  ghost predicate OptimizerReady(o: ChunkSizeOptimizer)
    reads o
  {
    && o.Valid()
    && IsCandidateList(o.possibleSizes)
  }

  /** A valid optimizer over the engine's candidate list is ready. */
  lemma DoublingOptimizerReady(o: ChunkSizeOptimizer)
    requires o.Valid() && o.possibleSizes == DOUBLINGS
    ensures OptimizerReady(o)
  {
    assert forall k :: 0 <= k < |DOUBLINGS| ==> MIN_CHUNK_SIZE <= DOUBLINGS[k] <= MAX_CHUNK_SIZE;
  }

  /** Every entry owns a ready optimizer from `repr`, and no two entries share one. */
  ghost predicate OwnedBy(active: map<string, TransferInfo>, repr: set<ChunkSizeOptimizer>)
    reads repr
  {
    && (forall id :: id in active ==> active[id].optimizer in repr)
    && (forall id {:trigger OptimizerReady(active[id].optimizer)} :: id in active ==> OptimizerReady(active[id].optimizer))
    && (forall id, id' :: id in active && id' in active && id != id' ==>
          active[id].optimizer != active[id'].optimizer)
  }

  lemma OwnedByUpdate(active: map<string, TransferInfo>, repr: set<ChunkSizeOptimizer>, id: string, info: TransferInfo)
    requires OwnedBy(active, repr) && id in active && info.optimizer == active[id].optimizer
    ensures OwnedBy(active[id := info], repr)
  {
  }

  lemma OwnedByRemove(active: map<string, TransferInfo>, repr: set<ChunkSizeOptimizer>, id: string)
    requires OwnedBy(active, repr)
    ensures OwnedBy(active - {id}, repr)
  {
  }

  lemma OwnedByAdd(active: map<string, TransferInfo>, repr: set<ChunkSizeOptimizer>, id: string, info: TransferInfo)
    requires OwnedBy(active, repr) && info.optimizer !in repr && OptimizerReady(info.optimizer)
    ensures OwnedBy(active[id := info], repr + {info.optimizer})
  {
  }

  class FileTransfer {
    /** `active_transfers_`. */
    var activeTransfers: map<string, TransferInfo>
    /** The files as the filesystem facade sees them. */
    var store: Store
    /** The callbacks made so far, oldest first. */
    var events: seq<TransferEvent>
    /** CRC32 of a file's bytes. */
    const checksum: seq<Byte> -> nat
    /** `std::filesystem::current_path()`. */
    const workingDirectory: Path
    /** The optimizers the engine has created. */
    ghost var Repr: set<ChunkSizeOptimizer>

    function State(): EngineState
      reads this
    {
      EngineState(activeTransfers, store, events)
    }

    ghost predicate Owned()
      reads this, Repr
    {
      OwnedBy(activeTransfers, Repr)
    }

    ghost predicate Valid()
      reads this, Repr
    {
      Owned() && OffsetsInRange(activeTransfers)
    }

    constructor (checksum: seq<Byte> -> nat, workingDirectory: Path, store: Store)
      ensures Valid() && fresh(Repr)
      ensures activeTransfers == map[] && this.store == store && events == []
      ensures this.checksum == checksum && this.workingDirectory == workingDirectory
    {
      this.checksum := checksum;
      this.workingDirectory := workingDirectory;
      this.store := store;
      activeTransfers := map[];
      events := [];
      Repr := {};
    }

    /**
     * A fresh optimizer over the engine's candidate sizes: the fourteen
     * doublings 1 KiB .. 8 MiB, already in order, starting at index 7 (128 KiB).
     */
    method NewOptimizer() returns (o: ChunkSizeOptimizer)
      ensures fresh(o) && OptimizerReady(o)
      ensures |o.possibleSizes| == 14 && forall k :: 0 <= k < 14 ==> o.possibleSizes[k] == 1024 * Pow2(k)
      ensures o.currentSizeIndex == 7
      ensures forall s :: s in o.performanceData ==> o.performanceData[s] == FRESH_RECORD
    {
      var sizes := GeneratePossibleChunkSizes();
      DoublingIsTheList(sizes);
      DoublingIncreasing(sizes);
      SortedCopyOfIncreasing(sizes);
      o := new ChunkSizeOptimizer(sizes);
      DoublingOptimizerReady(o);
      DoublingsArePow2();
    }

    /** The optimizer owned by the entry `id`, if there is one. */
    function OptimizerOf(id: string): set<ChunkSizeOptimizer>
      reads this
    {
      if id in activeTransfers then {activeTransfers[id].optimizer} else {}
    }

    /**
     * `checkTransferCompletion`.  It may be called while the checked entry's
     * offset is past its size (after a chunk that overruns the file).
     */
    method CheckTransferCompletion(id: string)
      requires Owned() && OffsetsInRange(activeTransfers - {id})
      modifies this
      ensures Owned() && Repr == old(Repr)
      ensures State() == CheckCompletion(old(State()), id)
      ensures id in old(activeTransfers) && old(activeTransfers)[id].currentOffset >= old(activeTransfers)[id].fileSize ==> Valid()
      ensures old(Valid()) ==> Valid()
    {
      if id in activeTransfers {
        var info := activeTransfers[id];
        if info.currentOffset >= info.fileSize {
          events := events + [TransferComplete(id, true)];
          activeTransfers := activeTransfers - {id};
        }
      }
    }

    /**
     * `processNextChunk`; `optimal` is what the transfer's optimizer
     * answered (when it was asked).  Only optimizer indices change.
     */
    method ProcessNextChunk(id: string) returns (ghost optimal: nat)
      requires Valid()
      modifies this, OptimizerOf(id)`currentSizeIndex
      ensures Valid() && Repr == old(Repr)
      ensures State() == NextChunk(old(State()), id, optimal)
      ensures MIN_CHUNK_SIZE <= optimal <= MAX_CHUNK_SIZE
      ensures ChunkDue(old(activeTransfers), id) ==>
                var o := old(activeTransfers)[id].optimizer;
                && optimal in o.possibleSizes && o.currentSizeIndex < |o.possibleSizes| && optimal == o.possibleSizes[o.currentSizeIndex]
                && Reoptimized(o.performanceData, o.possibleSizes, old(o.currentSizeIndex), o.currentSizeIndex)
      ensures id in old(activeTransfers) && !ChunkDue(old(activeTransfers), id) ==>
                var o := old(activeTransfers)[id].optimizer;
                o.currentSizeIndex == old(o.currentSizeIndex)
    {
      optimal := MIN_CHUNK_SIZE;
      if id !in activeTransfers || activeTransfers[id].isPaused {
        return;
      }
      if activeTransfers[id].currentOffset >= activeTransfers[id].fileSize {
        CheckTransferCompletion(id);
        return;
      }
      optimal := SendChunk(id);
    }

    /**
     * The reading half of `processNextChunk`, for a chunk that is due: the
     * optimizer is asked, and `min(optimal, remaining)` bytes are emitted.
     */
    method SendChunk(id: string) returns (ghost optimal: nat)
      requires Valid() && ChunkDue(activeTransfers, id)
      modifies this, OptimizerOf(id)`currentSizeIndex
      ensures Valid() && Repr == old(Repr)
      ensures State() == NextChunk(old(State()), id, optimal)
      ensures MIN_CHUNK_SIZE <= optimal <= MAX_CHUNK_SIZE
      ensures var o := old(activeTransfers)[id].optimizer;
              && optimal in o.possibleSizes && o.currentSizeIndex < |o.possibleSizes| && optimal == o.possibleSizes[o.currentSizeIndex]
              && Reoptimized(o.performanceData, o.possibleSizes, old(o.currentSizeIndex), o.currentSizeIndex)
    {
      var info := activeTransfers[id];
      ghost var s0 := State();
      var optimalChunkSize := GetOptimalChunkSize(id);
      optimal := optimalChunkSize;
      var remainingSize := info.fileSize - info.currentOffset;
      var chunkSize := if optimalChunkSize < remainingSize then optimalChunkSize else remainingSize;
      var data := ReadChunk(store, info.filePath, info.currentOffset, chunkSize);
      var advanced := info.(currentOffset := info.currentOffset + chunkSize);
      OwnedByUpdate(activeTransfers, Repr, id, advanced);
      NextChunkEmits(s0, id, optimal, info, chunkSize);
      events := events + [ChunkReady(ChunkMessage(id, info.currentOffset, data))];
      activeTransfers := activeTransfers[id := advanced];
    }

    /**
     * `startSending`.  A missing file changes nothing.  Otherwise a
     * sending, unpaused entry at offset 0 is registered under
     * hash + "_" + peer, the metadata is emitted, and then the first chunk
     * is processed.
     */
    method StartSending(filePath: Path, peerId: string) returns (ghost optimal: nat)
      requires Valid()
      modifies this
      ensures Valid() && fresh(Repr - old(Repr))
      ensures filePath !in old(store) ==> State() == old(State())
      ensures filePath in old(store) ==>
                var id := FileIdFor(old(store), filePath, peerId, checksum);
                var size := |old(store)[filePath]|;
                exists o: ChunkSizeOptimizer ::
                     State() == NextChunk(
                       old(State()).(active := old(activeTransfers)[id := TransferInfo(filePath, peerId, 0, size, true, false, o)],
                                     events := old(events) + [MetadataReady(FileMetadata(id, FileName(filePath), size,
                                                                                         FileHash(old(store), filePath, checksum)))]),
                       id, optimal)
      ensures filePath in old(store) && |old(store)[filePath]| > 0 ==> exists k :: 0 <= k < 14 && optimal == 1024 * Pow2(k)
      ensures MIN_CHUNK_SIZE <= optimal <= MAX_CHUNK_SIZE
    {
      optimal := MIN_CHUNK_SIZE;
      if filePath !in store {
        return;
      }
      var fileId, o := RegisterSender(filePath, peerId);
      ghost var registered := State();
      optimal := ProcessNextChunk(fileId);
      assert State() == NextChunk(registered, fileId, optimal);
      if |registered.store[filePath]| > 0 {
        assert ChunkDue(registered.active, fileId);
        assert optimal == 1024 * Pow2(o.currentSizeIndex);
      }
    }

    /**
     * The registration half of `startSending`: a sending, unpaused entry at
     * offset 0 owning a fresh optimizer, and the metadata callback.
     */
    method RegisterSender(filePath: Path, peerId: string) returns (fileId: string, o: ChunkSizeOptimizer)
      requires Valid() && filePath in store
      modifies this
      ensures Valid() && fresh(Repr - old(Repr)) && fresh(o)
      ensures fileId == FileIdFor(old(store), filePath, peerId, checksum)
      ensures var size := |old(store)[filePath]|;
              State() == old(State()).(active := old(activeTransfers)[fileId := TransferInfo(filePath, peerId, 0, size, true, false, o)],
                                       events := old(events) + [MetadataReady(FileMetadata(fileId, FileName(filePath), size,
                                                                                           FileHash(old(store), filePath, checksum)))])
      ensures |o.possibleSizes| == 14 && forall k :: 0 <= k < 14 ==> o.possibleSizes[k] == 1024 * Pow2(k)
    {
      fileId := FileIdFor(store, filePath, peerId, checksum);
      var fileSize := |store[filePath]|;
      o := NewOptimizer();
      var info := TransferInfo(filePath, peerId, 0, fileSize, true, false, o);
      OwnedByAdd(activeTransfers, Repr, fileId, info);
      activeTransfers := activeTransfers[fileId := info];
      Repr := Repr + {o};
      events := events + [MetadataReady(FileMetadata(fileId, FileName(filePath), fileSize, FileHash(store, filePath, checksum)))];
    }

    /**
     * `startReceiving`: a zero-filled file of the announced size is created
     * in the working directory and a receiving, unpaused entry at offset 0
     * is registered under the metadata's file id.
     */
    method StartReceiving(metadata: Message)
      requires Valid() && metadata.FileMetadata?
      modifies this
      ensures Valid() && fresh(Repr - old(Repr))
      ensures var path := DestinationPath(workingDirectory, metadata.fileName);
              && store == CreateFile(old(store), path, metadata.fileSize)
              && events == old(events)
              && activeTransfers.Keys == old(activeTransfers).Keys + {metadata.fileId}
              && (forall k :: k in old(activeTransfers) && k != metadata.fileId ==> activeTransfers[k] == old(activeTransfers)[k])
              && activeTransfers[metadata.fileId] ==
                   TransferInfo(path, "", 0, metadata.fileSize, false, false, activeTransfers[metadata.fileId].optimizer)
      ensures metadata.fileId in activeTransfers &&
              activeTransfers == old(activeTransfers)[metadata.fileId :=
                TransferInfo(DestinationPath(workingDirectory, metadata.fileName), "", 0, metadata.fileSize, false, false,
                             activeTransfers[metadata.fileId].optimizer)]
    {
      var filePath := DestinationPath(workingDirectory, metadata.fileName);
      store := CreateFile(store, filePath, metadata.fileSize);
      var o := NewOptimizer();
      var info := TransferInfo(filePath, "", 0, metadata.fileSize, false, false, o);
      OwnedByAdd(activeTransfers, Repr, metadata.fileId, info);
      activeTransfers := activeTransfers[metadata.fileId := info];
      Repr := Repr + {o};
    }

    /** `handleIncomingChunk`. */
    method HandleIncomingChunk(chunk: Message)
      requires Valid() && chunk.ChunkMessage?
      modifies this
      ensures Valid() && Repr == old(Repr)
      ensures State() == IncomingChunk(old(State()), chunk)
    {
      var id := chunk.fileId;
      if id !in activeTransfers {
        return;
      }
      var info := activeTransfers[id];
      if info.isSending {
        return;
      }
      var updated := info.(currentOffset := chunk.offset + |chunk.data|);
      OwnedByUpdate(activeTransfers, Repr, id, updated);
      ghost var s0 := State();
      store := WriteChunk(store, info.filePath, chunk.offset, chunk.data);
      activeTransfers := activeTransfers[id := updated];
      IncomingChunkWrites(s0, chunk, info, State());
      if updated.currentOffset >= info.fileSize {
        CheckTransferCompletion(id);
      }
    }

    /**
     * `handleChunkMetrics`: for a sending transfer the latency sample is
     * recorded in its optimizer and the next chunk is processed; otherwise
     * nothing happens.
     */
    method HandleChunkMetrics(id: string, chunkNumber: nat, chunkSize: nat, latency: int) returns (ghost optimal: nat)
      requires Valid()
      modifies this, if IsSender(activeTransfers, id) then OptimizerOf(id) else {}
      ensures Valid() && Repr == old(Repr)
      ensures !(id in old(activeTransfers) && old(activeTransfers)[id].isSending) ==> State() == old(State())
      ensures id in old(activeTransfers) && !old(activeTransfers)[id].isSending ==>
                var o := old(activeTransfers)[id].optimizer;
                o.Samples == old(o.Samples) && o.performanceData == old(o.performanceData)
      ensures id in old(activeTransfers) && old(activeTransfers)[id].isSending ==>
                && State() == NextChunk(old(State()), id, optimal)
                && var o := old(activeTransfers)[id].optimizer;
                   o.Samples == old(o.Samples)[chunkSize := (if chunkSize in old(o.Samples) then old(o.Samples)[chunkSize] else []) + [latency]]
      ensures id in old(activeTransfers) && old(activeTransfers)[id].isSending && ChunkDue(old(activeTransfers), id) ==>
                var o := old(activeTransfers)[id].optimizer;
                && o.currentSizeIndex < |o.possibleSizes| && optimal == o.possibleSizes[o.currentSizeIndex]
                && Reoptimized(o.performanceData, o.possibleSizes, old(o.currentSizeIndex), o.currentSizeIndex)
      ensures id in old(activeTransfers) && !(old(activeTransfers)[id].isSending && ChunkDue(old(activeTransfers), id)) ==>
                var o := old(activeTransfers)[id].optimizer;
                o.currentSizeIndex == old(o.currentSizeIndex)
      ensures MIN_CHUNK_SIZE <= optimal <= MAX_CHUNK_SIZE
    {
      optimal := MIN_CHUNK_SIZE;
      if id in activeTransfers && activeTransfers[id].isSending {
        optimal := RecordAndProceed(id, chunkSize, latency);
      }
    }

    /** The sending branch of `handleChunkMetrics`: the sample is recorded, then the next chunk is processed. */
    method RecordAndProceed(id: string, chunkSize: nat, latency: int) returns (ghost optimal: nat)
      requires Valid() && id in activeTransfers && activeTransfers[id].isSending
      modifies this, OptimizerOf(id)
      ensures Valid() && Repr == old(Repr)
      ensures State() == NextChunk(old(State()), id, optimal)
      ensures var o := old(activeTransfers)[id].optimizer;
              o.Samples == old(o.Samples)[chunkSize := (if chunkSize in old(o.Samples) then old(o.Samples)[chunkSize] else []) + [latency]]
      ensures ChunkDue(old(activeTransfers), id) ==>
                var o := old(activeTransfers)[id].optimizer;
                && o.currentSizeIndex < |o.possibleSizes| && optimal == o.possibleSizes[o.currentSizeIndex]
                && Reoptimized(o.performanceData, o.possibleSizes, old(o.currentSizeIndex), o.currentSizeIndex)
      ensures !ChunkDue(old(activeTransfers), id) ==>
                var o := old(activeTransfers)[id].optimizer;
                o.currentSizeIndex == old(o.currentSizeIndex)
      ensures MIN_CHUNK_SIZE <= optimal <= MAX_CHUNK_SIZE
    {
      RecordSample(id, chunkSize, latency);
      ghost var o := activeTransfers[id].optimizer;
      ghost var samples := o.Samples;
      optimal := ProcessNextChunk(id);
      assert o.Samples == samples;
    }

    /** The recording half of the sending branch: the sender's optimizer takes the sample, and the engine's own fields stay. */
    method RecordSample(id: string, chunkSize: nat, latency: int)
      requires Valid() && id in activeTransfers && activeTransfers[id].isSending
      modifies OptimizerOf(id)
      ensures Valid()
      ensures var o := activeTransfers[id].optimizer;
              && o.Samples == old(o.Samples)[chunkSize := (if chunkSize in old(o.Samples) then old(o.Samples)[chunkSize] else []) + [latency]]
              && o.currentSizeIndex == old(o.currentSizeIndex)
    {
      var o := activeTransfers[id].optimizer;
      assert OptimizerReady(o);
      o.RecordPerformance(chunkSize, latency);
      assert OptimizerReady(o);
    }

    /** `pauseTransfer`: sets the flag of an existing entry. */
    method PauseTransfer(id: string)
      requires Valid()
      modifies this
      ensures Valid() && Repr == old(Repr)
      ensures State() == SetPaused(old(State()), id, true)
    {
      if id in activeTransfers {
        activeTransfers := activeTransfers[id := activeTransfers[id].(isPaused := true)];
      }
    }

    /** `resumeTransfer`: clears the flag of an existing entry and, for a sender, processes the next chunk. */
    method ResumeTransfer(id: string) returns (ghost optimal: nat)
      requires Valid()
      modifies this, OptimizerOf(id)`currentSizeIndex
      ensures Valid() && Repr == old(Repr)
      ensures id in old(activeTransfers) && old(activeTransfers)[id].isSending ==>
                State() == NextChunk(SetPaused(old(State()), id, false), id, optimal)
      ensures !(id in old(activeTransfers) && old(activeTransfers)[id].isSending) ==>
                State() == SetPaused(old(State()), id, false)
      ensures id in old(activeTransfers) && old(activeTransfers)[id].isSending &&
              old(activeTransfers)[id].currentOffset < old(activeTransfers)[id].fileSize ==>
                var o := old(activeTransfers)[id].optimizer;
                && o.currentSizeIndex < |o.possibleSizes| && optimal == o.possibleSizes[o.currentSizeIndex]
                && Reoptimized(o.performanceData, o.possibleSizes, old(o.currentSizeIndex), o.currentSizeIndex)
      ensures id in old(activeTransfers) &&
              !(old(activeTransfers)[id].isSending && old(activeTransfers)[id].currentOffset < old(activeTransfers)[id].fileSize) ==>
                var o := old(activeTransfers)[id].optimizer;
                o.currentSizeIndex == old(o.currentSizeIndex)
      ensures MIN_CHUNK_SIZE <= optimal <= MAX_CHUNK_SIZE
    {
      optimal := MIN_CHUNK_SIZE;
      if id in activeTransfers {
        activeTransfers := activeTransfers[id := activeTransfers[id].(isPaused := false)];
        if activeTransfers[id].isSending {
          optimal := ProcessNextChunk(id);
        }
      }
    }

    /** `cancelTransfer`. */
    method CancelTransfer(id: string)
      requires Valid()
      modifies this
      ensures Valid() && Repr == old(Repr)
      ensures State() == Cancelled(old(State()), id)
    {
      if id in activeTransfers {
        activeTransfers := activeTransfers - {id};
        events := events + [TransferComplete(id, false)];
      }
    }

    /** `getTransferProgress`, as an integer percent. */
    function GetTransferProgress(id: string): (p: nat)
      reads this
      ensures p <= 100
    {
      Progress(activeTransfers, id)
    }

    /**
     * `getOptimalChunkSize`: MAX_CHUNK_SIZE for an unknown id, otherwise the
     * answer of the transfer's optimizer (which re-optimizes its index).
     */
    method GetOptimalChunkSize(id: string) returns (size: nat)
      requires Valid()
      modifies OptimizerOf(id)`currentSizeIndex
      ensures Valid()
      ensures id !in activeTransfers ==> size == MAX_CHUNK_SIZE
      ensures id in activeTransfers ==>
                var o := activeTransfers[id].optimizer;
                && size in o.possibleSizes && o.currentSizeIndex < |o.possibleSizes| && size == o.possibleSizes[o.currentSizeIndex]
                && Reoptimized(o.performanceData, o.possibleSizes, old(o.currentSizeIndex), o.currentSizeIndex)
      ensures MIN_CHUNK_SIZE <= size <= MAX_CHUNK_SIZE
    {
      if id in activeTransfers {
        assert OptimizerReady(activeTransfers[id].optimizer);
        size := activeTransfers[id].optimizer.GetOptimalChunkSize();
      } else {
        size := MAX_CHUNK_SIZE;
      }
    }

  }
}
