/**
 * Whole transfers, as sequences of engine steps.  On the sending side,
 * `processNextChunk` is run once per optimizer answer (the first call from
 * `startSending`, each later one from `handleChunkMetrics`); on the
 * receiving side `handleIncomingChunk` is run once per chunk that arrives.
 */
module TransferRuns {
  import opened Ints
  import opened Messages
  import opened Storage
  import opened Transfer

  /** The sender's state after one `processNextChunk` per optimizer answer in `optimals`. */
  function SendSteps(s: EngineState, id: string, optimals: seq<nat>): EngineState
    decreases |optimals|
  {
    if optimals == [] then s else SendSteps(NextChunk(s, id, optimals[0]), id, optimals[1..])
  }

  /** The messages `handleIncomingChunk` accepts. */
  type Chunk = m: Message | m.ChunkMessage? witness ChunkMessage("", 0, [])

  /** The receiver's state after `handleIncomingChunk` of each chunk, in order. */
  function ReceiveAll(s: EngineState, chunks: seq<Chunk>): EngineState
    decreases |chunks|
  {
    if chunks == [] then s else ReceiveAll(IncomingChunk(s, chunks[0]), chunks[1..])
  }

  /** The requested chunk lengths a sender at `offset` of a `size`-byte file uses for these optimizer answers. */
  function Lengths(offset: nat, size: nat, optimals: seq<nat>): seq<nat>
    decreases |optimals|
  {
    if optimals == [] || offset >= size then []
    else
      var len := if optimals[0] < size - offset then optimals[0] else size - offset;
      [len] + Lengths(offset + len, size, optimals[1..])
  }

  /**
   * Consecutive slices of `src` from `offset`, of the given lengths, as
   * chunk messages for `id`; the list stops at the first slice that would
   * run past the end.
   */
  function Slices(id: string, src: seq<Byte>, offset: nat, lens: seq<nat>): (chunks: seq<Chunk>)
    ensures forall i :: 0 <= i < |chunks| ==> chunks[i].fileId == id
    decreases |lens|
  {
    if lens == [] || offset + lens[0] > |src| then []
    else [ChunkMessage(id, offset, src[offset..offset + lens[0]])] + Slices(id, src, offset + lens[0], lens[1..])
  }

  /** The callbacks announcing those chunks. */
  function Announced(chunks: seq<Chunk>): seq<TransferEvent>
  {
    seq(|chunks|, i requires 0 <= i < |chunks| => ChunkReady(chunks[i]))
  }

  predicate AllPositive(xs: seq<nat>)
  {
    forall i :: 0 <= i < |xs| ==> xs[i] >= 1
  }

  /**
   * With positive answers and at least one more answer than bytes left,
   * the lengths are positive, never past the end, and add up to exactly
   * the bytes left.
   */
  lemma {:induction false} LengthsCover(offset: nat, size: nat, optimals: seq<nat>)
    requires AllPositive(optimals) && offset <= size && |optimals| > size - offset
    ensures AllPositive(Lengths(offset, size, optimals))
    ensures offset + SumSizes(Lengths(offset, size, optimals)) == size
    ensures |Lengths(offset, size, optimals)| <= size - offset
    decreases |optimals|
  {
    if offset < size {
      var len := if optimals[0] < size - offset then optimals[0] else size - offset;
      assert optimals[1..] == optimals[1..] && AllPositive(optimals[1..]) by {
        forall i | 0 <= i < |optimals[1..]| ensures optimals[1..][i] >= 1 {
          assert optimals[1..][i] == optimals[i + 1];
        }
      }
      LengthsCover(offset + len, size, optimals[1..]);
      var rest := Lengths(offset + len, size, optimals[1..]);
      assert Lengths(offset, size, optimals) == [len] + rest;
      assert ([len] + rest)[1..] == rest;
    }
  }

  lemma AnnouncedCons(c: Chunk, chunks: seq<Chunk>)
    ensures Announced([c] + chunks) == [ChunkReady(c)] + Announced(chunks)
  {
  }

  /** Steps for a transfer that is no longer registered change nothing. */
  lemma {:induction false} SendStepsAbsent(s: EngineState, id: string, optimals: seq<nat>)
    requires id !in s.active
    ensures SendSteps(s, id, optimals) == s
    decreases |optimals|
  {
    if optimals != [] {
      SendStepsAbsent(NextChunk(s, id, optimals[0]), id, optimals[1..]);
    }
  }

  /** One step of a sending transfer before the end: the next slice of the file is announced and the offset moves past it. */
  lemma SendOneChunk(s: EngineState, id: string, optimal: nat)
    requires id in s.active
    requires var info := s.active[id];
             && info.isSending && !info.isPaused && info.currentOffset < info.fileSize
             && info.filePath in s.store && |s.store[info.filePath]| == info.fileSize
    ensures var info := s.active[id];
            var k := info.currentOffset;
            var len := if optimal < info.fileSize - k then optimal else info.fileSize - k;
            NextChunk(s, id, optimal) ==
              s.(active := s.active[id := info.(currentOffset := k + len)],
                 events := s.events + [ChunkReady(ChunkMessage(id, k, s.store[info.filePath][k..k + len]))])
  {
    var info := s.active[id];
    var k := info.currentOffset;
    var len := if optimal < info.fileSize - k then optimal else info.fileSize - k;
    NextChunkEmits(s, id, optimal, info, len);
  }

  lemma AllPositiveTail(xs: seq<nat>)
    requires xs != [] && AllPositive(xs)
    ensures AllPositive(xs[1..])
  {
    forall i | 0 <= i < |xs[1..]| ensures xs[1..][i] >= 1 {
      assert xs[1..][i] == xs[i + 1];
    }
  }

  /**
   * Where a sender ends up: the transfer erased, and after the callbacks
   * already made, the remaining slices of the file announced in order and
   * one success report.
   */
  function SentWhole(s: EngineState, id: string, optimals: seq<nat>): EngineState
    requires id in s.active && s.active[id].filePath in s.store
  {
    var info := s.active[id];
    var lens := Lengths(info.currentOffset, info.fileSize, optimals);
    s.(active := s.active - {id},
       events := s.events + Announced(Slices(id, s.store[info.filePath], info.currentOffset, lens))
                          + [TransferComplete(id, true)])
  }

  /**
   * A sending, unpaused transfer of an unchanged file, given positive
   * optimizer answers and one more answer than bytes left, announces the
   * file's remaining bytes as consecutive chunks, then reports success
   * exactly once and is erased; the files and the other transfers are
   * untouched.
   */
  lemma {:induction false} SenderSendsWholeFile(s: EngineState, id: string, optimals: seq<nat>)
    requires id in s.active
    requires var info := s.active[id];
             && info.isSending && !info.isPaused && info.currentOffset <= info.fileSize
             && info.filePath in s.store && |s.store[info.filePath]| == info.fileSize
    requires AllPositive(optimals) && |optimals| > s.active[id].fileSize - s.active[id].currentOffset
    ensures var info := s.active[id];
            && info.currentOffset + SumSizes(Lengths(info.currentOffset, info.fileSize, optimals)) == info.fileSize
            && SendSteps(s, id, optimals) == SentWhole(s, id, optimals)
    decreases |optimals|
  {
    var info := s.active[id];
    var k := info.currentOffset;
    var n := info.fileSize;
    LengthsCover(k, n, optimals);
    if k >= n {
      SentWholeAtEnd(s, id, optimals);
    } else {
      SendOneChunk(s, id, optimals[0]);
      SentWholeStep(s, id, optimals, NextChunk(s, id, optimals[0]));
      SenderSendsWholeFile(NextChunk(s, id, optimals[0]), id, optimals[1..]);
    }
  }

  /** At the end of the file the next step reports success, and later steps find nothing to do. */
  lemma SentWholeAtEnd(s: EngineState, id: string, optimals: seq<nat>)
    requires id in s.active
    requires var info := s.active[id];
             && !info.isPaused && info.currentOffset >= info.fileSize && info.filePath in s.store
    requires optimals != []
    ensures SendSteps(s, id, optimals) == SentWhole(s, id, optimals)
  {
    var s1 := NextChunk(s, id, optimals[0]);
    SendStepsAbsent(s1, id, optimals[1..]);
    assert Lengths(s.active[id].currentOffset, s.active[id].fileSize, optimals) == [];
    assert Announced([]) == [];
  }

  /** After one chunk step, the rest of the run is expected to end in the same place. */
  lemma SentWholeStep(s: EngineState, id: string, optimals: seq<nat>, s1: EngineState)
    requires id in s.active
    requires var info := s.active[id];
             && info.isSending && !info.isPaused && info.currentOffset < info.fileSize
             && info.filePath in s.store && |s.store[info.filePath]| == info.fileSize
    requires AllPositive(optimals) && |optimals| > s.active[id].fileSize - s.active[id].currentOffset
    requires var info := s.active[id];
             var k := info.currentOffset;
             var len := if optimals[0] < info.fileSize - k then optimals[0] else info.fileSize - k;
             s1 == s.(active := s.active[id := info.(currentOffset := k + len)],
                      events := s.events + [ChunkReady(ChunkMessage(id, k, s.store[info.filePath][k..k + len]))])
    ensures id in s1.active
    ensures var info1 := s1.active[id];
            && info1.isSending && !info1.isPaused && info1.currentOffset <= info1.fileSize
            && info1.filePath in s1.store && |s1.store[info1.filePath]| == info1.fileSize
    ensures AllPositive(optimals[1..]) && |optimals[1..]| > s1.active[id].fileSize - s1.active[id].currentOffset
    ensures SentWhole(s1, id, optimals[1..]) == SentWhole(s, id, optimals)
  {
    var info := s.active[id];
    var src := s.store[info.filePath];
    var k := info.currentOffset;
    var n := info.fileSize;
    var len := if optimals[0] < n - k then optimals[0] else n - k;
    var c := ChunkMessage(id, k, src[k..k + len]);
    AllPositiveTail(optimals);
    var tail := Slices(id, src, k + len, Lengths(k + len, n, optimals[1..]));
    SlicesOfLengths(id, src, k, optimals);
    RemoveUpdated(s.active, id, info.(currentOffset := k + len));
    AnnouncedStep(s.events, c, tail, TransferComplete(id, true));
  }

  /** The slices for a run of answers: the first slice, then the slices for the rest of the answers. */
  lemma SlicesOfLengths(id: string, src: seq<Byte>, offset: nat, optimals: seq<nat>)
    requires offset < |src| && optimals != []
    ensures var len := if optimals[0] < |src| - offset then optimals[0] else |src| - offset;
            Slices(id, src, offset, Lengths(offset, |src|, optimals)) ==
              [ChunkMessage(id, offset, src[offset..offset + len])] + Slices(id, src, offset + len, Lengths(offset + len, |src|, optimals[1..]))
  {
    var len := if optimals[0] < |src| - offset then optimals[0] else |src| - offset;
    LengthsStep(offset, |src|, optimals);
    SlicesStep(id, src, offset, len, Lengths(offset + len, |src|, optimals[1..]));
  }

  /** Erasing a key just updated erases the update too. */
  lemma RemoveUpdated<K, V>(m: map<K, V>, key: K, v: V)
    ensures m[key := v] - {key} == m - {key}
  {
  }

  lemma LengthsStep(offset: nat, size: nat, optimals: seq<nat>)
    requires offset < size && optimals != []
    ensures var len := if optimals[0] < size - offset then optimals[0] else size - offset;
            Lengths(offset, size, optimals) == [len] + Lengths(offset + len, size, optimals[1..])
  {
  }

  lemma SlicesStep(id: string, src: seq<Byte>, offset: nat, len: nat, rest: seq<nat>)
    requires offset + len <= |src|
    ensures Slices(id, src, offset, [len] + rest) ==
              [ChunkMessage(id, offset, src[offset..offset + len])] + Slices(id, src, offset + len, rest)
  {
    assert ([len] + rest)[1..] == rest;
  }

  lemma AnnouncedStep(events: seq<TransferEvent>, c: Chunk, chunks: seq<Chunk>, last: TransferEvent)
    ensures events + [ChunkReady(c)] + Announced(chunks) + [last] == events + Announced([c] + chunks) + [last]
  {
    AnnouncedCons(c, chunks);
  }

  /**
   * A receiving transfer whose file holds the first `offset` bytes of
   * `src` followed by zeros up to the size of `src`.
   */
  predicate HoldsPrefix(s: EngineState, id: string, src: seq<Byte>, offset: nat)
  {
    && id in s.active
    && var info := s.active[id];
    && !info.isSending && info.fileSize == |src| && offset <= |src|
    && info.filePath in s.store && PrefixThenZeros(s.store[info.filePath], src, offset)
  }

  /** `file` has the size of `src`, agrees with it before `offset`, and is zero from there on. */
  predicate PrefixThenZeros(file: seq<Byte>, src: seq<Byte>, offset: nat)
  {
    && |file| == |src| && offset <= |src|
    && (forall i :: 0 <= i < offset ==> file[i] == src[i])
    && (forall i :: offset <= i < |file| ==> file[i] == 0)
  }

  lemma PrefixThenZerosIs(file: seq<Byte>, src: seq<Byte>, offset: nat)
    requires offset <= |src|
    ensures PrefixThenZeros(file, src, offset) <==> file == src[..offset] + Zeros(|src| - offset)
  {
    if PrefixThenZeros(file, src, offset) {
      assert file == src[..offset] + Zeros(|src| - offset);
    }
  }

  /** Where a receiver ends up: `src` in its file, the transfer erased, one success report. */
  function ReceivedWhole(s: EngineState, id: string, src: seq<Byte>): EngineState
    requires id in s.active
  {
    s.(active := s.active - {id},
       store := s.store[s.active[id].filePath := src],
       events := s.events + [TransferComplete(id, true)])
  }

  /** A chunk that stops short of the end extends the prefix and leaves the same end in view. */
  lemma ReceiveMiddleChunk(s: EngineState, id: string, src: seq<Byte>, offset: nat, n: nat)
    requires HoldsPrefix(s, id, src, offset) && offset + n < |src|
    ensures var s1 := IncomingChunk(s, ChunkMessage(id, offset, src[offset..offset + n]));
            && HoldsPrefix(s1, id, src, offset + n)
            && s1.events == s.events
            && ReceivedWhole(s1, id, src) == ReceivedWhole(s, id, src)
  {
    var info := s.active[id];
    var path := info.filePath;
    var c := ChunkMessage(id, offset, src[offset..offset + n]);
    PrefixThenZerosIs(s.store[path], src, offset);
    WriteNextSlice(src, offset, n);
    WriteChunkSpec(s.store, path, offset, src[offset..offset + n]);
    PrefixThenZerosIs(src[..offset + n] + Zeros(|src| - offset - n), src, offset + n);
    var written := s.store[path := src[..offset + n] + Zeros(|src| - offset - n)];
    assert WriteChunk(s.store, path, offset, src[offset..offset + n]) == written;
    var s1 := s.(store := written, active := s.active[id := info.(currentOffset := offset + n)]);
    IncomingChunkWrites(s, c, info, s1);
    assert IncomingChunk(s, c) == s1;
    assert src[..offset + n] + Zeros(|src| - offset - n) == src[..offset + n] + Zeros(|src| - (offset + n));
    RemoveUpdated(s.active, id, info.(currentOffset := offset + n));
    assert written[path := src] == s.store[path := src];
  }

  /** The chunk that reaches the end completes the file and the transfer. */
  lemma ReceiveLastChunk(s: EngineState, id: string, src: seq<Byte>, offset: nat, n: nat)
    requires HoldsPrefix(s, id, src, offset) && offset + n == |src|
    ensures IncomingChunk(s, ChunkMessage(id, offset, src[offset..offset + n])) == ReceivedWhole(s, id, src)
  {
    var info := s.active[id];
    var path := info.filePath;
    var c := ChunkMessage(id, offset, src[offset..offset + n]);
    PrefixThenZerosIs(s.store[path], src, offset);
    WriteNextSlice(src, offset, n);
    WriteChunkSpec(s.store, path, offset, src[offset..offset + n]);
    assert src[..offset + n] + Zeros(|src| - offset - n) == src;
    var written := s.store[path := src];
    assert WriteChunk(s.store, path, offset, src[offset..offset + n]) == written;
    var s1 := s.(store := written, active := s.active[id := info.(currentOffset := offset + n)]);
    IncomingChunkWrites(s, c, info, s1);
    RemoveUpdated(s.active, id, info.(currentOffset := offset + n));
  }

  lemma ReceiveAllCons(s: EngineState, c: Chunk, rest: seq<Chunk>)
    ensures ReceiveAll(s, [c] + rest) == ReceiveAll(IncomingChunk(s, c), rest)
  {
    assert ([c] + rest)[0] == c && ([c] + rest)[1..] == rest;
  }

  /**
   * A receiving transfer whose file holds the first `offset` bytes of
   * `src` followed by zeros, given the rest of `src` as consecutive
   * non-empty chunks, ends with `src` in its file, reports success exactly
   * once and is erased.
   */
  lemma {:induction false} ReceiverRebuildsFile(s: EngineState, id: string, src: seq<Byte>, offset: nat, lens: seq<nat>)
    requires HoldsPrefix(s, id, src, offset)
    requires lens != [] && AllPositive(lens) && offset + SumSizes(lens) == |src|
    ensures ReceiveAll(s, Slices(id, src, offset, lens)) == ReceivedWhole(s, id, src)
    decreases |lens|
  {
    if lens[1..] == [] {
      ReceiveFinal(s, id, src, offset, lens);
    } else {
      var s1 := ReceiveStep(s, id, src, offset, lens);
      ReceiverRebuildsFile(s1, id, src, offset + lens[0], lens[1..]);
    }
  }

  /** The run of a single chunk that reaches the end. */
  lemma ReceiveFinal(s: EngineState, id: string, src: seq<Byte>, offset: nat, lens: seq<nat>)
    requires HoldsPrefix(s, id, src, offset)
    requires lens != [] && lens[1..] == [] && offset + SumSizes(lens) == |src|
    ensures ReceiveAll(s, Slices(id, src, offset, lens)) == ReceivedWhole(s, id, src)
  {
    var n := lens[0];
    var c := ChunkMessage(id, offset, src[offset..offset + n]);
    assert SumSizes(lens) == n + SumSizes(lens[1..]);
    assert lens == [n] + [];
    SlicesStep(id, src, offset, n, []);
    ReceiveAllCons(s, c, []);
    ReceiveLastChunk(s, id, src, offset, n);
  }

  /** The first chunk of a longer run: the rest of the run starts from the extended prefix and ends in the same place. */
  lemma ReceiveStep(s: EngineState, id: string, src: seq<Byte>, offset: nat, lens: seq<nat>) returns (s1: EngineState)
    requires HoldsPrefix(s, id, src, offset)
    requires lens != [] && lens[1..] != [] && AllPositive(lens) && offset + SumSizes(lens) == |src|
    ensures HoldsPrefix(s1, id, src, offset + lens[0])
    ensures AllPositive(lens[1..]) && offset + lens[0] + SumSizes(lens[1..]) == |src|
    ensures ReceiveAll(s, Slices(id, src, offset, lens)) == ReceiveAll(s1, Slices(id, src, offset + lens[0], lens[1..]))
    ensures ReceivedWhole(s1, id, src) == ReceivedWhole(s, id, src)
  {
    var n := lens[0];
    var c := ChunkMessage(id, offset, src[offset..offset + n]);
    var rest := Slices(id, src, offset + n, lens[1..]);
    assert SumSizes(lens) == n + SumSizes(lens[1..]);
    assert SumSizes(lens[1..]) >= 1 by {
      assert SumSizes(lens[1..]) == lens[1..][0] + SumSizes(lens[1..][1..]);
    }
    assert lens == [n] + lens[1..];
    SlicesStep(id, src, offset, n, lens[1..]);
    ReceiveAllCons(s, c, rest);
    ReceiveMiddleChunk(s, id, src, offset, n);
    AllPositiveTail(lens);
    s1 := IncomingChunk(s, c);
  }

  /**
   * End to end: the chunks a sender announces for a non-empty file,
   * handed in order to a receiver that registered the file's metadata
   * (an all-zero file of the same size), leave the receiver with a copy
   * of the sender's file and both sides report success.
   */
  lemma TransferCopiesFile(sender: EngineState, receiver: EngineState, id: string, optimals: seq<nat>)
    requires id in sender.active && id in receiver.active
    requires var info := sender.active[id];
             && info.isSending && !info.isPaused && info.currentOffset == 0
             && info.filePath in sender.store && |sender.store[info.filePath]| == info.fileSize > 0
    requires var r := receiver.active[id];
             && !r.isSending && r.fileSize == sender.active[id].fileSize
             && r.filePath in receiver.store && receiver.store[r.filePath] == Zeros(r.fileSize)
    requires AllPositive(optimals) && |optimals| > sender.active[id].fileSize
    ensures var info := sender.active[id];
            var src := sender.store[info.filePath];
            var lens := Lengths(0, info.fileSize, optimals);
            && SumSizes(lens) == |src|
            && var chunks := Slices(id, src, 0, lens);
            && SendSteps(sender, id, optimals).events == sender.events + Announced(chunks) + [TransferComplete(id, true)]
            && ReceiveAll(receiver, chunks).store == receiver.store[receiver.active[id].filePath := src]
            && ReceiveAll(receiver, chunks).events == receiver.events + [TransferComplete(id, true)]
            && id !in SendSteps(sender, id, optimals).active && id !in ReceiveAll(receiver, chunks).active
  {
    var info := sender.active[id];
    var src := sender.store[info.filePath];
    SenderSendsWholeFile(sender, id, optimals);
    LengthsCover(0, info.fileSize, optimals);
    var lens := Lengths(0, info.fileSize, optimals);
    assert src[..0] + Zeros(|src| - 0) == Zeros(|src|);
    PrefixThenZerosIs(receiver.store[receiver.active[id].filePath], src, 0);
    ReceiverRebuildsFile(receiver, id, src, 0, lens);
  }

  /**
   * An empty file: the sender reports success without announcing any
   * chunk, so the receiver, whose entry is erased only when a chunk
   * reaches the file size, is sent nothing and keeps its entry; its side
   * of the transfer never completes.
   */
  lemma EmptyFileLeavesReceiverOpen(sender: EngineState, receiver: EngineState, id: string, optimals: seq<nat>)
    requires id in sender.active && id in receiver.active
    requires var info := sender.active[id];
             && info.isSending && !info.isPaused && info.currentOffset == 0 && info.fileSize == 0
             && info.filePath in sender.store && |sender.store[info.filePath]| == 0
    requires AllPositive(optimals) && optimals != []
    ensures var info := sender.active[id];
            var chunks := Slices(id, sender.store[info.filePath], 0, Lengths(0, info.fileSize, optimals));
            && chunks == []
            && SendSteps(sender, id, optimals).events == sender.events + [TransferComplete(id, true)]
            && id !in SendSteps(sender, id, optimals).active
            && ReceiveAll(receiver, chunks) == receiver && id in ReceiveAll(receiver, chunks).active
  {
    SenderSendsWholeFile(sender, id, optimals);
  }
}
