/**
 * The routing layer (NetworkManager.cpp): the registry of peer connections
 * keyed by "address:port", the dispatch of incoming messages by type, the
 * metrics reply to each chunk, the reactions to the engine's callbacks,
 * the buffer-size feedback loop and the 200 ms progress gate.  Sockets,
 * the acceptor and the I/O thread are not modelled: a completed accept or
 * connect, the remote endpoint and the clocks are parameters.  Qt signals
 * are recorded in a log; the Boost serialization of a message is an
 * uninterpreted function.
 */
module Manager {
  import opened Ints
  import opened Messages
  import opened Framing
  import opened Storage
  import opened Settings
  import opened Connection
  import opened Handlers
  import opened Optimizer
  import opened Transfer

  /** A `uint16_t` port number. */
  type Port = p: nat | p < 0x1_0000

  /**
   * The path `handleFileMetadata` announces: the working directory, '/'
   * and the file name, joined as plain text.
   */
  function ReceivedFilePath(workingDirectory: Path, fileName: string): (p: Path)
    ensures |p| == |workingDirectory| + 1 + |fileName|
    ensures p[..|workingDirectory|] == workingDirectory && p[|workingDirectory|] == '/' && p[|workingDirectory| + 1..] == fileName
  {
    workingDirectory + "/" + fileName
  }

  /**
   * The announced path names the created file when the name is relative
   * and the directory does not end in '/'; for an absolute name the file
   * is created at the name itself, which the announced path is not.
   */
  lemma AnnouncedPathIsCreatedPath(workingDirectory: Path, fileName: string)
    ensures !IsAbsolute(fileName) && workingDirectory != [] && workingDirectory[|workingDirectory| - 1] != '/' ==>
              ReceivedFilePath(workingDirectory, fileName) == DestinationPath(workingDirectory, fileName)
    ensures IsAbsolute(fileName) ==>
              && DestinationPath(workingDirectory, fileName) == fileName
              && ReceivedFilePath(workingDirectory, fileName) != DestinationPath(workingDirectory, fileName)
  {
    if !IsAbsolute(fileName) && workingDirectory != [] && workingDirectory[|workingDirectory| - 1] != '/' {
      var p := DestinationPath(workingDirectory, fileName);
      assert p[..|workingDirectory|] == workingDirectory && p[|workingDirectory|] == '/';
      assert p[|workingDirectory| + 1..] == fileName;
      assert p == p[..|workingDirectory|] + [p[|workingDirectory|]] + p[|workingDirectory| + 1..];
    }
  }

  /** `current_port_`'s initial value. */
  const DEFAULT_PORT: Port := 8080
  /** `m_progressUpdateInterval`, in milliseconds. */
  const PROGRESS_UPDATE_INTERVAL: int := 200

  /** The Qt signals the manager emits. */
  datatype Signal =
    | FileSendProgressUpdated(percent: nat)
    | FileReceiveProgressUpdated(percent: nat)
    | PortChanged(port: Port)
    | FileReceiveStarted(fileName: string, filePath: string, fileSize: nat)

  /** The handler `handleIncomingMessage` passes a message to. */
  datatype Handler = TextHandler | MetadataHandler | ChunkHandler | MetricsHandler | Unknown

  /** `getPeerKey`: the address text, ':' and the decimal port. */
  function PeerKey(address: string, port: Port): (key: string)
    ensures |key| > |address| + 1 && key[..|address|] == address && key[|address|] == ':'
  {
    address + ":" + DecimalString(port)
  }

  /** The text after the address's ':' is the port in decimal, which reads back as the port. */
  lemma PeerKeyPort(address: string, port: Port)
    ensures PeerKey(address, port)[|address| + 1..] == DecimalString(port)
    ensures DecimalValue(PeerKey(address, port)[|address| + 1..]) == port
  {
    assert PeerKey(address, port)[|address| + 1..] == DecimalString(port);
    DecimalRoundTrip(port);
  }

  /**
   * Two endpoints share a key only if they are the same endpoint: the port
   * text has no ':', so the last ':' of the key ends the address.
   */
  lemma PeerKeyInjective(a1: string, p1: Port, a2: string, p2: Port)
    requires PeerKey(a1, p1) == PeerKey(a2, p2)
    ensures a1 == a2 && p1 == p2
  {
    var key := PeerKey(a1, p1);
    assert |a1| == |a2|;
    assert a1 == key[..|a1|] == a2;
    assert DecimalString(p1) == key[|a1| + 1..] == DecimalString(p2);
    DecimalInjective(p1, p2);
  }

  /**
   * The key `findPeerByFileId` looks up: the text after the first '_'.
   * Without a '_', `npos + 1` wraps to 0 and the whole id is the key.
   */
  function FileIdPeerKey(fileId: string): (key: string)
    ensures |key| <= |fileId| && key == fileId[|fileId| - |key|..]
    ensures (forall i :: 0 <= i < |fileId| ==> fileId[i] != '_') ==> key == fileId
  {
    var i := Find(fileId, '_');
    if i < |fileId| then fileId[i + 1..] else fileId
  }

  /** An id made of a hash without '_', then '_', then a peer key yields that peer key. */
  lemma PeerFromFileId(hash: string, peer: string)
    requires forall i :: 0 <= i < |hash| ==> hash[i] != '_'
    ensures FileIdPeerKey(hash + "_" + peer) == peer
  {
    var id := hash + "_" + peer;
    assert id[|hash|] == '_';
    assert forall j :: 0 <= j < |hash| ==> id[j] == hash[j];
    assert Find(id, '_') == |hash|;
    assert id[|hash| + 1..] == peer;
  }

  /**
   * The engine's file ids (`generateFileId`) lead back to the peer they
   * were started for: the hash is decimal digits or empty.
   */
  lemma FileIdNamesPeer(store: Store, path: Path, peerId: string, checksum: seq<Byte> -> nat)
    ensures FileIdPeerKey(FileIdFor(store, path, peerId, checksum)) == peerId
  {
    FileHashDigits(store, path, checksum);
    PeerFromFileId(FileHash(store, path, checksum), peerId);
  }

  /** The `switch` of `handleIncomingMessage`. */
  function Dispatch(t: MessageType): (h: Handler)
    ensures h != Unknown
  {
    match t
    case TEXT => TextHandler
    case FILE_METADATA => MetadataHandler
    case CHUNK => ChunkHandler
    case CHUNK_METRICS => MetricsHandler
  }

  /** Dispatch by the type byte on the wire: a byte naming no enumerator reaches the `default` branch. */
  function Route(tag: Byte): (h: Handler)
    ensures h == Unknown <==> tag >= 4
  {
    match TagType(tag)
    case None => Unknown
    case Some(t) => Dispatch(t)
  }

  /** Each type reaches exactly its own handler: no two types share one, and the type's byte routes there. */
  lemma DispatchExclusive(t: MessageType, u: MessageType)
    ensures Dispatch(t) == Dispatch(u) <==> t == u
    ensures Route(TagByte(t)) == Dispatch(t)
  {
    TagRoundTrip(t);
  }

  /** The metrics `handleChunkMessage` sends back for a chunk received at `now`. */
  function MetricsReply(chunk: Message, now: TimePoint): (m: Message)
    requires chunk.ChunkMessage?
    ensures m.ChunkMetrics? && m.fileId == chunk.fileId && m.offset == chunk.offset && m.chunkSize == |chunk.data|
    ensures ReceivedTime(m) <= now < ReceivedTime(m) + 1000 || ReceivedTime(m) - 1000 < now <= ReceivedTime(m)
  {
    MakeChunkMetrics(chunk.fileId, chunk.offset, |chunk.data|, now)
  }

  /** The latency `handleChunkMetrics` computes: now minus the received time, cast to microseconds (truncating). */
  function Latency(metrics: Message, now: TimePoint): (l: int)
    requires metrics.ChunkMetrics?
    ensures var elapsed := now - ReceivedTime(metrics);
            && (elapsed >= 0 ==> 0 <= l * 1000 <= elapsed < l * 1000 + 1000)
            && (elapsed < 0 ==> l * 1000 - 1000 < elapsed <= l * 1000 <= 0)
  {
    TruncDivIsDiv(now - ReceivedTime(metrics), NANOS_PER_MICRO);
    TruncDiv(now - ReceivedTime(metrics), NANOS_PER_MICRO)
  }

  /**
   * For metrics stamped at `sent` and read at `now >= sent`, the latency is
   * non-negative and within one microsecond of the elapsed time.
   */
  lemma LatencyBounds(fileId: string, offset: nat, chunkSize: nat, sent: TimePoint, now: TimePoint)
    requires 0 <= sent <= now
    ensures var l := Latency(MakeChunkMetrics(fileId, offset, chunkSize, sent), now);
            && l >= 0
            && l * 1000 - 1000 < now - sent < l * 1000 + 1000
  {
    var m := MakeChunkMetrics(fileId, offset, chunkSize, sent);
    var r := ReceivedTime(m);
    TruncDivIsDiv(now - r, NANOS_PER_MICRO);
  }

  /** The progress gate: at least 200 ms since the timer last restarted. */
  predicate ProgressDue(elapsed: int)
  {
    elapsed >= PROGRESS_UPDATE_INTERVAL
  }

  class NetworkManager {
    /** `peers_`. */
    var peers: map<string, PeerConnection>
    /** `network_settings_`. */
    const settings: NetworkSettings
    /** `file_transfer_`. */
    const fileTransfer: FileTransfer
    /** `message_handler_`. */
    const messageHandler: MessageHandler
    /** `current_port_`. */
    var currentPort: Port
    /** Whether the acceptor is open. */
    var listening: bool
    /** When `m_sendProgressUpdateTimer` and `m_receiveProgressUpdateTimer` last (re)started, in milliseconds. */
    var sendTimerStart: int
    var receiveTimerStart: int
    /** The signals emitted so far, oldest first. */
    var signals: seq<Signal>
    /** The settings each connection last received through `setNetworkSettings`. */
    var applied: map<PeerConnection, SettingsValue>
    /** Boost serialization of a message. */
    const serialize: Message -> seq<Byte>

    /** Every message handed to a peer's `sendMessage`, with the peer key, oldest first. */
    ghost var Outbox: seq<(string, Message)>

    ghost predicate Valid()
      reads this`peers, fileTransfer, fileTransfer.Repr, messageHandler, settings, peers.Values
    {
      && fileTransfer.Valid()
      && messageHandler.Valid()
      && settings.Valid()
      && (forall c :: c in peers.Values ==> c.Valid())
    }

    /** The constructor: no peers, port 8080, default settings, both timers started at `now`. */
    constructor (checksum: seq<Byte> -> nat, workingDirectory: Path, store: Store, serialize: Message -> seq<Byte>, now: int)
      ensures Valid()
      ensures peers == map[] && currentPort == DEFAULT_PORT && !listening
      ensures settings.Value() == SettingsValue(65536, true, true, true, 1048576, 1048576, 8192, 16777216)
      ensures fileTransfer.activeTransfers == map[] && fileTransfer.store == store && fileTransfer.events == []
      ensures messageHandler.handlers == map[]
      ensures sendTimerStart == now && receiveTimerStart == now && signals == []
      ensures applied == map[] && Outbox == []
    {
      this.serialize := serialize;
      settings := new NetworkSettings();
      fileTransfer := new FileTransfer(checksum, workingDirectory, store);
      messageHandler := new MessageHandler();
      peers := map[];
      currentPort := DEFAULT_PORT;
      listening := false;
      sendTimerStart := now;
      receiveTimerStart := now;
      signals := [];
      applied := map[];
      Outbox := [];
    }

    /**
     * `handleAccept`: on success the connection is registered under its
     * remote endpoint's key (replacing any connection with that key), gets
     * the current settings, and starts reading.  On error nothing changes.
     */
    method HandleAccept(ok: bool, conn: PeerConnection, address: string, port: Port)
      requires Valid() && conn.Valid()
      modifies this`peers, this`applied, conn`readState
      ensures Valid()
      ensures ok ==> && peers == old(peers)[PeerKey(address, port) := conn]
                     && applied == old(applied)[conn := settings.Value()]
                     && conn.readState == AwaitingLength
      ensures !ok ==> peers == old(peers) && applied == old(applied) && conn.readState == old(conn.readState)
    {
      if !ok {
        return;
      }
      var key := PeerKey(address, port);
      peers := peers[key := conn];
      applied := applied[conn := settings.Value()];
      conn.DoRead();
    }

    /** `connectToPeer`, before the connect completes: the new connection gets the current settings. */
    method ConnectToPeer(conn: PeerConnection)
      requires Valid()
      modifies this`applied
      ensures Valid() && applied == old(applied)[conn := settings.Value()]
    {
      applied := applied[conn := settings.Value()];
    }

    /**
     * `handleConnect`: on success the connection is registered under its
     * remote endpoint's key and starts reading.  On error nothing changes.
     */
    method HandleConnect(ok: bool, conn: PeerConnection, address: string, port: Port)
      requires Valid() && conn.Valid()
      modifies this`peers, conn`readState
      ensures Valid()
      ensures ok ==> peers == old(peers)[PeerKey(address, port) := conn] && conn.readState == AwaitingLength
      ensures !ok ==> peers == old(peers) && conn.readState == old(conn.readState)
    {
      if !ok {
        return;
      }
      var key := PeerKey(address, port);
      peers := peers[key := conn];
      conn.DoRead();
    }

    /** `stop`: the acceptor closes, every registered connection is stopped, and the registry is emptied. */
    method Stop()
      requires Valid()
      modifies this`peers, this`listening, peers.Values`isOpen
      ensures Valid() && peers == map[] && !listening
      ensures forall c :: c in old(peers).Values ==> !c.isOpen
    {
      var keys := peers.Keys;
      while keys != {}
        invariant keys <= peers.Keys && peers == old(peers)
        invariant forall k :: k in peers && k !in keys ==> !peers[k].isOpen
        decreases keys
      {
        var k :| k in keys;
        peers[k].Stop();
        keys := keys - {k};
      }
      peers := map[];
      listening := false;
    }

    /**
     * `changePort`: the current port is kept as is.  Otherwise the manager
     * stops, restarts on the new port and announces it.  `start` catches
     * its own exceptions, so a port that cannot be bound leaves the acceptor
     * closed and the result is still true.
     */
    method ChangePort(newPort: Port, bindOk: bool) returns (ok: bool)
      requires Valid()
      modifies this`peers, this`listening, this`currentPort, this`signals, peers.Values`isOpen
      ensures Valid() && ok
      ensures newPort == old(currentPort) ==> && peers == old(peers) && listening == old(listening)
                                               && signals == old(signals) && currentPort == old(currentPort)
      ensures newPort != old(currentPort) ==>
                && peers == map[] && (forall c :: c in old(peers).Values ==> !c.isOpen)
                && currentPort == newPort && listening == bindOk
                && signals == old(signals) + [PortChanged(newPort)]
    {
      if newPort == currentPort {
        return true;
      }
      Stop();
      currentPort := newPort;
      listening := bindOk;
      signals := signals + [PortChanged(newPort)];
      return true;
    }

    /** `sendMessage(message, peer_key)`: handed to that peer's connection, or dropped when the key is unknown. */
    method SendMessage(m: Message, peerKey: string)
      requires Valid()
      modifies peers.Values`writeQueue, peers.Values`Sent, peers.Values`isWriting, this`Outbox
      ensures Valid()
      ensures peerKey in peers ==> Outbox == old(Outbox) + [(peerKey, m)]
      ensures peerKey !in peers ==> Outbox == old(Outbox)
      ensures forall c :: c in peers.Values && (peerKey !in peers || c != peers[peerKey] || m.Type() != TEXT) ==> c.writeQueue == old(c.writeQueue)
      ensures peerKey in peers && m.Type() == TEXT ==>
                peers[peerKey].writeQueue == old(peers[peerKey].writeQueue) + [LengthFrame(serialize(m))]
    {
      if peerKey in peers {
        Outbox := Outbox + [(peerKey, m)];
        peers[peerKey].SendMessage(m, serialize(m));
      }
    }

    /** `setMessageHandler`: the callback becomes the TEXT handler, replacing any earlier one. */
    method SetMessageHandler(callback: Callback)
      requires Valid()
      modifies messageHandler
      ensures Valid()
      ensures messageHandler.handlers == old(messageHandler.handlers)[TEXT := callback]
      ensures messageHandler.invocations == old(messageHandler.invocations)
    {
      messageHandler.RegisterHandler(TEXT, callback);
    }

    /** Every registered connection receives the manager's current settings; other entries are kept. */
    method ApplySettingsToPeers()
      requires Valid()
      modifies this`applied
      ensures Valid()
      ensures forall c :: c in peers.Values ==> c in applied && applied[c] == settings.Value()
      ensures forall c :: c in old(applied) && c !in peers.Values ==> c in applied && applied[c] == old(applied)[c]
    {
      var keys := peers.Keys;
      while keys != {}
        invariant keys <= peers.Keys
        invariant forall k :: k in peers && k !in keys ==> peers[k] in applied && applied[peers[k]] == settings.Value()
        invariant forall c :: c in old(applied) && c !in peers.Values ==> c in applied && applied[c] == old(applied)[c]
        decreases keys
      {
        var k :| k in keys;
        applied := applied[peers[k] := settings.Value()];
        keys := keys - {k};
      }
    }

    /** `updateNetworkSettings`: the manager's settings become a copy of the given ones and every peer receives them. */
    method UpdateNetworkSettings(other: SettingsValue)
      requires Valid() && other.minBufferSize == MIN_BUFFER_SIZE && other.maxBufferSize == MAX_BUFFER_SIZE
      modifies settings, this`applied
      ensures Valid() && settings.Value() == other
      ensures forall c :: c in peers.Values ==> c in applied && applied[c] == other
    {
      settings.Assign(other);
      ApplySettingsToPeers();
    }

    /** `updateFileTransferProgress`: past the gate the send progress is emitted and the timer restarts. */
    method UpdateFileTransferProgress(fileId: string, now: int)
      requires Valid()
      modifies this`signals, this`sendTimerStart
      ensures Valid()
      ensures ProgressDue(now - old(sendTimerStart)) ==>
                && signals == old(signals) + [FileSendProgressUpdated(fileTransfer.GetTransferProgress(fileId))]
                && sendTimerStart == now
      ensures !ProgressDue(now - old(sendTimerStart)) ==> signals == old(signals) && sendTimerStart == old(sendTimerStart)
    {
      if ProgressDue(now - sendTimerStart) {
        var progress := fileTransfer.GetTransferProgress(fileId);
        signals := signals + [FileSendProgressUpdated(progress)];
        sendTimerStart := now;
      }
    }

    /**
     * The engine's chunk-ready callback (set in the constructor): the chunk
     * goes to the peer named by its file id, if registered, and the send
     * progress passes the gate.
     */
    method OnChunkReady(chunk: Message, now: int)
      requires Valid() && chunk.ChunkMessage?
      modifies peers.Values`writeQueue, peers.Values`Sent, peers.Values`isWriting, this`Outbox, this`signals, this`sendTimerStart
      ensures Valid()
      ensures var key := FileIdPeerKey(chunk.fileId);
              && (key in peers ==> Outbox == old(Outbox) + [(key, chunk)])
              && (key !in peers ==> Outbox == old(Outbox))
      ensures forall c :: c in peers.Values ==> c.writeQueue == old(c.writeQueue)
      ensures ProgressDue(now - old(sendTimerStart)) ==>
                signals == old(signals) + [FileSendProgressUpdated(fileTransfer.GetTransferProgress(chunk.fileId))]
      ensures ProgressDue(now - old(sendTimerStart)) ==> sendTimerStart == now
      ensures !ProgressDue(now - old(sendTimerStart)) ==> signals == old(signals) && sendTimerStart == old(sendTimerStart)
    {
      var key := FileIdPeerKey(chunk.fileId);
      if key in peers {
        assert chunk.Type() != TEXT;
        SendMessage(chunk, key);
      }
      UpdateFileTransferProgress(chunk.fileId, now);
    }

    /** The engine's metadata callback: the metadata goes to the peer named by its file id, if registered. */
    method OnFileMetadata(metadata: Message)
      requires Valid() && metadata.FileMetadata?
      modifies peers.Values`writeQueue, peers.Values`Sent, peers.Values`isWriting, this`Outbox
      ensures Valid()
      ensures var key := FileIdPeerKey(metadata.fileId);
              && (key in peers ==> Outbox == old(Outbox) + [(key, metadata)])
              && (key !in peers ==> Outbox == old(Outbox))
      ensures forall c :: c in peers.Values ==> c.writeQueue == old(c.writeQueue)
    {
      var key := FileIdPeerKey(metadata.fileId);
      if key in peers {
        assert metadata.Type() != TEXT;
        SendMessage(metadata, key);
      }
    }

    /**
     * `handleTransferComplete` (the engine's completion callback): the final
     * progress, 100 on success and 0 on failure, goes to the send or the
     * receive progress signal.  Whether the file was being sent is a
     * parameter: the engine query it calls is not declared.
     */
    method HandleTransferComplete(fileId: string, success: bool, isSending: bool)
      modifies this`signals
      ensures var p := if success then 100 else 0;
              signals == old(signals) + [if isSending then FileSendProgressUpdated(p) else FileReceiveProgressUpdated(p)]
    {
      var finalProgress := if success then 100 else 0;
      if isSending {
        signals := signals + [FileSendProgressUpdated(finalProgress)];
      } else {
        signals := signals + [FileReceiveProgressUpdated(finalProgress)];
      }
    }

    /**
     * `handleFileMetadata`: the engine starts receiving, the receive-start
     * signal names the file under the working directory, and the receive
     * timer restarts.
     */
    method HandleFileMetadata(metadata: Message, peerKey: string, now: int)
      requires Valid() && metadata.FileMetadata?
      modifies fileTransfer, this`signals, this`receiveTimerStart
      ensures Valid()
      ensures fileTransfer.store == CreateFile(old(fileTransfer.store), DestinationPath(fileTransfer.workingDirectory, metadata.fileName), metadata.fileSize)
      ensures metadata.fileId in fileTransfer.activeTransfers &&
              fileTransfer.activeTransfers == old(fileTransfer.activeTransfers)[metadata.fileId :=
                TransferInfo(DestinationPath(fileTransfer.workingDirectory, metadata.fileName), "", 0, metadata.fileSize,
                             false, false, fileTransfer.activeTransfers[metadata.fileId].optimizer)]
      ensures fileTransfer.events == old(fileTransfer.events)
      ensures signals == old(signals) + [FileReceiveStarted(metadata.fileName,
                                           ReceivedFilePath(fileTransfer.workingDirectory, metadata.fileName), metadata.fileSize)]
      ensures receiveTimerStart == now
      ensures Outbox == old(Outbox) && settings.Value() == old(settings.Value()) && applied == old(applied)
    {
      fileTransfer.StartReceiving(metadata);
      var filePath := ReceivedFilePath(fileTransfer.workingDirectory, metadata.fileName);
      signals := signals + [FileReceiveStarted(metadata.fileName, filePath, metadata.fileSize)];
      receiveTimerStart := now;
    }

    /**
     * `handleChunkMessage`: the engine takes the chunk, the receive progress
     * passes the gate, and metrics for the chunk stamped `nowTime` go back
     * to the peer it came from, if that peer is registered.  The connection
     * drops them (it sends TEXT only), so no queue changes.
     */
    method HandleChunkMessage(chunk: Message, peerKey: string, now: int, nowTime: TimePoint)
      requires Valid() && chunk.ChunkMessage?
      modifies fileTransfer, peers.Values`writeQueue, peers.Values`Sent, peers.Values`isWriting
      modifies this`signals, this`receiveTimerStart, this`Outbox
      ensures Valid()
      ensures fileTransfer.State() == IncomingChunk(old(fileTransfer.State()), chunk)
      ensures ProgressDue(now - old(receiveTimerStart)) ==>
                && signals == old(signals) + [FileReceiveProgressUpdated(fileTransfer.GetTransferProgress(chunk.fileId))]
                && receiveTimerStart == now
      ensures !ProgressDue(now - old(receiveTimerStart)) ==> signals == old(signals) && receiveTimerStart == old(receiveTimerStart)
      ensures peerKey in peers ==> Outbox == old(Outbox) + [(peerKey, MetricsReply(chunk, nowTime))]
      ensures peerKey !in peers ==> Outbox == old(Outbox)
      ensures forall c :: c in peers.Values ==> c.writeQueue == old(c.writeQueue)
      ensures settings.Value() == old(settings.Value()) && applied == old(applied)
    {
      AcceptChunk(chunk, now);
      ReplyWithMetrics(chunk, peerKey, nowTime);
    }

    /** The receive side of `handleChunkMessage`: the engine takes the chunk, then the progress gate. */
    method AcceptChunk(chunk: Message, now: int)
      requires Valid() && chunk.ChunkMessage?
      modifies fileTransfer, this`signals, this`receiveTimerStart
      ensures Valid()
      ensures fileTransfer.State() == IncomingChunk(old(fileTransfer.State()), chunk)
      ensures ProgressDue(now - old(receiveTimerStart)) ==>
                && signals == old(signals) + [FileReceiveProgressUpdated(fileTransfer.GetTransferProgress(chunk.fileId))]
                && receiveTimerStart == now
      ensures !ProgressDue(now - old(receiveTimerStart)) ==> signals == old(signals) && receiveTimerStart == old(receiveTimerStart)
    {
      fileTransfer.HandleIncomingChunk(chunk);
      UpdateReceiveProgress(chunk.fileId, now);
    }

    /** The receive-side progress gate of `handleChunkMessage`. */
    method UpdateReceiveProgress(fileId: string, now: int)
      requires Valid()
      modifies this`signals, this`receiveTimerStart
      ensures Valid()
      ensures ProgressDue(now - old(receiveTimerStart)) ==>
                && signals == old(signals) + [FileReceiveProgressUpdated(fileTransfer.GetTransferProgress(fileId))]
                && receiveTimerStart == now
      ensures !ProgressDue(now - old(receiveTimerStart)) ==> signals == old(signals) && receiveTimerStart == old(receiveTimerStart)
    {
      if ProgressDue(now - receiveTimerStart) {
        var progress := fileTransfer.GetTransferProgress(fileId);
        signals := signals + [FileReceiveProgressUpdated(progress)];
        receiveTimerStart := now;
      }
    }

    /** The reply of `handleChunkMessage`: metrics for the chunk, to the peer it came from. */
    method ReplyWithMetrics(chunk: Message, peerKey: string, nowTime: TimePoint)
      requires Valid() && chunk.ChunkMessage?
      modifies peers.Values`writeQueue, peers.Values`Sent, peers.Values`isWriting, this`Outbox
      ensures Valid()
      ensures peerKey in peers ==> Outbox == old(Outbox) + [(peerKey, MetricsReply(chunk, nowTime))]
      ensures peerKey !in peers ==> Outbox == old(Outbox)
      ensures forall c :: c in peers.Values ==> c.writeQueue == old(c.writeQueue)
    {
      var metrics := MetricsReply(chunk, nowTime);
      assert metrics.Type() != TEXT;
      SendMessage(metrics, peerKey);
    }

    /**
     * `handleChunkMetrics`: the latency since the chunk was received feeds
     * the engine (a sender records it under the chunk's size and processes
     * its next chunk of size `step`, the optimizer's answer at index
     * `stepIndex`), then the buffer sizes follow the transfer's optimal
     * chunk size (MAX_CHUNK_SIZE once the transfer is gone), asked of the
     * optimizer a second time, and every registered connection receives the
     * new settings.
     */
    method HandleChunkMetrics(metrics: Message, peerKey: string, nowTime: TimePoint)
      returns (ghost optimal: nat, ghost step: nat, ghost stepIndex: nat)
      requires Valid() && metrics.ChunkMetrics?
      modifies fileTransfer, settings, this`applied, fileTransfer.OptimizerOf(metrics.fileId)`currentSizeIndex
      modifies if IsSender(fileTransfer.activeTransfers, metrics.fileId) then fileTransfer.OptimizerOf(metrics.fileId) else {}
      ensures Valid()
      ensures metrics.fileId in old(fileTransfer.activeTransfers) && !IsSender(old(fileTransfer.activeTransfers), metrics.fileId) ==>
                var o := old(fileTransfer.activeTransfers)[metrics.fileId].optimizer;
                o.Samples == old(o.Samples) && o.performanceData == old(o.performanceData)
      ensures !IsSender(old(fileTransfer.activeTransfers), metrics.fileId) ==> fileTransfer.State() == old(fileTransfer.State())
      ensures IsSender(old(fileTransfer.activeTransfers), metrics.fileId) ==>
                && fileTransfer.State() == NextChunk(old(fileTransfer.State()), metrics.fileId, step)
                && var o := old(fileTransfer.activeTransfers)[metrics.fileId].optimizer;
                   var size := metrics.chunkSize;
                   o.Samples == old(o.Samples)[size := (if size in old(o.Samples) then old(o.Samples)[size] else []) + [Latency(metrics, nowTime)]]
      ensures IsSender(old(fileTransfer.activeTransfers), metrics.fileId) && ChunkDue(old(fileTransfer.activeTransfers), metrics.fileId) ==>
                var o := old(fileTransfer.activeTransfers)[metrics.fileId].optimizer;
                && stepIndex < |o.possibleSizes| && step == o.possibleSizes[stepIndex]
                && Reoptimized(o.performanceData, o.possibleSizes, old(o.currentSizeIndex), stepIndex)
      ensures metrics.fileId in old(fileTransfer.activeTransfers) &&
              !(IsSender(old(fileTransfer.activeTransfers), metrics.fileId) && ChunkDue(old(fileTransfer.activeTransfers), metrics.fileId)) ==>
                var o := old(fileTransfer.activeTransfers)[metrics.fileId].optimizer;
                stepIndex == old(o.currentSizeIndex)
      ensures MIN_CHUNK_SIZE <= optimal <= MAX_CHUNK_SIZE
      ensures metrics.fileId !in fileTransfer.activeTransfers ==> optimal == MAX_CHUNK_SIZE
      ensures metrics.fileId in fileTransfer.activeTransfers ==>
                var o := fileTransfer.activeTransfers[metrics.fileId].optimizer;
                && o.currentSizeIndex < |o.possibleSizes| && optimal == o.possibleSizes[o.currentSizeIndex]
                && Reoptimized(o.performanceData, o.possibleSizes, stepIndex, o.currentSizeIndex)
      ensures settings.Value() == Updated(old(settings.Value()), optimal)
      ensures forall c :: c in peers.Values ==> c in applied && applied[c] == settings.Value()
      ensures signals == old(signals) && receiveTimerStart == old(receiveTimerStart) && Outbox == old(Outbox)
    {
      ghost var active := fileTransfer.activeTransfers;
      step := FeedEngine(metrics, nowTime);
      stepIndex := if metrics.fileId in active then active[metrics.fileId].optimizer.currentSizeIndex else 0;
      optimal := RetuneBuffers(metrics.fileId);
    }

    /** The engine half of `handleChunkMetrics`: the measured latency goes to the transfer. */
    method FeedEngine(metrics: Message, nowTime: TimePoint) returns (ghost step: nat)
      requires Valid() && metrics.ChunkMetrics?
      modifies fileTransfer, if IsSender(fileTransfer.activeTransfers, metrics.fileId) then fileTransfer.OptimizerOf(metrics.fileId) else {}
      ensures Valid()
      ensures metrics.fileId in old(fileTransfer.activeTransfers) && !IsSender(old(fileTransfer.activeTransfers), metrics.fileId) ==>
                var o := old(fileTransfer.activeTransfers)[metrics.fileId].optimizer;
                o.Samples == old(o.Samples) && o.performanceData == old(o.performanceData)
      ensures !IsSender(old(fileTransfer.activeTransfers), metrics.fileId) ==> fileTransfer.State() == old(fileTransfer.State())
      ensures IsSender(old(fileTransfer.activeTransfers), metrics.fileId) ==>
                && fileTransfer.State() == NextChunk(old(fileTransfer.State()), metrics.fileId, step)
                && var o := old(fileTransfer.activeTransfers)[metrics.fileId].optimizer;
                   var size := metrics.chunkSize;
                   o.Samples == old(o.Samples)[size := (if size in old(o.Samples) then old(o.Samples)[size] else []) + [Latency(metrics, nowTime)]]
      ensures IsSender(old(fileTransfer.activeTransfers), metrics.fileId) && ChunkDue(old(fileTransfer.activeTransfers), metrics.fileId) ==>
                var o := old(fileTransfer.activeTransfers)[metrics.fileId].optimizer;
                && o.currentSizeIndex < |o.possibleSizes| && step == o.possibleSizes[o.currentSizeIndex]
                && Reoptimized(o.performanceData, o.possibleSizes, old(o.currentSizeIndex), o.currentSizeIndex)
      ensures metrics.fileId in old(fileTransfer.activeTransfers) &&
              !(IsSender(old(fileTransfer.activeTransfers), metrics.fileId) && ChunkDue(old(fileTransfer.activeTransfers), metrics.fileId)) ==>
                var o := old(fileTransfer.activeTransfers)[metrics.fileId].optimizer;
                o.currentSizeIndex == old(o.currentSizeIndex)
    {
      var latency := Latency(metrics, nowTime);
      step := fileTransfer.HandleChunkMetrics(metrics.fileId, metrics.offset, metrics.chunkSize, latency);
    }

    /** The settings half of `handleChunkMetrics`: the buffers follow the optimal size, and every peer receives them. */
    method RetuneBuffers(fileId: string) returns (ghost optimal: nat)
      requires Valid()
      modifies fileTransfer.OptimizerOf(fileId)`currentSizeIndex, settings, this`applied
      ensures Valid()
      ensures MIN_CHUNK_SIZE <= optimal <= MAX_CHUNK_SIZE
      ensures fileId !in fileTransfer.activeTransfers ==> optimal == MAX_CHUNK_SIZE
      ensures fileId in fileTransfer.activeTransfers ==>
                var o := fileTransfer.activeTransfers[fileId].optimizer;
                && o.currentSizeIndex < |o.possibleSizes| && optimal == o.possibleSizes[o.currentSizeIndex]
                && Reoptimized(o.performanceData, o.possibleSizes, old(o.currentSizeIndex), o.currentSizeIndex)
      ensures settings.Value() == Updated(old(settings.Value()), optimal)
      ensures forall c :: c in peers.Values ==> c in applied && applied[c] == settings.Value()
    {
      var optimalChunkSize := fileTransfer.GetOptimalChunkSize(fileId);
      optimal := optimalChunkSize;
      settings.UpdateBufferSizes(optimalChunkSize);
      ApplySettingsToPeers();
    }

    /**
     * `handleIncomingMessage`: the message goes to exactly the handler its
     * type selects, and has that handler's effect and no other.  For
     * metrics, `optimal`, `step` and `stepIndex` are as in
     * `HandleChunkMetrics`.
     */
    method HandleIncomingMessage(m: Message, peerKey: string, now: int, nowTime: TimePoint)
      returns (ghost routed: Handler, ghost optimal: nat, ghost step: nat, ghost stepIndex: nat)
      requires Valid()
      modifies this`signals, this`receiveTimerStart, this`Outbox, this`applied
      modifies fileTransfer, settings, messageHandler`invocations
      modifies (if m.ChunkMetrics? then fileTransfer.OptimizerOf(m.fileId) else {})`currentSizeIndex
      modifies if m.ChunkMetrics? && IsSender(fileTransfer.activeTransfers, m.fileId) then fileTransfer.OptimizerOf(m.fileId) else {}
      modifies peers.Values`writeQueue, peers.Values`Sent, peers.Values`isWriting
      ensures Valid()
      ensures routed == Dispatch(m.Type())
      ensures messageHandler.handlers == old(messageHandler.handlers)
      ensures m.Type() == TEXT && TEXT in messageHandler.handlers ==>
                messageHandler.invocations == old(messageHandler.invocations) + [Invocation(messageHandler.handlers[TEXT], m)]
      ensures m.Type() == TEXT && TEXT !in messageHandler.handlers ==>
                messageHandler.invocations == old(messageHandler.invocations)
      ensures m.Type() != TEXT ==> messageHandler.invocations == old(messageHandler.invocations)
      ensures m.Type() == TEXT ==>
                && fileTransfer.State() == old(fileTransfer.State())
                && signals == old(signals) && receiveTimerStart == old(receiveTimerStart)
                && Outbox == old(Outbox) && settings.Value() == old(settings.Value()) && applied == old(applied)
      ensures forall c :: c in peers.Values ==> c.writeQueue == old(c.writeQueue)
      ensures m.FileMetadata? ==>
                var path := DestinationPath(fileTransfer.workingDirectory, m.fileName);
                && fileTransfer.store == CreateFile(old(fileTransfer.store), path, m.fileSize)
                && m.fileId in fileTransfer.activeTransfers
                && fileTransfer.activeTransfers == old(fileTransfer.activeTransfers)[m.fileId :=
                     TransferInfo(path, "", 0, m.fileSize, false, false, fileTransfer.activeTransfers[m.fileId].optimizer)]
                && fileTransfer.events == old(fileTransfer.events)
                && signals == old(signals) + [FileReceiveStarted(m.fileName, ReceivedFilePath(fileTransfer.workingDirectory, m.fileName), m.fileSize)]
                && receiveTimerStart == now
                && Outbox == old(Outbox) && settings.Value() == old(settings.Value()) && applied == old(applied)
      ensures m.ChunkMessage? ==>
                && fileTransfer.State() == IncomingChunk(old(fileTransfer.State()), m)
                && (ProgressDue(now - old(receiveTimerStart)) ==>
                      signals == old(signals) + [FileReceiveProgressUpdated(fileTransfer.GetTransferProgress(m.fileId))] && receiveTimerStart == now)
                && (!ProgressDue(now - old(receiveTimerStart)) ==> signals == old(signals) && receiveTimerStart == old(receiveTimerStart))
                && (peerKey in peers ==> Outbox == old(Outbox) + [(peerKey, MetricsReply(m, nowTime))])
                && (peerKey !in peers ==> Outbox == old(Outbox))
                && settings.Value() == old(settings.Value()) && applied == old(applied)
      ensures m.ChunkMetrics? ==>
                && (IsSender(old(fileTransfer.activeTransfers), m.fileId) ==>
                      fileTransfer.State() == NextChunk(old(fileTransfer.State()), m.fileId, step))
                && (!IsSender(old(fileTransfer.activeTransfers), m.fileId) ==> fileTransfer.State() == old(fileTransfer.State()))
                && MIN_CHUNK_SIZE <= optimal <= MAX_CHUNK_SIZE
                && settings.Value() == Updated(old(settings.Value()), optimal)
                && (forall c :: c in peers.Values ==> c in applied && applied[c] == settings.Value())
                && signals == old(signals) && receiveTimerStart == old(receiveTimerStart) && Outbox == old(Outbox)
      ensures m.ChunkMetrics? && IsSender(old(fileTransfer.activeTransfers), m.fileId) && ChunkDue(old(fileTransfer.activeTransfers), m.fileId) ==>
                var o := old(fileTransfer.activeTransfers)[m.fileId].optimizer;
                && stepIndex < |o.possibleSizes| && step == o.possibleSizes[stepIndex]
                && Reoptimized(o.performanceData, o.possibleSizes, old(o.currentSizeIndex), stepIndex)
      ensures m.ChunkMetrics? && m.fileId in old(fileTransfer.activeTransfers) &&
              !(IsSender(old(fileTransfer.activeTransfers), m.fileId) && ChunkDue(old(fileTransfer.activeTransfers), m.fileId)) ==>
                var o := old(fileTransfer.activeTransfers)[m.fileId].optimizer;
                stepIndex == old(o.currentSizeIndex)
      ensures m.ChunkMetrics? && m.fileId !in fileTransfer.activeTransfers ==> optimal == MAX_CHUNK_SIZE
      ensures m.ChunkMetrics? && m.fileId in old(fileTransfer.activeTransfers) && !IsSender(old(fileTransfer.activeTransfers), m.fileId) ==>
                var o := old(fileTransfer.activeTransfers)[m.fileId].optimizer;
                o.Samples == old(o.Samples) && o.performanceData == old(o.performanceData)
      ensures m.ChunkMetrics? && m.fileId in fileTransfer.activeTransfers ==>
                var o := fileTransfer.activeTransfers[m.fileId].optimizer;
                && o.currentSizeIndex < |o.possibleSizes| && optimal == o.possibleSizes[o.currentSizeIndex]
                && Reoptimized(o.performanceData, o.possibleSizes, stepIndex, o.currentSizeIndex)
    {
      if m.TextMessage? {
        routed := TextHandler;
        messageHandler.HandleMessage(m);
        optimal, step, stepIndex := 0, 0, 0;
      } else {
        routed, optimal, step, stepIndex := RouteTransferMessage(m, peerKey, now, nowTime);
      }
    }

    /** The arms of `handleIncomingMessage` that reach the transfer engine. */
    method RouteTransferMessage(m: Message, peerKey: string, now: int, nowTime: TimePoint)
      returns (ghost routed: Handler, ghost optimal: nat, ghost step: nat, ghost stepIndex: nat)
      requires Valid() && !m.TextMessage?
      modifies this`signals, this`receiveTimerStart, this`Outbox, this`applied
      modifies fileTransfer, settings
      modifies (if m.ChunkMetrics? then fileTransfer.OptimizerOf(m.fileId) else {})`currentSizeIndex
      modifies if m.ChunkMetrics? && IsSender(fileTransfer.activeTransfers, m.fileId) then fileTransfer.OptimizerOf(m.fileId) else {}
      modifies peers.Values`writeQueue, peers.Values`Sent, peers.Values`isWriting
      ensures Valid()
      ensures routed == Dispatch(m.Type())
      ensures forall c :: c in peers.Values ==> c.writeQueue == old(c.writeQueue)
      ensures m.FileMetadata? ==>
                var path := DestinationPath(fileTransfer.workingDirectory, m.fileName);
                && fileTransfer.store == CreateFile(old(fileTransfer.store), path, m.fileSize)
                && m.fileId in fileTransfer.activeTransfers
                && fileTransfer.activeTransfers == old(fileTransfer.activeTransfers)[m.fileId :=
                     TransferInfo(path, "", 0, m.fileSize, false, false, fileTransfer.activeTransfers[m.fileId].optimizer)]
                && fileTransfer.events == old(fileTransfer.events)
                && signals == old(signals) + [FileReceiveStarted(m.fileName, ReceivedFilePath(fileTransfer.workingDirectory, m.fileName), m.fileSize)]
                && receiveTimerStart == now
                && Outbox == old(Outbox) && settings.Value() == old(settings.Value()) && applied == old(applied)
      ensures m.ChunkMessage? ==>
                && fileTransfer.State() == IncomingChunk(old(fileTransfer.State()), m)
                && (ProgressDue(now - old(receiveTimerStart)) ==>
                      signals == old(signals) + [FileReceiveProgressUpdated(fileTransfer.GetTransferProgress(m.fileId))] && receiveTimerStart == now)
                && (!ProgressDue(now - old(receiveTimerStart)) ==> signals == old(signals) && receiveTimerStart == old(receiveTimerStart))
                && (peerKey in peers ==> Outbox == old(Outbox) + [(peerKey, MetricsReply(m, nowTime))])
                && (peerKey !in peers ==> Outbox == old(Outbox))
                && settings.Value() == old(settings.Value()) && applied == old(applied)
      ensures m.ChunkMetrics? ==>
                && (IsSender(old(fileTransfer.activeTransfers), m.fileId) ==>
                      fileTransfer.State() == NextChunk(old(fileTransfer.State()), m.fileId, step))
                && (!IsSender(old(fileTransfer.activeTransfers), m.fileId) ==> fileTransfer.State() == old(fileTransfer.State()))
                && MIN_CHUNK_SIZE <= optimal <= MAX_CHUNK_SIZE
                && settings.Value() == Updated(old(settings.Value()), optimal)
                && (forall c :: c in peers.Values ==> c in applied && applied[c] == settings.Value())
                && signals == old(signals) && receiveTimerStart == old(receiveTimerStart) && Outbox == old(Outbox)
      ensures m.ChunkMetrics? && IsSender(old(fileTransfer.activeTransfers), m.fileId) && ChunkDue(old(fileTransfer.activeTransfers), m.fileId) ==>
                var o := old(fileTransfer.activeTransfers)[m.fileId].optimizer;
                && stepIndex < |o.possibleSizes| && step == o.possibleSizes[stepIndex]
                && Reoptimized(o.performanceData, o.possibleSizes, old(o.currentSizeIndex), stepIndex)
      ensures m.ChunkMetrics? && m.fileId in old(fileTransfer.activeTransfers) &&
              !(IsSender(old(fileTransfer.activeTransfers), m.fileId) && ChunkDue(old(fileTransfer.activeTransfers), m.fileId)) ==>
                var o := old(fileTransfer.activeTransfers)[m.fileId].optimizer;
                stepIndex == old(o.currentSizeIndex)
      ensures m.ChunkMetrics? && m.fileId !in fileTransfer.activeTransfers ==> optimal == MAX_CHUNK_SIZE
      ensures m.ChunkMetrics? && m.fileId in old(fileTransfer.activeTransfers) && !IsSender(old(fileTransfer.activeTransfers), m.fileId) ==>
                var o := old(fileTransfer.activeTransfers)[m.fileId].optimizer;
                o.Samples == old(o.Samples) && o.performanceData == old(o.performanceData)
      ensures m.ChunkMetrics? && m.fileId in fileTransfer.activeTransfers ==>
                var o := fileTransfer.activeTransfers[m.fileId].optimizer;
                && o.currentSizeIndex < |o.possibleSizes| && optimal == o.possibleSizes[o.currentSizeIndex]
                && Reoptimized(o.performanceData, o.possibleSizes, stepIndex, o.currentSizeIndex)
    {
      optimal, step, stepIndex := 0, 0, 0;
      if m.FileMetadata? {
        routed := MetadataHandler;
        HandleFileMetadata(m, peerKey, now);
      } else {
        routed, optimal, step, stepIndex := RouteChunkTraffic(m, peerKey, now, nowTime);
      }
    }

    /** The chunk and metrics arms of `handleIncomingMessage`. */
    method RouteChunkTraffic(m: Message, peerKey: string, now: int, nowTime: TimePoint)
      returns (ghost routed: Handler, ghost optimal: nat, ghost step: nat, ghost stepIndex: nat)
      requires Valid() && (m.ChunkMessage? || m.ChunkMetrics?)
      modifies this`signals, this`receiveTimerStart, this`Outbox, this`applied
      modifies fileTransfer, settings
      modifies (if m.ChunkMetrics? then fileTransfer.OptimizerOf(m.fileId) else {})`currentSizeIndex
      modifies if m.ChunkMetrics? && IsSender(fileTransfer.activeTransfers, m.fileId) then fileTransfer.OptimizerOf(m.fileId) else {}
      modifies peers.Values`writeQueue, peers.Values`Sent, peers.Values`isWriting
      ensures Valid()
      ensures routed == Dispatch(m.Type())
      ensures forall c :: c in peers.Values ==> c.writeQueue == old(c.writeQueue)
      ensures m.ChunkMessage? ==>
                && fileTransfer.State() == IncomingChunk(old(fileTransfer.State()), m)
                && (ProgressDue(now - old(receiveTimerStart)) ==>
                      signals == old(signals) + [FileReceiveProgressUpdated(fileTransfer.GetTransferProgress(m.fileId))] && receiveTimerStart == now)
                && (!ProgressDue(now - old(receiveTimerStart)) ==> signals == old(signals) && receiveTimerStart == old(receiveTimerStart))
                && (peerKey in peers ==> Outbox == old(Outbox) + [(peerKey, MetricsReply(m, nowTime))])
                && (peerKey !in peers ==> Outbox == old(Outbox))
                && settings.Value() == old(settings.Value()) && applied == old(applied)
      ensures m.ChunkMetrics? ==>
                && (IsSender(old(fileTransfer.activeTransfers), m.fileId) ==>
                      fileTransfer.State() == NextChunk(old(fileTransfer.State()), m.fileId, step))
                && (!IsSender(old(fileTransfer.activeTransfers), m.fileId) ==> fileTransfer.State() == old(fileTransfer.State()))
                && MIN_CHUNK_SIZE <= optimal <= MAX_CHUNK_SIZE
                && settings.Value() == Updated(old(settings.Value()), optimal)
                && (forall c :: c in peers.Values ==> c in applied && applied[c] == settings.Value())
                && signals == old(signals) && receiveTimerStart == old(receiveTimerStart) && Outbox == old(Outbox)
      ensures m.ChunkMetrics? && IsSender(old(fileTransfer.activeTransfers), m.fileId) && ChunkDue(old(fileTransfer.activeTransfers), m.fileId) ==>
                var o := old(fileTransfer.activeTransfers)[m.fileId].optimizer;
                && stepIndex < |o.possibleSizes| && step == o.possibleSizes[stepIndex]
                && Reoptimized(o.performanceData, o.possibleSizes, old(o.currentSizeIndex), stepIndex)
      ensures m.ChunkMetrics? && m.fileId in old(fileTransfer.activeTransfers) &&
              !(IsSender(old(fileTransfer.activeTransfers), m.fileId) && ChunkDue(old(fileTransfer.activeTransfers), m.fileId)) ==>
                var o := old(fileTransfer.activeTransfers)[m.fileId].optimizer;
                stepIndex == old(o.currentSizeIndex)
      ensures m.ChunkMetrics? && m.fileId !in fileTransfer.activeTransfers ==> optimal == MAX_CHUNK_SIZE
      ensures m.ChunkMetrics? && m.fileId in old(fileTransfer.activeTransfers) && !IsSender(old(fileTransfer.activeTransfers), m.fileId) ==>
                var o := old(fileTransfer.activeTransfers)[m.fileId].optimizer;
                o.Samples == old(o.Samples) && o.performanceData == old(o.performanceData)
      ensures m.ChunkMetrics? && m.fileId in fileTransfer.activeTransfers ==>
                var o := fileTransfer.activeTransfers[m.fileId].optimizer;
                && o.currentSizeIndex < |o.possibleSizes| && optimal == o.possibleSizes[o.currentSizeIndex]
                && Reoptimized(o.performanceData, o.possibleSizes, stepIndex, o.currentSizeIndex)
    {
      optimal, step, stepIndex := 0, 0, 0;
      if m.ChunkMessage? {
        routed := ChunkHandler;
        HandleChunkMessage(m, peerKey, now, nowTime);
      } else {
        routed := MetricsHandler;
        optimal, step, stepIndex := HandleChunkMetrics(m, peerKey, nowTime);
      }
    }
  }
}
