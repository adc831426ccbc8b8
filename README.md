# QuickShare transfer core in Dafny

A model of the peer-to-peer file-transfer core of QuickShare. The core has six parts:

- the wire framing and the per-connection write queue and reader (`PeerConnection`);
- the message variants and the `ChunkMetrics` time stamp;
- the message-handler registry;
- the socket tuning policy (`NetworkSettings`);
- the adaptive chunk-size optimizer;
- the file-transfer engine (`FileTransfer`) and the routing layer around it (`NetworkManager`).

Each core file keeps its own form. The engine, the optimizer, the settings, the connection, the handler registry and the manager are classes whose methods update fields. Their methods are proved against pure specification functions:

- the engine against `NextChunk`, `IncomingChunk`, `CheckCompletion`, `SetPaused` and `Cancelled`;
- the optimizer against `Recorded`, `Summarises` and `IsMinimiser`;
- the settings against `Updated`;
- the connection against `Frames` and `Wire`.

The routing helpers of `NetworkManager` (`getPeerKey`, `findPeerByFileId`, the dispatch switch, the latency cast) are pure functions.

The filesystem facade (`FileSystemManager`) is a set of pure functions over a map from path to bytes. The CRC32 checksum and the Boost serialization of a message are uninterpreted function parameters.

Modules, leaf to root:

| file | module | models |
|---|---|---|
| ints.dfy | `Ints` | bytes, `uint32_t` host-order fields, C++ truncating division, `std::to_string` |
| wrappers.dfy | `Wrappers` | `Option` |
| messages.dfy | `Messages` | message variants, type tags, `ChunkMetrics` time encoding |
| framing.dfy | `Framing` | typed and length-prefixed frames and their readers |
| connection.dfy | `Connection` | class `PeerConnection`: write queue, write completions, reader |
| handlers.dfy | `Handlers` | class `MessageHandler` |
| optimizer.dfy | `Optimizer` | class `ChunkSizeOptimizer` |
| settings.dfy | `Settings` | class `NetworkSettings` |
| storage.dfy | `Storage` | the filesystem facade |
| transfer.dfy | `Transfer` | class `FileTransfer` and its specification functions |
| transfer_runs.dfy | `TransferRuns` | whole sending and receiving runs, end-to-end copy |
| manager.dfy | `Manager` | class `NetworkManager` and the routing helpers |

The main results:

- **Framing and write order.** A length frame is read back as its payload when the payload fits a `uint32_t` (`LengthFrameRoundTrip`). Any payload longer than that is misread (`OversizedPayloadMisread`). Frames written one after another are read back in order (`WireRoundTrip`). The bytes a connection has written are always the wire encoding of a prefix of the messages sent, in the order they were sent (`WrittenIsWirePrefix`).
- **The connection's invariant.** `Valid()` states that the written frames plus the queued frames are exactly the frames of every message sent. Every method of `PeerConnection` keeps it.
- **End-to-end copy.** Suppose a sender gets positive optimizer answers for a non-empty file. Then it announces the file as consecutive slices and reports success once. A receiver that created the zero-filled file and takes those chunks in order ends with an exact copy, and also reports success once (`TransferCopiesFile`). An empty file is the exception: the sender reports success without sending a chunk, so the receiver's entry is never completed (`EmptyFileLeavesReceiverOpen`).
- **Optimizer and candidate list.** The optimizer's records summarise exactly the samples recorded. `getOptimalChunkSize` returns a candidate of minimal average latency whenever the minimiser is a candidate. An untried size (average 0) always beats a measured one. The candidate list is exactly 1024·2^k for k = 0..13, and the engine's invariant keeps it so for every optimizer an entry owns (`OptimizerReady`).
- **Routing.** Peer keys are injective. A file id made by the engine leads back to its peer. Every message type reaches exactly its own handler. Each incoming message has exactly its handler's effect on the engine, the signals, the settings and the outbox, and no message touches a connection's queue. The handler taken is returned as the ghost out-parameter `routed`. The buffer sizes follow the answer of the transfer's own optimizer, which re-optimizes on every question (`Reoptimized`).

Where the intended design and the code differ, the model follows the code:

- `PeerConnection::sendMessage` queues TEXT messages only. The chunk, metadata and metrics messages that the manager hands to a connection are dropped there.
- The connection's reader uses a 4-byte length with no type byte (`doRead`). The header's typed layout (`serializeMessage`) is modelled separately, as `TypedFrame` and `ReadTypedFrame`.
- The optimizer keeps an integer total, a count and a truncated average per size. This is one reading of `ChunkSizeOptimizer.cpp`: `recordPerformance` uses `total_latency` and `count`, which `PerformanceData` in the header does not declare, and the header's `average_latency` is a `double`. The model takes the total and the average as whole microseconds. There is no window, exploration or score.
- `TransferInfo` has eight fields, but both initialisers in `FileTransfer.cpp` give seven values, so the optimizer is written where `expected_hash` stands. The model follows the evident intent: every entry owns a fresh optimizer, and `expected_hash`, which nothing reads, is left out.
- Completion always reports success. The hash is computed but never compared.
- `cancelTransfer` keeps the partial file.
- `handleIncomingChunk` sets the offset to the chunk's end instead of adding to it, and it ignores the pause flag.
- `MessageType` in `Message.hpp` lists only TEXT, FILE_METADATA and CHUNK, but `ChunkMetrics` and the dispatcher use CHUNK_METRICS. It is modelled as a fourth enumerator with byte 3.
- `ChunkMetrics.hpp` names its second field `chunk_number`, while the manager calls `getOffset()`. The model has a single `offset` field.

## Model

| member | source | states |
|---|---|---|
| Ints.ToUint32 | src/network/PeerConnection.cpp:42 | the cast to `uint32_t` fits 32 bits and is the identity on values below 2^32 |
| Ints.EncodeUint32 | src/network/PeerConnection.cpp:42-44 | the length field is exactly four bytes |
| Ints.DecodeUint32 | src/network/PeerConnection.cpp:68-72 | the four bytes read into `message_length_` give a `uint32_t` |
| Ints.Uint32RoundTrip | src/network/PeerConnection.cpp:42-44 | writing a length and reading it back gives the length modulo 2^32 |
| Ints.Uint32BytesRoundTrip | src/network/PeerConnection.cpp:68-72 | any four bytes are the encoding of the value they decode to |
| Ints.TruncDiv | src/network/Message/ChunkMetrics.cpp:9-11 | `duration_cast` truncates toward zero: it keeps the sign, and it is 0 exactly when the magnitude is below one unit |
| Ints.TruncDivIsDiv | src/network/Message/ChunkMetrics.cpp:9-11 | truncating division equals Euclidean division of the magnitudes, with the sign restored |
| Ints.TruncDivExact | src/network/Message/ChunkMetrics.cpp:14-17 | an exact multiple of the unit loses nothing |
| Ints.DecimalString | src/network/NetworkManager.cpp:401-402 | `std::to_string` of an unsigned value: non-empty, all digits, no leading zero |
| Ints.DecimalRoundTrip | src/network/FileSystemManager.cpp:45 | decimal text reads back as the number it was written from |
| Ints.DecimalInjective | src/network/NetworkManager.cpp:401-402 | different numbers have different decimal texts |
| Messages.TagByte | src/network/Message/Message.hpp:10-14 | each enumerator's `uint8_t` value is below 4 |
| Messages.TagType | src/network/Message/Message.hpp:10-14 | a byte names an enumerator exactly when it is below 4, and it names the enumerator with that byte |
| Messages.TagRoundTrip | src/network/PeerConnection.hpp:73-78 | every type is read back from the type byte written for it |
| Messages.MakeChunkMetrics | src/network/Message/ChunkMetrics.cpp:3-12 | keeps file id, offset and size; the stored microseconds are within one microsecond of the time point, toward the epoch |
| Messages.ReceivedTime | src/network/Message/ChunkMetrics.cpp:14-18 | `getReceivedTime` is a whole number of microseconds equal to the stored count |
| Messages.ReceivedTimeRoundTrip | src/network/Message/ChunkMetrics.cpp:3-18 | a microsecond-aligned time point survives construction and `getReceivedTime` unchanged |
| Messages.ReceivedTimeTruncates | src/network/Message/ChunkMetrics.cpp:3-18 | otherwise the rebuilt time is less than a microsecond from the original, toward the epoch |
| Framing.TypedFrame | src/network/PeerConnection.hpp:68-85 | `serializeMessage`: length 5 + payload, type byte first, then the length mod 2^32, then the payload |
| Framing.LengthFrame | src/network/PeerConnection.cpp:40-46 | the TEXT frame: length 4 + payload, length mod 2^32 first, then the payload |
| Framing.ReadTypedFrame | src/network/PeerConnection.hpp:39-44 | any frame it accepts is a typed frame followed by a strictly shorter rest |
| Framing.ReadLengthFrame | src/network/PeerConnection.cpp:68-89 | any frame it accepts is a length frame followed by the unread rest |
| Framing.TypedFrameRoundTrip | src/network/PeerConnection.hpp:68-85 | a typed frame with a payload below 2^32 bytes is read back as its type and payload, whatever follows |
| Framing.LengthFrameRoundTrip | src/network/PeerConnection.cpp:40-89 | a length frame with a payload below 2^32 bytes is read back as its payload, whatever follows |
| Framing.OversizedPayloadMisread | src/network/PeerConnection.cpp:42 | a payload of 2^32 bytes or more is never read back intact |
| Framing.Wire | src/network/PeerConnection.cpp:40-56 | the bytes of consecutive frames: at least four per message |
| Framing.WireRoundTrip | src/network/PeerConnection.cpp:30-89 | frames of payloads below 2^32 bytes, written one after another, are read back one after another, in order |
| Framing.WireAppend | src/network/PeerConnection.cpp:50-51 | the wire of a concatenation is the concatenation of the wires |
| Connection.Frames | src/network/PeerConnection.cpp:40-51 | the frame queued for each sent message is its length frame, one per message |
| Connection.FramesAppend | src/network/PeerConnection.cpp:50-51 | sending one more message adds its frame at the end |
| Connection.WrittenIsWirePrefix | src/network/PeerConnection.cpp:91-138 | whatever has been written is the wire encoding of a prefix of the messages sent, in send order |
| Connection.Resized | src/network/PeerConnection.cpp:77 | `resize` keeps a prefix or pads with zeros to exactly the new length |
| Connection.QueueAdvance | src/network/PeerConnection.cpp:128-133 | popping the written front frame keeps written + queued equal to the frames sent |
| Connection.QueueAppend | src/network/PeerConnection.cpp:50-51 | pushing a new frame keeps written + queued equal to the frames sent |
| Connection.PeerConnection.constructor | src/network/PeerConnection.cpp:8-12 | empty queue, no write in flight, a 1024-byte read buffer |
| Connection.PeerConnection.SendMessage | src/network/PeerConnection.cpp:30-56 | non-TEXT: nothing changes; TEXT: its length frame goes to the back of the queue, and a write is in flight afterwards |
| Connection.PeerConnection.DoWrite | src/network/PeerConnection.cpp:91-106 | a write is in flight exactly when the queue is non-empty |
| Connection.PeerConnection.HandleWrite | src/network/PeerConnection.cpp:128-138 | on success the front frame moves to the written frames; on error the socket closes and the queue is kept |
| Connection.PeerConnection.Stop | src/network/PeerConnection.cpp:19-28 | the socket is closed |
| Connection.PeerConnection.DoRead | src/network/PeerConnection.cpp:14-17 | a length read is armed and the connection's invariant is kept |
| Connection.PeerConnection.OnLengthRead | src/network/PeerConnection.cpp:68-89 | on success the length is decoded, the buffer resized to it and the body read armed; on error the socket closes |
| Connection.PeerConnection.OnBodyRead | src/network/PeerConnection.cpp:108-126 | on success the body goes to the handler and the next length read is armed; on error the socket closes |
| Connection.ReceiveOneFrame | src/network/PeerConnection.cpp:68-126 | a length read and a body read of one frame deliver exactly the sender's payload |
| Handlers.MessageHandler.constructor | src/network/MessageHandler.hpp:16 | no handlers registered, nothing invoked |
| Handlers.MessageHandler.RegisterHandler | src/network/MessageHandler.cpp:3-6 | the type maps to the new callback; other types keep theirs; nothing is invoked |
| Handlers.MessageHandler.HandleMessage | src/network/MessageHandler.cpp:8-17 | the callback registered for the type is invoked exactly once; with none registered nothing is invoked |
| Optimizer.Recorded | src/network/ChunkSizeOptimizer.cpp:14-21 | one more sample, the latency added to the total, the average the total divided by the count rounded toward zero |
| Optimizer.RecordedSummarises | src/network/ChunkSizeOptimizer.cpp:14-21 | after a sample, the record is the total, count and truncated mean of its samples with the new one appended |
| Optimizer.SortedCopy | src/network/ChunkSizeOptimizer.cpp:6 | `std::sort`: sorted, a permutation of the input |
| Optimizer.Insert | src/network/ChunkSizeOptimizer.cpp:6 | the insertion step adds exactly one occurrence of the element |
| Optimizer.InsertAtEnd | src/network/ChunkSizeOptimizer.cpp:6 | a value above every element is inserted at the end |
| Optimizer.SortedCopyOfIncreasing | src/network/ChunkSizeOptimizer.cpp:6 | sorting a strictly increasing list leaves it unchanged |
| Optimizer.InsertSorted | src/network/ChunkSizeOptimizer.cpp:6 | inserting into a sorted list keeps it sorted |
| Optimizer.Find | src/network/ChunkSizeOptimizer.cpp:39-40 | `std::find` (also the `find('_')` of `findPeerByFileId`): the first position holding the value, or the length (npos) when absent |
| Optimizer.MinLatencySize | src/network/ChunkSizeOptimizer.cpp:31-35 | `std::min_element`: the size returned has the smallest average latency of all records |
| Optimizer.MeasuredLosesToUntried | src/network/ChunkSizeOptimizer.cpp:14-45 | a size whose samples all took at least 1 µs is never optimal while some size is untried |
| Optimizer.UntriedIsOptimal | src/network/ChunkSizeOptimizer.cpp:14-45 | with non-negative samples an untried size is always optimal |
| Optimizer.FreshRecords | src/network/ChunkSizeOptimizer.cpp:8-11 | exactly the candidates get a record, and each record is fresh |
| Optimizer.ChunkSizeOptimizer.constructor | src/network/ChunkSizeOptimizer.cpp:3-12 | the candidates are sorted, the index is at the middle, and every candidate has a fresh record with no samples |
| Optimizer.ChunkSizeOptimizer.RecordPerformance | src/network/ChunkSizeOptimizer.cpp:14-21 | only that size's record changes (created fresh if absent), and it summarises its samples plus the new one |
| Optimizer.ChunkSizeOptimizer.OptimizeChunkSize | src/network/ChunkSizeOptimizer.cpp:29-45 | picks a minimiser; the index moves to its first position if it is a candidate, else it stays |
| Optimizer.ChunkSizeOptimizer.GetOptimalChunkSize | src/network/ChunkSizeOptimizer.cpp:23-45 | returns the candidate at the index after re-optimizing (`Reoptimized`: the first position of some minimiser if that minimiser is a candidate, the old index otherwise); the result has minimal latency whenever every minimiser is a candidate, and it is the only minimiser when there is one |
| Settings.DoubledChunk | src/network/NetworkSettings.hpp:44 | `size_t` doubling: exact below 2^63, otherwise wraps modulo 2^64 |
| Settings.Clamp | src/network/NetworkSettings.hpp:45-46 | `std::clamp`: within bounds, the identity inside them, the nearest bound outside |
| Settings.BufferSizeMonotone | src/network/NetworkSettings.hpp:42-50 | a larger chunk never gets a smaller buffer while doubling does not wrap |
| Settings.BufferSizeWrapsAtHalfRange | src/network/NetworkSettings.hpp:44-46 | a 2^63-byte chunk wraps to 0 and gets the minimum buffer |
| Settings.Updated | src/network/NetworkSettings.hpp:42-50 | both buffers become the same clamped size in [min, max]; every other setting is kept |
| Settings.UpdatedIdempotent | src/network/NetworkSettings.hpp:42-50 | updating twice for one chunk size equals updating once |
| Settings.UpdatedForgetsBuffers | src/network/NetworkSettings.hpp:42-50 | the result does not depend on the buffer sizes held before |
| Settings.NetworkSettings.constructor | src/network/NetworkSettings.hpp:15-22 | the defaults: 64 KiB window, Nagle off, keep-alive and reuse on, 1 MiB buffers within [8 KiB, 16 MiB] |
| Settings.NetworkSettings.SetWindowSize | src/network/NetworkSettings.hpp:24-25 | the getter returns the value set |
| Settings.NetworkSettings.SetDisableNagle | src/network/NetworkSettings.hpp:27-28 | the getter returns the value set |
| Settings.NetworkSettings.SetKeepAlive | src/network/NetworkSettings.hpp:30-31 | the getter returns the value set |
| Settings.NetworkSettings.SetReuseAddress | src/network/NetworkSettings.hpp:33-34 | the getter returns the value set |
| Settings.NetworkSettings.SetSendBufferSize | src/network/NetworkSettings.hpp:36-37 | the getter returns the value set |
| Settings.NetworkSettings.SetReceiveBufferSize | src/network/NetworkSettings.hpp:39-40 | the getter returns the value set |
| Settings.NetworkSettings.Assign | src/network/NetworkManager.cpp:202 | the copy assignment: every field takes the other object's value |
| Settings.NetworkSettings.UpdateBufferSizes | src/network/NetworkSettings.hpp:42-50 | the new settings are `Updated(old, chunk)`: equal send and receive buffers in [8 KiB, 16 MiB] |
| Storage.FileName | src/network/FileSystemManager.cpp:117-120 | `filename()`: the suffix after the last '/', with no '/' in it |
| Storage.FileHashDigits | src/network/FileSystemManager.cpp:20-46 | the hash is empty exactly for a missing file; otherwise it is the decimal digits of the 32-bit checksum |
| Storage.FileHash | src/network/FileSystemManager.cpp:20-46 | empty exactly for a missing file; otherwise only decimal digits |
| Storage.ReadChunk | src/network/FileSystemManager.cpp:48-65 | never more than requested; for an offset within the file, exactly the bytes at the offset, as many as requested or as remain; nothing for a missing file or an offset past the end |
| Storage.Overwrite | src/network/FileSystemManager.cpp:67-86 | the file keeps its length, or grows to end exactly where the data ends |
| Storage.OverwriteSpec | src/network/FileSystemManager.cpp:67-86 | the data lands at the offset, bytes outside it are kept, a gap reads as zeros, and the length grows only past the end |
| Storage.WriteChunk | src/network/FileSystemManager.cpp:67-86 | no file is created or removed (what the target then holds is stated by `OverwriteSpec` and `ReadAfterWrite`) |
| Storage.CreateFile | src/network/FileSystemManager.cpp:88-105 | the path is added to the existing files; the new file is `size` zero bytes; every other file is kept |
| Storage.ReadAfterWrite | src/network/FileSystemManager.cpp:48-86 | reading back the range just written returns the data written |
| Storage.WriteNextSlice | src/network/FileSystemManager.cpp:67-86 | writing the next slice of a source into a prefix-then-zeros file extends the prefix |
| Storage.ChunkedCopy | src/network/FileSystemManager.cpp:48-86 | reading consecutive chunks and writing each at its offset into a zero-filled file reproduces the file, whatever the chunk sizes |
| Transfer.DoublingIsPow2 | src/network/FileTransfer.cpp:249-257 | the k-th candidate is 1024·2^k |
| Transfer.Pow2Window | src/network/FileTransfer.cpp:252 | only 1024·2^13 fits the limit while its double does not |
| Transfer.DoublingTable | src/network/FileTransfer.cpp:249-257 | the candidate list has exactly 14 sizes, 1 KiB to 8 MiB |
| Transfer.DoublingsArePow2 | src/network/FileTransfer.cpp:249-257 | the written-out candidate list 1 KiB, 2 KiB, ..., 8 MiB is 1024·2^k for k = 0..13 |
| Transfer.DoublingIsTheList | src/network/FileTransfer.cpp:249-257 | the list the doubling loop produces is exactly that written-out list |
| Transfer.DoublingIncreasing | src/network/FileTransfer.cpp:249-257 | the candidates strictly increase |
| Transfer.GeneratePossibleChunkSizes | src/network/FileTransfer.cpp:249-257 | the loop yields the doubling sequence from 1024, stopping at the last value not above 10485760 |
| Transfer.FileIdFor | src/network/FileTransfer.cpp:217-221 | the first '_' of the id separates the file's hash from the peer id |
| Transfer.DestinationPath | src/network/FileTransfer.cpp:41-42 | the path library's `/`: an absolute name is the path itself; a relative name follows the working directory, and the length says exactly one '/' is added between them unless the directory is empty or already ends in '/'; a name without '/' is the new path's file name |
| Transfer.FileNameAfterSlash | src/network/FileTransfer.cpp:41-42 | a name without '/' placed after a directory and '/' is the file name of the joined path |
| Transfer.FileNameOfPlainName | src/network/FileTransfer.cpp:41-42 | a name without '/', joined to an empty directory, is its own file name |
| Transfer.CheckCompletion | src/network/FileTransfer.cpp:223-247 | at or past the end the entry is erased and success reported once; otherwise nothing changes; offsets stay in range |
| Transfer.NextChunk | src/network/FileTransfer.cpp:185-215 | unknown or paused: nothing changes; otherwise one chunk of min(optimal, remaining) bytes read at the offset is announced and the offset advances, never past the size; other entries are untouched |
| Transfer.IncomingChunk | src/network/FileTransfer.cpp:56-82 | unknown or sending: nothing changes; otherwise the payload is written at its offset, the offset becomes the chunk's end, and reaching the size completes the transfer |
| Transfer.SetPaused | src/network/FileTransfer.cpp:96-122 | only the flag of an existing entry changes |
| Transfer.Cancelled | src/network/FileTransfer.cpp:124-135 | an existing entry is erased and failure reported once; an unknown id changes nothing |
| Transfer.Progress | src/network/FileTransfer.cpp:137-157 | 0 for an unknown id or an empty file; otherwise it never overstates offset/size, is capped at 100, and is 100 exactly at the end |
| Transfer.OwnedByUpdate | src/network/FileTransfer.hpp:50-61 | changing an entry but not its optimizer keeps every entry owning a distinct ready optimizer |
| Transfer.OwnedByRemove | src/network/FileTransfer.hpp:50-61 | erasing an entry keeps the ownership invariant |
| Transfer.OwnedByAdd | src/network/FileTransfer.hpp:50-61 | adding an entry with a new ready optimizer keeps the ownership invariant |
| Transfer.FileTransfer.constructor | src/network/FileTransfer.cpp:3-5 | no transfers, no events, the given files |
| Transfer.FileTransfer.NewOptimizer | src/network/FileTransfer.cpp:19-26 | a fresh optimizer whose candidates are exactly the fourteen sizes 1024·2^k, k = 0..13, in order, with the index at 7 (128 KiB) and fresh records |
| Transfer.FileTransfer.CheckTransferCompletion | src/network/FileTransfer.cpp:223-247 | the new state is `CheckCompletion(old, id)` |
| Transfer.FileTransfer.ProcessNextChunk | src/network/FileTransfer.cpp:185-215 | the new state is `NextChunk(old, id, optimal)`; when a chunk is due, the transfer's optimizer re-optimizes (`Reoptimized`: its index moves to the first position of a minimal-latency size, or stays when that size is not a candidate) and `optimal` is the candidate at the new index; when no chunk is due, the index is unchanged; only that optimizer's index may change |
| Transfer.FileTransfer.SendChunk | src/network/FileTransfer.cpp:200-214 | for a due chunk: the optimizer re-optimizes, `optimal` is the candidate at the new index, and the state is `NextChunk(old, id, optimal)` |
| Transfer.FileTransfer.StartSending | src/network/FileTransfer.cpp:7-37 | a missing file changes nothing; otherwise the entry is registered under hash_peer, the metadata announced, then `NextChunk`; for a non-empty file the first chunk's size is one of the fresh optimizer's fourteen candidates 1024·2^k |
| Transfer.FileTransfer.RegisterSender | src/network/FileTransfer.cpp:16-34 | a sending, unpaused entry at offset 0 under hash_peer owning a fresh optimizer whose candidates are 1024·2^k for k = 0..13, and the metadata event with the file's name, size and hash |
| Transfer.FileTransfer.StartReceiving | src/network/FileTransfer.cpp:39-54 | a zero-filled file of the announced size is created at `DestinationPath(working directory, name)`, which is the name itself for an absolute name; a receiving entry at offset 0 is registered; other entries are kept |
| Transfer.FileTransfer.HandleIncomingChunk | src/network/FileTransfer.cpp:56-82 | the new state is `IncomingChunk(old, chunk)` |
| Transfer.FileTransfer.HandleChunkMetrics | src/network/FileTransfer.cpp:84-94 | for a sender the sample is appended to its optimizer and then `NextChunk`; when a chunk is due, the optimizer re-optimizes over the records that include the new sample and `optimal` is the candidate at the new index; otherwise the index is unchanged; a non-sender changes nothing, its optimizer's records and samples included; no other transfer's optimizer is touched, and every owned optimizer keeps the fourteen-doubling candidate list |
| Transfer.FileTransfer.RecordAndProceed | src/network/FileTransfer.cpp:89-93 | the sending branch: the sample is appended, then `NextChunk` with the re-optimized candidate when a chunk is due; the candidate list stays the fourteen doublings |
| Transfer.FileTransfer.RecordSample | src/network/FileTransfer.cpp:91 | the sender's optimizer appends the sample under the chunk's size, its index stays, and the engine's invariant (the candidate list included) is kept |
| Transfer.FileTransfer.PauseTransfer | src/network/FileTransfer.cpp:96-106 | the new state is `SetPaused(old, id, true)` |
| Transfer.FileTransfer.ResumeTransfer | src/network/FileTransfer.cpp:108-122 | the flag clears, then `NextChunk` for a sender only; a sender with bytes left gets the candidate at its optimizer's re-optimized index; for a receiver, or a sender with no bytes left, the optimizer's index is unchanged |
| Transfer.FileTransfer.CancelTransfer | src/network/FileTransfer.cpp:124-135 | the new state is `Cancelled(old, id)` |
| Transfer.FileTransfer.GetTransferProgress | src/network/FileTransfer.cpp:137-157 | an integer percent of at most 100 (the value is `Progress` of the table, whose row states the rest) |
| Transfer.FileTransfer.GetOptimalChunkSize | src/network/FileTransfer.cpp:159-167 | 10 MiB for an unknown id; otherwise the transfer's optimizer re-optimizes (`Reoptimized`) and the result is the candidate at the new index; always in [1 KiB, 10 MiB]; no other optimizer changes |
| TransferRuns.Slices | src/network/FileTransfer.cpp:205-211 | every slice announced names the transfer's file id |
| TransferRuns.LengthsCover | src/network/FileTransfer.cpp:200-214 | with positive answers, the chunk lengths are positive and add up to exactly the bytes left |
| TransferRuns.SendStepsAbsent | src/network/FileTransfer.cpp:187-191 | steps for an unregistered transfer change nothing |
| TransferRuns.SendOneChunk | src/network/FileTransfer.cpp:200-214 | one step before the end announces the next slice of the file itself |
| TransferRuns.SenderSendsWholeFile | src/network/FileTransfer.cpp:185-215 | a sender announces the rest of the file as consecutive slices, then reports success once and is erased |
| TransferRuns.SentWholeAtEnd | src/network/FileTransfer.cpp:194-198 | at the end of the file the next step completes and later steps do nothing |
| TransferRuns.SentWholeStep | src/network/FileTransfer.cpp:200-214 | after one chunk the rest of the run ends in the same place |
| TransferRuns.ReceiveMiddleChunk | src/network/FileTransfer.cpp:74-81 | a chunk short of the end extends the received prefix without completing |
| TransferRuns.ReceiveLastChunk | src/network/FileTransfer.cpp:74-81 | the chunk reaching the end leaves the whole file and one success report |
| TransferRuns.ReceiverRebuildsFile | src/network/FileTransfer.cpp:56-82 | consecutive non-empty chunks of the rest of a file rebuild it exactly and complete once |
| TransferRuns.ReceiveFinal | src/network/FileTransfer.cpp:56-82 | a run of one final chunk completes the file |
| TransferRuns.ReceiveStep | src/network/FileTransfer.cpp:56-82 | the first chunk of a longer run leaves a longer prefix and the same end |
| TransferRuns.EmptyFileLeavesReceiverOpen | src/network/FileTransfer.cpp:56-82 | for an empty file the sender announces no chunk and reports success, so the receiver takes nothing and keeps its entry |
| TransferRuns.TransferCopiesFile | src/network/FileTransfer.cpp:7-82 | the chunks a sender announces, received in order, copy the file exactly; both sides report success once and erase the entry |
| Manager.PeerKey | src/network/NetworkManager.cpp:399-403 | the key is the address, then ':', then the port digits |
| Manager.PeerKeyPort | src/network/NetworkManager.cpp:399-403 | the text after the address's ':' reads back as the port |
| Manager.PeerKeyInjective | src/network/NetworkManager.cpp:399-403 | two endpoints share a key only if they are the same endpoint |
| Manager.FileIdPeerKey | src/network/NetworkManager.cpp:405-410 | the key is a suffix of the id; without a '_' the whole id (npos + 1 wraps to 0) |
| Manager.PeerFromFileId | src/network/NetworkManager.cpp:405-410 | an id of a '_'-free hash, '_' and a peer key yields that peer key |
| Manager.FileIdNamesPeer | src/network/FileTransfer.cpp:217-221 | every file id the engine generates leads back to the peer it was started for |
| Manager.Dispatch | src/network/NetworkManager.cpp:290-311 | every type reaches a handler, never the default branch |
| Manager.Route | src/network/NetworkManager.cpp:290-311 | a type byte reaches the default branch exactly when it names no enumerator |
| Manager.DispatchExclusive | src/network/NetworkManager.cpp:290-311 | two types share a handler only if equal, and the byte of a type routes to that type's handler |
| Manager.MetricsReply | src/network/NetworkManager.cpp:346-348 | the metrics name the chunk's file, offset and payload size, stamped within a microsecond of now |
| Manager.Latency | src/network/NetworkManager.cpp:361-364 | the elapsed nanoseconds cast to microseconds, truncated toward zero |
| Manager.LatencyBounds | src/network/NetworkManager.cpp:361-364 | for a stamp not after now, the latency is non-negative and within one microsecond of the elapsed time |
| Manager.ReceivedFilePath | src/network/NetworkManager.cpp:323 | the announced path starts with the working directory, then one '/', then the file name unchanged, whatever the name |
| Manager.AnnouncedPathIsCreatedPath | src/network/NetworkManager.cpp:320-323 | for a relative name and a directory without a trailing '/', the announced path is the path the engine creates; for an absolute name the engine creates the name itself, and the announced path differs from it |
| Manager.NetworkManager.constructor | src/network/NetworkManager.cpp:8-42 | no peers, port 8080, acceptor not yet open, default settings, an empty engine and registry, both timers started, no settings applied to any connection, nothing sent |
| Manager.NetworkManager.HandleAccept | src/network/NetworkManager.cpp:231-258 | on success the connection is registered under its endpoint key, gets the current settings and starts reading; on error nothing changes |
| Manager.NetworkManager.ConnectToPeer | src/network/NetworkManager.cpp:115-125 | the new connection gets the current settings |
| Manager.NetworkManager.HandleConnect | src/network/NetworkManager.cpp:260-285 | on success the connection is registered under its endpoint key and starts reading; on error nothing changes |
| Manager.NetworkManager.Stop | src/network/NetworkManager.cpp:61-85 | every registered connection is closed, the registry emptied and the acceptor closed |
| Manager.NetworkManager.ChangePort | src/network/NetworkManager.cpp:87-113 | always true; the same port changes nothing; otherwise stop, restart on the new port and one PortChanged signal |
| Manager.NetworkManager.SendMessage | src/network/NetworkManager.cpp:135-146 | a known key: the message goes to that connection (queued only if TEXT); an unknown key: nothing is sent; no other queue changes; only the queues, the in-flight flags and the sent logs of connections may change |
| Manager.NetworkManager.SetMessageHandler | src/network/NetworkManager.cpp:186-198 | the callback becomes the TEXT handler; nothing is invoked |
| Manager.NetworkManager.ApplySettingsToPeers | src/network/NetworkManager.cpp:379-382 | every registered connection holds the current settings; other connections keep what they had |
| Manager.NetworkManager.UpdateNetworkSettings | src/network/NetworkManager.cpp:200-208 | the settings become the given ones and every registered connection receives them |
| Manager.NetworkManager.UpdateFileTransferProgress | src/network/NetworkManager.cpp:176-184 | after 200 ms or more, the send progress is signalled and the timer restarts; before that nothing changes |
| Manager.NetworkManager.OnChunkReady | src/network/NetworkManager.cpp:14-21 | the chunk goes to the peer its file id names, if registered; no queue changes; past the 200 ms gate the send progress is emitted and the send timer restarts at `now`, otherwise signals and timer are unchanged |
| Manager.NetworkManager.OnFileMetadata | src/network/NetworkManager.cpp:23-30 | the metadata goes to the peer its file id names, if registered; no queue changes |
| Manager.NetworkManager.HandleTransferComplete | src/network/NetworkManager.cpp:385-397 | one signal of 100 on success or 0 on failure, to the send or the receive progress |
| Manager.NetworkManager.HandleFileMetadata | src/network/NetworkManager.cpp:314-328 | the engine creates the zero-filled file at `DestinationPath` and a receiving, unpaused entry at offset 0 with its own optimizer; other entries and the engine's events are kept; FileReceiveStarted carries `ReceivedFilePath`, the directory, '/' and the name as text; the receive timer restarts; outbox, settings and applied settings are unchanged |
| Manager.NetworkManager.HandleChunkMessage | src/network/NetworkManager.cpp:330-356 | the engine state is `IncomingChunk(old, chunk)`; the receive progress passes the gate; the metrics reply goes to the sender if registered; no queue changes; settings and applied settings are unchanged |
| Manager.NetworkManager.AcceptChunk | src/network/NetworkManager.cpp:336-344 | `IncomingChunk`, then the 200 ms receive-progress gate |
| Manager.NetworkManager.UpdateReceiveProgress | src/network/NetworkManager.cpp:338-344 | after 200 ms or more, the receive progress is signalled and the timer restarts; before that nothing changes |
| Manager.NetworkManager.ReplyWithMetrics | src/network/NetworkManager.cpp:346-355 | the metrics go to the peer the chunk came from, if registered; no queue changes |
| Manager.NetworkManager.HandleChunkMetrics | src/network/NetworkManager.cpp:358-383 | a non-sending transfer's engine state and its optimizer's records and samples are unchanged (only its index is re-optimized by the second question); a sender's optimizer gains the measured latency under the chunk's size and the engine takes its next step, whose size is the candidate at the re-optimized index `stepIndex` when a chunk is due (otherwise `stepIndex` is the old index); the optimizer is then asked again, re-optimizing from `stepIndex`, and the buffers follow its answer (10 MiB for an unknown id); every peer receives the new settings; signals, timers and outbox are unchanged |
| Manager.NetworkManager.FeedEngine | src/network/NetworkManager.cpp:361-374 | the measured latency goes to the engine: a sender records it and takes its next step, sized by the re-optimized candidate when a chunk is due; otherwise nothing changes and the index stays; a non-sender's optimizer records and samples are unchanged |
| Manager.NetworkManager.RetuneBuffers | src/network/NetworkManager.cpp:376-382 | the transfer's optimizer re-optimizes and the buffers follow the candidate at the new index (10 MiB for an unknown id), and every peer receives them |
| Manager.NetworkManager.HandleIncomingMessage | src/network/NetworkManager.cpp:287-312 | each message goes to exactly the handler its type selects (`routed`) and has that handler's effect and no other: the handler registry is unchanged; TEXT invokes the registered callback once and changes neither the engine, the signals, the outbox nor the settings; metadata creates the file and the receiving entry and changes neither the outbox nor the settings; a chunk gives `IncomingChunk`, the progress gate and the metrics reply, and leaves the settings alone; metrics re-optimize (a non-sender's records and samples stay), give the engine's next step and `Updated` settings, and change neither signals, receive timer nor outbox; no message changes a connection's queue, and only a metrics message may touch an optimizer |
| Manager.NetworkManager.RouteTransferMessage | src/network/NetworkManager.cpp:293-309 | the metadata, chunk and metrics arms, each with its handler's effect and no other; only the metrics arm may touch the transfer's optimizer, and a non-sender's records and samples stay |
| Manager.NetworkManager.RouteChunkTraffic | src/network/NetworkManager.cpp:297-309 | the chunk and metrics arms, each with its handler's effect and no other; only the metrics arm may touch the transfer's optimizer, and a non-sender's records and samples stay |

## Left out

- Sockets, the acceptor, the I/O thread and Asio's completion scheduling are left out. A completed accept, connect, read or write is a method call whose outcome is a parameter. The remote endpoint is a parameter.
- `doAccept`'s re-arming of the accept loop is left out, together with the acceptor.
- `start` (binding the acceptor) is left out; whether binding succeeds is a parameter of `ChangePort`.
- Qt signals, `QElapsedTimer` and the logger are left out. Signals are appended to a log. Timers are start times, and the current time is a parameter.
- Boost serialization of message payloads is an uninterpreted function. So are `deserialize`, the payload layout, and the `TextMessage::deserialize` call in `handleRead`.
- The CRC32 algorithm is an uninterpreted checksum.
- The working directory (`current_path()`, `QDir::currentPath()`) is a constant parameter. The engine's join follows the path library's `/`: an absolute name replaces the directory, and '..' is not resolved, so "under the directory" is a statement about the text only. The path announced in FileReceiveStarted is a plain '/' concatenation. For an absolute name from a peer the two differ, and the file is written outside the directory (`AnnouncedPathIsCreatedPath`).
- Progress is computed as an integer percent, in place of the `double` that callers truncate with `static_cast<int>`; floating point is left out.
- Engine callbacks become entries in an event log. The manager's reactions to them are separate methods (`OnChunkReady`, `OnFileMetadata`, `HandleTransferComplete`), not calls interleaved inside the engine's methods. In the source the chunk callback runs before `processNextChunk` advances the offset (`FileTransfer.cpp` lines 209-214), so the send progress it reports is the percent before that chunk. `OnChunkReady` reads the state after the step, so the model's percent is one chunk ahead.
- `PeerConnection::setNetworkSettings` is declared but has no definition. The settings a connection receives are recorded in the manager's `applied` map, and applying them to a socket is left out.
- Manager.NetworkManager.HandleTransferComplete: `FileTransfer::isFileSending` is not declared, so whether the file was being sent is a parameter.
- The per-peer lambdas installed by `setMessageHandler`, `handleAccept` and `handleConnect` are left out. They forward to `handleIncomingMessage` with the peer key, which is a parameter of `HandleIncomingMessage`.
- `broadcastMessage`, `startSendingFile`, `cancelFileTransfer`, `pauseFileTransfer`, `resumeFileTransfer` and `getCurrentPort` are left out. They forward to one engine or connection call each and are not modelled separately.
- `getFileSize` and `fileExists` are left out as separate functions. A file exists when its path is in the store, and its size is the length of its bytes.
- `deleteFile` and `openFile` are not called by the core and are left out.
- `changePort`'s catch block is left out: `start` catches its own exceptions, so the block cannot be reached.
- Members declared only in `ChunkSizeOptimizer.hpp` (exploration, windows, scores, variance) have no definition in `ChunkSizeOptimizer.cpp`, so they are left out.
- Optimizer.MinLatencySize: `std::min_element` over an `unordered_map` breaks ties by hash-table order, which is not modelled; any minimiser may be returned.
- Settings.BufferSizeMonotone: holds only for chunk sizes below 2^63, because doubling wraps above that; `BufferSizeWrapsAtHalfRange` shows the wrap.
- The system clock's tick is taken as one nanosecond.
- Buffer sizes stored in the `int` fields are always within [8 KiB, 16 MiB]. The narrowing from `size_t` to `int` therefore never loses bits and is not modelled.
- Connection.PeerConnection.OnBodyRead: the message handler's effect is left out. Delivered bodies are logged instead of being deserialized as text and passed on.
- Transfer.FileTransfer.GetTransferProgress: its own contract states only the bound of 100; the remaining properties are stated on `Progress`, whose value it returns.
- `size_t` arithmetic is unbounded in the model. The offsets, sizes and sums of the engine (for example `offset + data.size()` in `handleIncomingChunk`) would wrap modulo 2^64 in the source. Files and offsets that large are not modelled. The buffer-size doubling, where the wrap matters, is modelled with it.
- The length field is copied in host byte order. The model takes the host to be little-endian; a big-endian host would put the bytes in the other order.
