# OpenRTMP server: a verified model

A Dafny model of the stateful core of the RTMP server and of the task scheduler that ships with it. Functions on
values say what each operation means; classes and methods with the sources' loops and fields are proved to compute
them; lemmas state what holds of every input, every run and every interleaving.

| part | modules |
|---|---|
| Chunk stream (Adobe RTMP specification 1.0, section 5.3): incremental parser, printer, read buffer | `Bytes`, `ChunkStream`, `ChunkFragmentation`, `ChunkDeltas`, `ChunkWriter`, `ChunkRoundTrip`, `HeaderCompression`, `ControlMessages`, `ChunkInterleaving`, `ChunkParser`, `ChunkTermination`, `RtmpConnection` |
| AMF0 codec (AMF0 specification, sections 2.2 to 2.14) and the server's replies | `Amf0`, `Amf0RoundTrip`, `Amf0Grammar`, `Amf0Limits`, `Amf0Cuts`, `AmfCodec`, `ServerMessages` |
| Task scheduler: cycles, waves, the monitor and its runs | `TaskGraph`, `CycleDetector`, `WavePlanner`, `Scheduler`, `SchedulerRun` |
| Live media: subscriber queue, GOP cache, distribution to late joiners | `Media`, `SubscriberBuffer`, `SubscriberRun`, `GopBuffer`, `GopRun`, `SubscriberManager`, `MediaDistribution`, `JoinerView` |
| Services: stream registry driven by many sessions, connection pool, rate limit | `Options`, `Streams`, `StreamRegistry`, `CommandHandler`, `CommandSessions`, `StreamLookup`, `Subscriptions`, `ConnectionPool`, `RateLimit` |

Each locked method is one atomic step. Callbacks, logs and histories are values kept beside the state. Clocks,
iteration orders of hash maps and the registry lookups of other services are parameters.

## What the code does not do

Some stronger claims are false of the code. Each is stated by a concrete run or value, next to the exact condition under
which the claim holds.

- A Type 1 or 2 chunk whose read ends exactly behind its header adds its delta twice (`ChunkDeltas.DeltaCanCountTwice`);
  presenting it again is harmless if and only if the unread bytes are not such a bare header
  (`ChunkDeltas.RepeatedExactlyUnlessBare`). Everything but the timestamp survives any fragmentation.
- A message that begins with a Type 3 chunk does not add the previous delta again, as section 5.3.1.2.4 of the RTMP
  specification has it (`HeaderCompression.RepeatedDeltaIsLost`); its timestamp is right if and only if it is extended or
  that delta was 0 (`HeaderCompression.StandardDeltaIff`).
- `parse` casts the bytes left to 32 bits, and a single call on 4 GB or more can stall for ever
  (`ChunkTermination.SomeCallStalls`). The loop ends if and only if it is given less, or at least as many bytes behind the
  last full 4 GB as are pending (`ChunkTermination.EndsIff`). The server's own reads of at most 8192 bytes never stall.
- Aborting the chunk stream whose chunk is half read breaks the parser's bookkeeping
  (`ChunkStream.AbortBreaksHalfReadChunk`), and only that does (`ChunkStream.AbortKeepsValid`).
- A long string of 2^32 - 4 bytes or more is miscounted (`Amf0Limits.OverlongStringIsMiscounted`). A value and every value
  within it come back if and only if keys, counts and strings fit and the nesting is within the limit
  (`Amf0Limits.EveryPartIff`). For the value as a whole the bound on strings suffices but is not necessary: an object around
  such a string can come back by luck of the string's contents (`Amf0Limits.OverlongCanComeBack`).
- A strict array cut behind an element decodes, without an error, to a shorter array (`Amf0Cuts.CutArrayIsShorter`).
  `Amf0Cuts.CutIsNoticed` says of every value and every cut whether it decodes, to what, and with which error it is refused
  otherwise.
- The GOP buffer loses its last keyframe exactly when it is the only one and its GOP alone is over the size limit
  (`GopRun.KeepsLastKeyframe`, `GopRun.OversizeGopIsLost`).
- The registry takes a client's word for the stream id to delete, so two sessions can hold the same id
  (`CommandSessions.SharedStreamId`); ids stay apart if and only if the id named is harmless
  (`CommandSessions.DeleteKeepsApart`).
- A session that publishes twice under one id leaves a live stream that its id does not lead to
  (`StreamLookup.RepublishHidesStream`). All live streams are found at all times if and only if no publish is over the id of
  a live one (`StreamLookup.FoundThroughoutIff`).
- A session that plays a second stream, or publishes, while it plays a first stays among the first one's subscribers when it
  closes (`Subscriptions.SubscriptionLeftBehind`). A close ends all its subscriptions at all times if and only if it never
  moves on like that (`Subscriptions.PlacedThroughoutIff`).
- A task that waits for a failed task only through another task keeps the deadlock report back
  (`Scheduler.IndirectWaitIsNotReported`); `SchedulerRun.StuckIsReportedIff` says what every stuck task waits for and exactly
  when the report is missing.
- A task that awaits a parent header is never started, for instance one that depends on it
  (`SchedulerRun.DependingOnHeader`); all others complete (`SchedulerRun.EverythingCompletes`).

## Model

| member | source | states |
|---|---|---|
| `ChunkStream.BoundedResidue` | src/protocol/chunk_parser.cpp:47-250 | For every input and every state a call can leave behind, whenever `parse` ends (`ChunkTermination.EndsIff`) it leaves at most 18 bytes unconsumed. |
| `ChunkStream.ResidueBoundIsTight` | src/protocol/chunk_parser.cpp:89-200 | Some input leaves exactly 18 bytes, so the bound is the best one. |
| `ChunkStream.StoreOverwrites` | src/protocol/chunk_parser.cpp:227-248 | Writing a chunk stream's state twice in one turn is as writing it once, so the early creation of the state does not show. |
| `ChunkStream.AbortKeepsValid` | src/protocol/chunk_parser.cpp:264-269 | Resetting a chunk stream keeps the parser's invariant if and only if its chunk is not the half-read one. |
| `ChunkStream.AbortBreaksHalfReadChunk` | src/protocol/chunk_parser.cpp:264-269 | A run after which the abort leaves more bytes pending than the message has room for. |
| `ChunkTermination.EndsIff` | src/protocol/chunk_parser.cpp:47-97 | The loop taken literally, 32-bit cast included: for every input and state it ends if and only if it is not given 4 GB or more with fewer bytes behind the last full 4 GB than are pending, and it then ends as the model's run does. |
| `ChunkTermination.StallsForEver` | src/protocol/chunk_parser.cpp:55-56 | A stalled loop does not end after any number of turns. |
| `ChunkTermination.SomeCallStalls` | src/protocol/chunk_parser.cpp:55-56 | With a byte pending, every input of exactly 4 GB stalls. |
| `ChunkParser.Parser.Parse` | src/protocol/chunk_parser.cpp:39-252 | On every call that does not stall, the loop terminates and computes exactly the state, the consumed count and the messages, in order, of the chunk-by-chunk meaning; `remainingBytes` and the pending count never underflow, and at most 18 bytes are left. |
| `ChunkParser.Parser.ReadPendingBytes` | src/protocol/chunk_parser.cpp:52-97 | The rest of a half-read chunk is taken first, as far as the 32-bit cast of the length allows, completing its message when it was the last chunk. |
| `ChunkParser.Parser.ReadOneChunk` | src/protocol/chunk_parser.cpp:99-248 | One turn on a fresh chunk, in all its outcomes: nothing consumed, all consumed with bytes pending, or the chunk consumed. |
| `ChunkParser.Parser.ParseBasicHeader` | src/protocol/chunk_parser.cpp:281-317 | The one, two and three byte headers, and when more bytes are needed. |
| `ChunkParser.Parser.ParseMessageHeader` | src/protocol/chunk_parser.cpp:319-440 | What each of the four header types changes in the chunk stream's state, and that an incomplete header changes nothing. |
| `ChunkParser.Parser.ParseHeader` | src/protocol/chunk_parser.cpp:121-173 | The extended timestamp is read exactly when the state asks for it and applied by type; a Type 3 continuation ignores it. |
| `ChunkParser.Parser.ProcessProtocolControlMessage` | src/protocol/chunk_parser.cpp:442-480 | Set Chunk Size clamps to 128..65536 ignoring the top bit; Abort resets the named stream; nothing else acts. |
| `ChunkParser.Parser.AbortChunkStream` | src/protocol/chunk_parser.cpp:264-269 | The call keeps the parser's invariant if and only if it does not name the stream whose chunk is half read. |
| `ChunkFragmentation.CutInTwo` | src/protocol/chunk_parser.cpp:39-252 | For every input, state and place to cut, as far as the calls do not stall: two calls, the unconsumed tail presented again, agree with one call in state, messages and unconsumed bytes (exactly, unless the tail is a bare Type 1 or 2 header; always up to timestamps). |
| `ChunkFragmentation.FragmentationInvariance` | src/api/rtmp_server.cpp:883-930 | The same for any number of reads cut anywhere, the tail kept and presented again each time. |
| `ChunkFragmentation.FragmentationOfFullChunks` | src/api/rtmp_server.cpp:883-930 | For streams of Type 0 and 3 chunks the result is exactly that of one call, timestamps included. |
| `ChunkFragmentation.StepRepresents` | src/protocol/chunk_parser.cpp:198-218 | A turn that consumed nothing can be repeated on more bytes although the header had already changed the state. |
| `ChunkDeltas.RepeatedExactlyUnlessBare` | src/protocol/chunk_parser.cpp:371-382 | Such a repetition has exactly the same result if and only if the bytes are not a complete Type 1 or 2 header with a delta and nothing behind it. |
| `ChunkDeltas.DeltaCanCountTwice` | src/protocol/chunk_parser.cpp:371-382 | A concrete stream whose timestamp depends on where the read was cut. |
| `ChunkWriter.SerializeChunk` | src/api/rtmp_server.cpp:1479-1576 | The writer's loop produces one Type 0 chunk and Type 3 continuations, the extended timestamp on each. |
| `ChunkWriter.OneChunkAnySize` | src/api/rtmp_server.cpp:1580-1595 | A message that fits one chunk has the same bytes under every chunk size it fits, so control messages may be built with the default. |
| `ChunkRoundTrip.RunMessage` | src/api/rtmp_server.cpp:1479-1576 | A message serialized with the parser's chunk size is read back as itself whatever follows, and the parser then has the chunk size the message announces. |
| `ChunkRoundTrip.RunMessages` | src/protocol/chunk_parser.cpp:39-252 | Any sequence of messages, control messages among them, is read back in one call, every byte consumed, ending with the writer's chunk size. |
| `ChunkRoundTrip.RoundTrip` | src/protocol/chunk_parser.cpp:39-252 | The same for any cutting of the bytes into reads. |
| `HeaderCompression.Type1HeaderReads` | src/protocol/chunk_parser.cpp:367-398 | For every state, delta, length and type: a Type 1 header, its delta extended from 0xFFFFFF on, sets length and type, advances the timestamp around 2^32 and keeps the message stream. |
| `HeaderCompression.Type2HeaderReads` | src/protocol/chunk_parser.cpp:400-422 | A Type 2 header advances the timestamp and keeps length, type and message stream. |
| `HeaderCompression.Type3HeaderReads` | src/protocol/chunk_parser.cpp:121-173 | A Type 3 header changes nothing, but for an extended delta where a message begins with it. |
| `HeaderCompression.StandardDeltaIff` | src/protocol/chunk_parser.cpp:140-173 | A message begun with a Type 3 chunk is given the standard's timestamp if and only if there is an extended one or the previous delta was 0. |
| `HeaderCompression.RepeatedDeltaIsLost` | src/protocol/chunk_parser.cpp:424-433 | In the standard's own example the third message, due at 1040, is given 1020. |
| `HeaderCompression.HeaderBytes` | src/api/rtmp_server.cpp:1496-1576 | The writer's header bytes on the standard's example and on longer chunk stream ids and timestamps. |
| `HeaderCompression.CompressedRoundTrip` | src/protocol/chunk_parser.cpp:39-252 | Any sequence of messages on any chunk streams, each begun with any of the four chunk types that its predecessor on the stream allows and continued with Type 3 chunks, is completed exactly as sent, with every byte consumed and the chunk size last announced. |
| `HeaderCompression.CompressedInPieces` | src/api/rtmp_server.cpp:883-930 | The same however the bytes are cut into reads: exactly, if no read ends right behind a bare header, and up to timestamps in any case. |
| `HeaderCompression.UncompressedIsSerialized` | src/api/rtmp_server.cpp:1479-1576 | A sender that always chooses Type 0 writes the bytes of the server's writer. |
| `ControlMessages.AnnouncedSizeIsTaken` | src/protocol/chunk_parser.cpp:442-463 | Whatever 32-bit number a Set Chunk Size carries, the size in force after it is its low 31 bits if that lies in 128..65536, else the nearer bound; no other message changes the size. |
| `ControlMessages.AbortDropsMessage` | src/protocol/chunk_parser.cpp:465-476 | A message aborted in band after any of its chunks is never completed, and the next message on its chunk stream is completed as sent. |
| `ControlMessages.OtherAbortSparesMessage` | src/protocol/chunk_parser.cpp:465-476 | An Abort that names another chunk stream leaves the message under way, which is completed as sent. |
| `ChunkInterleaving.Interleaving` | src/protocol/chunk_parser.cpp:100-248 | Chunks of any type interleaved over chunk streams: the messages completed on each stream and the state it ends in are those of that stream alone. |
| `ChunkInterleaving.InterleavingIndependence` | src/protocol/chunk_parser.cpp:100-248 | Messages sent on different streams, chunks interleaved and bytes cut in any way, are completed on each stream exactly as sent, in order. |
| `RtmpConnection.Connection.StartReading` | src/api/rtmp_server.cpp:705-762 | The next read goes behind the kept bytes; the overflow branch is unreachable, with at least 8174 bytes of room. |
| `RtmpConnection.Connection.HandleRead` | src/api/rtmp_server.cpp:764-797 | After any number of reads the parser, the buffer's front and the messages handed on are those of feeding these reads one by one. |
| `RtmpConnection.Connection.ProcessRTMPData` | src/api/rtmp_server.cpp:883-930 | The unconsumed tail is moved to the front of the fixed buffer and nothing of it is lost. |
| `RtmpConnection.Connection.DeliversWhatWasSent` | src/api/rtmp_server.cpp:883-930 | Once the reads add up to what a writer sent, exactly its messages have been handed on and the buffer is empty. |
| `Amf0.PutSorted` | src/protocol/amf_codec.cpp:300-354 | Decoded properties stay ordered by key, as in the source's map; a repeated key replaces its value. |
| `Amf0RoundTrip.ValueReadsBack` | src/protocol/amf_codec.cpp:83-164 | Every encoding of a value whose keys, counts and strings (below 2^32 - 4 bytes) fit is read back normalized, consuming exactly its own bytes whatever follows, or refused for its depth; the reference table grows by the objects and arrays in it. |
| `Amf0RoundTrip.RoundTripIff` | src/protocol/amf_codec.cpp:534-632 | With strings below 2^32 - 4 bytes, a value comes back if and only if its keys fit 16 bits and it nests no deeper than the limit. |
| `Amf0Limits.EveryPartIff` | src/protocol/amf_codec.cpp:239-270 | For every value whatever: it and every value within it come back if and only if keys fit 16 bits, counts 32 bits, strings stay below 2^32 - 4 bytes and the depth within the limit. |
| `Amf0Limits.OverlongStringIsMiscounted` | src/protocol/amf_codec.cpp:257-264 | No string of 2^32 - 4 bytes or more comes back, since its byte count is taken modulo 2^32. |
| `Amf0Limits.OverlongCanComeBack` | src/protocol/amf_codec.cpp:257-264 | An object with such a string that comes back whole all the same, though the string in it does not. |
| `Amf0RoundTrip.DecodedIsCanonical` | src/protocol/amf_codec.cpp:300-463 | Whatever the bytes, a decoded value has ordered keys that fit their length fields, strings no longer than the input and 2^32, and nests within the limit. |
| `Amf0RoundTrip.ReencodedReadsBack` | src/protocol/amf_codec.cpp:534-632 | What up to 2^32 - 4 bytes decode to, or any bytes to strings below that length, can be encoded and decoded again without further change. |
| `Amf0RoundTrip.NormEncodesTheSame` | src/protocol/amf_codec.cpp:534-570 | A value and its normal form have the same encoding, so a second trip loses nothing more. |
| `Amf0RoundTrip.AllReadBack` | src/protocol/amf_codec.cpp:939-963 | Values that fit, written one after the other, are read back one after the other, or the whole is refused for depth. |
| `Amf0Grammar.SentIsRead` | src/protocol/amf_codec.cpp:83-530 | Every value that any sender may put on the wire, in any of eleven forms nested in any way (ECMA arrays, dates and references among them, which the server never writes), is read as what it means, consuming exactly its own bytes whatever follows, or refused for its depth. |
| `Amf0Grammar.DecodesIff` | src/protocol/amf_codec.cpp:83-530 | For inputs of up to 2^32 - 4 bytes the decoder accepts exactly the format: it reads a value if and only if the bytes begin with a legal one that nests within the limit, and then reads that one. |
| `Amf0Grammar.OtherMarkersRefused` | src/protocol/amf_codec.cpp:149-162 | Any other marker is refused as unknown, but for the one that switches to AMF3. |
| `Amf0Grammar.ShortOrInvalid` | src/protocol/amf_codec.cpp:166-530 | Fewer bytes than a marker asks for are a premature end; a reference without an entry is invalid. |
| `Amf0Grammar.LongKeyWraps` | src/protocol/amf_codec.cpp:590-632 | A key of 2^16 bytes or more is announced with the low 16 bits of its length. |
| `Amf0Grammar.CollectedHolds` | src/protocol/amf_codec.cpp:305-350 | The map of an object or ECMA array is in key order and holds the last value sent under each key. |
| `Amf0Grammar.EcmaArrayReadsBack` | src/protocol/amf_codec.cpp:356-416 | An ECMA array is read as the array of its properties whatever count it announces, consuming 8 bytes beside theirs and making one entry in the reference table beside theirs, or is refused for its depth. |
| `Amf0Grammar.EncoderWritesForm` | src/protocol/amf_codec.cpp:534-632 | What the encoder writes is, byte by byte, the form of the format for each value. |
| `Amf0Cuts.CutIsNoticed` | src/protocol/amf_codec.cpp:300-463 | For every value that fits and every cut of its encoding: it decodes if and only if the cut leaves whole elements of nested arrays, and then to the array without the rest; otherwise the error is a premature end, but for one cut at the depth limit, which is named. |
| `Amf0Cuts.CutArrayIsShorter` | src/protocol/amf_codec.cpp:441-460 | An instance: two elements announced, one sent, one decoded. |
| `AmfCodec.Codec.DecodeAMF0Value` | src/protocol/amf_codec.cpp:83-164 | The recursive decoder, by marker, with its depth limit, error codes and reference table. |
| `AmfCodec.Codec.DecodeAMF0Properties` | src/protocol/amf_codec.cpp:300-354 | The property loop up to the end marker, and every way it fails. |
| `AmfCodec.Codec.DecodeAMF0Elements` | src/protocol/amf_codec.cpp:418-463 | The counted element loop, which also ends where the bytes do. |
| `AmfCodec.Codec.DecodeAllAMF0` | src/protocol/amf_codec.cpp:939-963 | Values until the bytes run out, or the first error. |
| `AmfCodec.Codec.DecodeAMF0ShortString` | src/protocol/amf_codec.cpp:272-298 | Succeeds exactly when length field and bytes are there. |
| `AmfCodec.Codec.EncodeAMF0Value` | src/protocol/amf_codec.cpp:534-570 | The encoder appends the value's encoding to the buffer. |
| `ServerMessages.BuildCommandResponse` | src/api/rtmp_server.cpp:1617-1666 | The response is one AMF0 command message, chunked with the given size. |
| `ServerMessages.BuildProtocolControlMessage` | src/api/rtmp_server.cpp:1580-1595 | A control message on chunk stream 2 with a 32-bit value. |
| `ServerMessages.BuildReply` | src/api/rtmp_server.cpp:1203-1238 | The bytes of a reply are what a writer that tracks the announced chunk size would send for preamble and responses. |
| `ServerMessages.ClientReadsReply` | src/api/rtmp_server.cpp:1203-1238 | End to end: a client reading the reply in any pieces gets the preamble (window, bandwidth and chunk size, byte by byte) and one message per response, on chunk stream 4 if it concerns a message stream and else on that of the command, whose payload decodes to its name, transaction id, object and arguments, and ends with the server's chunk size. |
| `TaskGraph.OrderedHasNoCycle` | tools/kiro-parallel/kiro_parallel.py:244-265 | An order in which tasks follow their dependencies rules out a cycle. |
| `CycleDetector.Detector.Dfs` | tools/kiro-parallel/kiro_parallel.py:249-260 | A back edge means a cycle; a finished task depends only on tasks finished before it. |
| `CycleDetector.Detector.FindCycle` | tools/kiro-parallel/kiro_parallel.py:244-265 | The search terminates and answers true if and only if the graph has a cycle. |
| `WavePlanner.Planner.GetWave` | tools/kiro-parallel/kiro_parallel.py:271-296 | A task's wave is the length of its longest dependency chain; the fallback for a visited task is never reached. |
| `WavePlanner.Planner.CalculateWaves` | tools/kiro-parallel/kiro_parallel.py:267-316 | Every task is in exactly one wave, once, the one numbered by its longest chain; no wave is empty. |
| `WavePlanner.DependenciesComeEarlier` | tools/kiro-parallel/kiro_parallel.py:267-316 | Dependencies are in strictly earlier waves. |
| `WavePlanner.PlanIsMinimal` | tools/kiro-parallel/kiro_parallel.py:267-316 | No layering of the graph puts a task lower or needs fewer waves. |
| `Scheduler.Analyze` | tools/kiro-parallel/kiro_parallel.py:196-228 | A circular dependency is reported exactly when the incomplete tasks contain one, the dropped dependencies staying dropped; otherwise the plan is a wave plan and the tasks are the validated ones with their waves' numbers. |
| `Scheduler.WavesAreNumbered` | tools/kiro-parallel/kiro_parallel.py:218-221 | Each planned task carries the number of the wave it is in, and is otherwise as validated. |
| `Scheduler.ValidateDependencies` | tools/kiro-parallel/kiro_parallel.py:230-242 | Exactly the dependencies on missing or completed tasks are dropped. |
| `Scheduler.ValidatedKeeps` | tools/kiro-parallel/kiro_parallel.py:230-242 | Validation changes nothing but dependencies, those of completed tasks not at all, and drops from the others exactly those on missing or completed tasks. |
| `Scheduler.RemainingKeepsOrder` | tools/kiro-parallel/kiro_parallel.py:230-242 | The dependencies that are kept keep their order and number. |
| `Scheduler.Monitor.CountStatus` | tools/kiro-parallel/kiro_parallel.py:343-345 | Each task in the status is counted once. |
| `Scheduler.Monitor.GetNextEligibleTask` | tools/kiro-parallel/kiro_parallel.py:1073-1102 | The first task in wave order that is pending, no parent header, and has all dependencies completed; none if there is none. |
| `Scheduler.FirstIsFirstInList` | tools/kiro-parallel/kiro_parallel.py:1073-1102 | The task picked is the first that can be started in the plan read as one list, wave after wave. |
| `Scheduler.Monitor.StartNextTask` | tools/kiro-parallel/kiro_parallel.py:1175-1196 | Starts that task and changes nothing else, only below the limit; refuses only when slots or eligible tasks are lacking. |
| `Scheduler.Monitor.StartTasks` | tools/kiro-parallel/kiro_parallel.py:1250-1253 | The start loop terminates with every slot taken or nothing left to start; whatever changed was eligible. |
| `Scheduler.Monitor.CheckDeadlockState` | tools/kiro-parallel/kiro_parallel.py:1133-1173 | Reports exactly: nothing runs, something waits, all that waits has a failed or stopped dependency; lists exactly those. |
| `Scheduler.DeadlockIsReal` | tools/kiro-parallel/kiro_parallel.py:1133-1173 | In a reported deadlock no task runs, some task waits, and none is eligible. |
| `Scheduler.IndirectWaitIsNotReported` | tools/kiro-parallel/kiro_parallel.py:1155-1172 | A state where nothing can be started and no deadlock is reported. |
| `Scheduler.Progress` | tools/kiro-parallel/kiro_parallel.py:1073-1102 | With nothing running or failed and nothing waiting for a pending parent header, a waiting task means a planned task is eligible. |
| `SchedulerRun.RunSafe` | tools/kiro-parallel/kiro_parallel.py:1198-1253 | Over every run of starts and ends: never more than the limit run, and everything started has all its dependencies completed from then on. |
| `SchedulerRun.StartsInOrder` | tools/kiro-parallel/kiro_parallel.py:1198-1253 | In terms of the dependencies first listed: a task leaves pending only after every one that exists is completed. |
| `SchedulerRun.RunsAreBounded` | tools/kiro-parallel/kiro_parallel.py:1198-1253 | No run goes on for ever. |
| `SchedulerRun.EverythingCompletes` | tools/kiro-parallel/kiro_parallel.py:1198-1253 | A run without failures that cannot go on has completed exactly the tasks that neither are nor await a parent header. |
| `SchedulerRun.StuckIsReportedIff` | tools/kiro-parallel/kiro_parallel.py:1133-1173 | With a plan, nothing running, nothing planned eligible and something waiting: whatever waits leads along dependencies to a failed, stopped or blocked task or a pending parent header; it goes unreported if and only if some waiting task has no failed or stopped direct dependency. |
| `SchedulerRun.DependingOnHeader` | tools/kiro-parallel/kiro_parallel.py:1088-1090 | A task that depends on a parent header still to do awaits it for ever. |
| `Media.TimestampBounds` | src/streaming/gop_buffer.cpp:232-243 | The running minimum and maximum bound all timestamps and are attained. |
| `SubscriberBuffer.GreedyIsLeast` | src/streaming/subscriber_buffer.cpp:246-339 | The number of frames dropped is the least that brings the span within the limit, or all droppable ones. |
| `SubscriberBuffer.Buffer.EnforceBufferLimit` | src/streaming/subscriber_buffer.cpp:246-339 | The nested erase loops terminate and remove exactly that many of the oldest droppable frames, each recorded. |
| `SubscriberBuffer.Buffer.Push` | src/streaming/subscriber_buffer.cpp:69-95 | A frame is refused, or appended and the overflow handled; statistics follow. |
| `SubscriberBuffer.Buffer.Pop` | src/streaming/subscriber_buffer.cpp:97-109 | First in, first out, with the byte count kept. |
| `SubscriberBuffer.Buffer.SetConfig` | src/streaming/subscriber_buffer.cpp:168-174 | The new limits apply at once. |
| `SubscriberBuffer.Buffer.ShouldDropFrame` | src/streaming/subscriber_buffer.cpp:212-244 | Only a video inter frame is refused at the door, and only over a limit. |
| `SubscriberBuffer.PushAdmits` | src/streaming/subscriber_buffer.cpp:69-95 | If no two frames, the new one included, are further apart in time than the limit, and the size limit is 0 or not exceeded by the queue, a push leaves all that was queued with the new frame behind it. |
| `SubscriberBuffer.PushRefuses` | src/streaming/subscriber_buffer.cpp:212-244 | A video inter frame that finds two queued frames too far apart, or the size over a limit above 0, leaves the queue as it was; any other frame enters behind all that is queued, and only the oldest that may go then do. |
| `SubscriberRun.DeliveryAndConservation` | src/streaming/subscriber_buffer.cpp:69-109 | Over any run, popped then queued frames are the pushed ones in order with only losable frames left out; frames and bytes processed equal popped plus pending plus dropped, video inter frames and audio frames each for themselves; no keyframe is ever dropped. |
| `SubscriberRun.AudioKeptWhileProtected` | src/streaming/subscriber_buffer.cpp:246-339 | From any point of any run on, while every configuration preserves audio, nothing then popped, queued or pushed later is lost but video inter frames. |
| `SubscriberRun.StepKeepsAudio` | src/streaming/subscriber_buffer.cpp:69-174 | A single step loses audio frames only if the configuration then in force does not preserve them. |
| `SubscriberRun.OmitsKeepsEssential` | src/streaming/subscriber_buffer.cpp:298-327 | Video keyframes, data frames and protected audio arrive completely, in order. |
| `GopBuffer.KeyframesAre` | src/streaming/gop_buffer.cpp:264-275 | The collected indices are exactly the video keyframes' positions, ascending. |
| `GopBuffer.ValidIsHolding` | src/streaming/gop_buffer.cpp:334-349 | Byte count and keyframe index are determined by the frames. |
| `GopBuffer.Buffer.Push` | src/streaming/gop_buffer.cpp:68-83 | The new state is that of the frames with the new one, less what an eviction removes from the front. |
| `GopBuffer.Buffer.EvictOldFrames` | src/streaming/gop_buffer.cpp:225-332 | The eviction loops compute the chosen cut and keep byte count and index right. |
| `GopBuffer.Buffer.UpdateKeyframeIndex` | src/streaming/gop_buffer.cpp:334-349 | Finds the last video keyframe if there is one. |
| `GopBuffer.Buffer.GetFromLastKeyframe` | src/streaming/gop_buffer.cpp:117-133 | The frames from the last keyframe on, or none. |
| `GopRun.EvictionChoice` | src/streaming/gop_buffer.cpp:225-332 | With timestamps in order and two keyframes or more: removes nothing or whole GOPs, never the last; the rest spans the minimum or is the last GOP and fits; the cut is the first passing within the size limit, else the last passing, else none. |
| `GopRun.EvictsIff` | src/streaming/gop_buffer.cpp:245-262 | Eviction happens if and only if the frames are larger than the limit or two of them are further apart than twice the minimum; otherwise all stay. |
| `GopRun.FewestFrontDrops` | src/streaming/gop_buffer.cpp:277-285 | With fewer keyframes, the fewest frames that bring the size within the limit. |
| `GopRun.KeepsLastKeyframe` | src/streaming/gop_buffer.cpp:277-332 | An eviction keeps the last keyframe if and only if there are two or the GOP under way fits the limit. |
| `GopRun.RefinesHistory` | src/streaming/gop_buffer.cpp:68-207 | Over any run the buffer is a suffix of what was pushed since the last clear, byte count and index agree, and a joiner gets nothing or exactly the history from its last keyframe. |
| `GopRun.StaysJoinable` | src/streaming/gop_buffer.cpp:225-332 | While no GOP grows over the limit in force, whatever came before the first keyframe, a joiner gets the whole GOP under way once a keyframe has arrived. |
| `GopRun.OversizeGopIsLost` | src/streaming/gop_buffer.cpp:278-285 | A run after which a keyframe was pushed and joiners get nothing. |
| `SubscriberManager.Manager.AddSubscriber` | src/streaming/subscriber_manager.cpp:69-120 | Both indexes gain the subscriber with an empty queue, or the exact error is returned and nothing changes. |
| `SubscriberManager.Manager.RemoveSubscriber` | src/streaming/subscriber_manager.cpp:122-157 | Both indexes lose it, a stream left without subscribers loses its entry. |
| `SubscriberManager.Manager.OnStreamEnded` | src/streaming/subscriber_manager.cpp:164-184 | Removing the subscribers one by one ends with none on the stream and all others untouched. |
| `SubscriberManager.Manager.GetSubscribersForStream` | src/streaming/subscriber_manager.cpp:208-219 | The index answers with exactly the subscribers whose stream it is. |
| `SubscriberManager.Manager.PushToSubscriber` | src/streaming/subscriber_manager.cpp:241-253 | Only the named subscriber's queue takes the frame. |
| `SubscriberManager.Manager.DistributeToStream` | src/streaming/subscriber_manager.cpp:279-296 | Every subscriber of the stream takes the frame once, in whatever order they are visited. |
| `SubscriberManager.RemovedConsistent` | src/streaming/subscriber_manager.cpp:122-157 | Removal keeps the two indexes in step. |
| `MediaDistribution.Distribution.AddSubscriber` | src/streaming/media_distribution.cpp:110-156 | A joiner is registered and sent what is cached; the errors and their order. |
| `MediaDistribution.Distribution.SendCachedDataToSubscriber` | src/streaming/media_distribution.cpp:319-368 | Metadata placeholder, video header, audio header, then the frames from the last keyframe, each only if present. |
| `MediaDistribution.Distribution.Distribute` | src/streaming/media_distribution.cpp:185-228 | The frame enters the stream's cache and every subscriber's queue, nothing else. |
| `MediaDistribution.Distribution.OnStreamEnd` | src/streaming/media_distribution.cpp:257-268 | Exactly the stream's subscribers are told, each once, then removed. |
| `MediaDistribution.LateJoiner` | src/streaming/media_distribution.cpp:110-228 | After any run, for as long as it stays, a subscriber has been sent the cached headers and frames of its joining, then every frame distributed on its stream since, and nothing else. |
| `MediaDistribution.GaplessJoin` | src/streaming/media_distribution.cpp:363-367 | If cached frames were sent, they and what follows are the stream's history from its last keyframe, without gap or repeat, also when the buffer was reconfigured or cleared before. |
| `JoinerView.JoinerIsSent` | src/streaming/media_distribution.cpp:230-368 | Told from the events alone: a joiner of a stream with a buffer is sent a placeholder if metadata was set, the video header last set as a keyframe if there is one, the audio header last set if there is one, then what the buffer, after all that was pushed to it, configured and cleared, gives from its last keyframe; then every frame distributed, and nothing else. |
| `JoinerView.DepartedIsGone` | src/streaming/media_distribution.cpp:158-183 | A subscriber that is removed, or whose stream ends, is in neither index, and every other stays as it was. |
| `JoinerView.GoneIsSentNothing` | src/streaming/subscriber_manager.cpp:241-296 | Whatever follows, it is sent nothing more until it joins again. |
| `JoinerView.PopTakesOldest` | src/streaming/subscriber_manager.cpp:255-277 | A pop takes the oldest frame off one queue and touches no other. |
| `MediaDistribution.ReachesSubscriber` | src/streaming/subscriber_manager.cpp:241-277 | What a subscriber popped and what its queue holds are all it was sent, in order, with only losable frames left out. |
| `StreamRegistry.Registry.AllocateStreamId` | src/streaming/stream_registry.cpp:72-93 | The last released id, else the 32-bit counter, which skips 0. |
| `StreamRegistry.IdsInTurn` | src/streaming/stream_registry.cpp:72-93 | As long as none is given back, the ids are 1, 2, 3 and so on to 2^32 - 1, and then from 1 again. |
| `StreamRegistry.GivenBackComesNext` | src/streaming/stream_registry.cpp:72-102 | An id given back is the next to be handed out, which leaves all as it was before; 0 cannot be given back. |
| `StreamRegistry.Registry.RegisterStream` | src/streaming/stream_registry.cpp:108-137 | A key in use is refused; an id already indexed keeps its entry. |
| `StreamRegistry.Registry.UnregisterStream` | src/streaming/stream_registry.cpp:139-169 | The stream and the index entry of its id are gone, or the key was unknown. |
| `StreamRegistry.Registry.FindStreamById` | src/streaming/stream_registry.cpp:186-200 | With a sound index, finds a stream exactly for indexed ids, and one that has the id. |
| `StreamRegistry.RegisteredFound` | src/streaming/stream_registry.cpp:108-137 | A newly registered stream is found by its id if and only if nothing live was indexed under that id. |
| `StreamRegistry.UnregisteredIndexed` | src/streaming/stream_registry.cpp:139-169 | Unregistering keeps every index entry naming a live stream with that id. |
| `CommandHandler.Handler.ProcessCommand` | src/protocol/command_handler.cpp:43-92 | Session, registry and responses after each command, in every branch. |
| `CommandHandler.Handler.HandleConnect` | src/protocol/command_handler.cpp:98-187 | Rejected once connected, refused for a bad name, else connected. |
| `CommandHandler.Handler.ValidateAppName` | src/protocol/command_handler.cpp:631-646 | Non-empty and made of letters, digits, underscore, hyphen and slash. |
| `CommandHandler.Handler.HandleCreateStream` | src/protocol/command_handler.cpp:193-239 | Needs an application; the session takes the allocated id. |
| `CommandHandler.Handler.HandlePublish` | src/protocol/command_handler.cpp:245-309 | Needs a stream id, a name and a free key; else an error and no change. |
| `CommandHandler.Handler.HandlePlay` | src/protocol/command_handler.cpp:315-411 | Needs a live stream the connection does not already play. |
| `CommandHandler.Handler.HandleDeleteStream` | src/protocol/command_handler.cpp:417-460 | Vacates what the session publishes or plays and releases the id the client names, or its own. |
| `CommandHandler.Handler.HandleCloseStream` | src/protocol/command_handler.cpp:466-493 | Vacates likewise and keeps the id. |
| `CommandSessions.PublisherExclusion` | src/protocol/command_handler.cpp:245-309 | Over any interleaving of commands a publishing session's key is registered to it, no two sessions publish the same key, and every index entry names a live stream with its id. |
| `CommandSessions.AppNames` | src/protocol/command_handler.cpp:631-646 | The permitted names, in ASCII codes. |
| `CommandSessions.ConnectsIff` | src/protocol/command_handler.cpp:98-187 | A session connects if and only if it has no application yet and the name is well formed; every other connect changes nothing, with the exact error. |
| `CommandSessions.KeepsApplication` | src/protocol/command_handler.cpp:98-187 | Once connected, a session keeps its application over any run. |
| `CommandSessions.PublishesIff` | src/protocol/command_handler.cpp:245-309 | A publish starts if and only if there is a stream id, a name and a free key, and then the stream is live with that id and publisher and no subscribers; every other publish changes nothing, with the exact error. |
| `CommandSessions.PublicationLasts` | src/protocol/command_handler.cpp:417-493 | No other session's commands end a publication or change its id. |
| `CommandSessions.PublishRefused` | src/protocol/command_handler.cpp:276-293 | Publishing a key that another session publishes is answered with an error and changes nothing. |
| `CommandSessions.DeleteKeepsApart` | src/protocol/command_handler.cpp:423-452 | Stream ids stay distinct after a deleteStream if and only if it names nothing, the own id, or an id nobody holds or awaits. |
| `CommandSessions.IdsStayApart` | src/streaming/stream_registry.cpp:72-102 | While deletes are harmless and the counter has not come round, no id is held twice or held and pooled. |
| `CommandSessions.SharedStreamId` | src/protocol/command_handler.cpp:423-452 | One careless deleteStream, and two sessions hold the same id. |
| `StreamLookup.StepFoundIff` | src/streaming/stream_registry.cpp:108-169 | One command keeps every live stream found by its id if and only if it is no publish under an id already indexed. |
| `StreamLookup.FoundThroughoutIff` | src/streaming/stream_registry.cpp:108-200 | Over any run, every live stream is found by its id at all times if and only if no publish is over a live stream's id. |
| `StreamLookup.TidySessionsAreFound` | src/protocol/command_handler.cpp:245-460 | That is so if no session publishes while it has a live stream under its id, every deleteStream is harmless, for live streams too, and the counter has not come round. |
| `StreamLookup.RepublishHidesStream` | src/streaming/stream_registry.cpp:126-157 | A run without any deleteStream after which a live stream is not found by its id. |
| `Subscriptions.PlayStartsIff` | src/protocol/command_handler.cpp:315-411 | A play is answered with Start if and only if the session has a stream id and names a live stream it does not play yet; then it, and no one else, joins that stream and no other changes. Every other play changes nothing, with the exact error. |
| `Subscriptions.RepeatedPlayRefused` | src/protocol/command_handler.cpp:370-389 | The same play again is refused and changes nothing. |
| `Subscriptions.AudienceChanges` | src/streaming/stream_registry.cpp:211-290 | For every state, command, session and stream: exactly when the session is among the stream's subscribers afterwards. |
| `Subscriptions.StaysSubscribed` | src/protocol/command_handler.cpp:417-493 | Over any run a subscriber stays one for as long as neither it nor the publisher sends closeStream or deleteStream. |
| `Subscriptions.PlayClosePlay` | src/protocol/command_handler.cpp:315-493 | Whatever others do in between: after its own closeStream or deleteStream a session is out of what it plays, and after the former it may play it again if and only if the stream is live. |
| `Subscriptions.CloseClearsIff` | src/protocol/command_handler.cpp:466-493 | A closeStream ends all of a session's subscriptions if and only if it had none but to the stream it stands on. |
| `Subscriptions.PlacedThroughoutIff` | src/protocol/command_handler.cpp:315-493 | Over any run that is so at all times if and only if the session never plays or publishes with success while it is still subscribed to something. |
| `Subscriptions.SubscriptionLeftBehind` | src/protocol/command_handler.cpp:391-393 | A session plays one stream, then another, then closes, and is still among the subscribers of the first. |
| `ConnectionPool.Effective` | src/core/connection_pool.cpp:28-62 | The configuration settled on always has 1 <= pre-allocated <= maximum, keeps a sensible configuration as it is and clamps an excessive one. |
| `ConnectionPool.DefaultIsHalf` | src/core/connection_pool.cpp:28-62 | With no number given, half of the maximum is made in advance, and one at least. |
| `ConnectionPool.Pool.constructor` | src/core/connection_pool.cpp:28-62 | A fresh pool is sound, with the pre-allocated entries free. |
| `ConnectionPool.Pool.Acquire` | src/core/connection_pool.cpp:131-194 | Hands out the next handle unless the maximum is in use. |
| `ConnectionPool.Pool.Release` | src/core/connection_pool.cpp:196-235 | A live handle's entry returns to the queue; anything else changes nothing. |
| `ConnectionPool.Pool.Clear` | src/core/connection_pool.cpp:303-334 | All entries are free, each queued once, and no handle is live. |
| `ConnectionPool.Pool.GetConnection` | src/core/connection_pool.cpp:237-255 | Answers exactly for live handles, with the entry that bears the handle. |
| `ConnectionPool.ReturnedValid` | src/core/connection_pool.cpp:196-235 | Returning keeps queue, handle map, flags and counters in agreement. |
| `ConnectionPool.AcquiredValid` | src/core/connection_pool.cpp:131-194 | So does acquiring, whether it grows the pool, reuses an entry or refuses. |
| `ConnectionPool.AcquireRefused` | src/core/connection_pool.cpp:131-165 | Refused exactly if the maximum is in use; otherwise exactly one handle, not live before, is added. |
| `ConnectionPool.Partition` | src/core/connection_pool.cpp:131-235 | Free queue and live handles' indices partition the entries without duplicates. |
| `ConnectionPool.HandlesAreNew` | src/core/connection_pool.cpp:127-129 | Over any run the handles issued are consecutive, hence all different. |
| `ConnectionPool.NeverReissued` | src/core/connection_pool.cpp:127-235 | A handle once returned is never live again. |
| `ConnectionPool.ZeroNeverIssued` | src/core/connection_pool.cpp:127-129 | The invalid handle 0 is never handed out. |
| `ConnectionPool.ReleaseMakesRoom` | src/core/connection_pool.cpp:196-235 | Giving back a live handle ends it, leaves all others with their entries and lets the next acquire succeed; any other handle changes nothing. |
| `ConnectionPool.TakenInOrder` | src/core/connection_pool.cpp:131-194 | The next handles lead to the foremost entries of the free queue, in order. |
| `ConnectionPool.ReturnedLast` | src/core/connection_pool.cpp:196-235 | An entry given back joins the queue at its end. |
| `ConnectionPool.IdsThroughout` | src/core/connection_pool.cpp:131-334 | Over any run a connection in use carries its handle as its id and a free one none. |
| `ConnectionPool.BooksOfRun` | src/core/connection_pool.cpp:131-235 | Over any run the statistics count the acquires asked and refused and the live handles given back, and the peak is the most in use at once. |
| `RateLimit.AuthService.CheckRateLimit` | src/core/auth_service.cpp:280-302 | Old attempts are pruned, then the attempt refused or recorded. |
| `RateLimit.DecidesByWindow` | src/core/auth_service.cpp:280-302 | With a steady clock, an attempt is let through if and only if fewer than five of its address were in the minute up to it. |
| `RateLimit.WindowBound` | src/core/auth_service.cpp:280-302 | No closed one-minute window, wherever it ends, holds more than five accepted attempts of an address. |
| `RateLimit.RefusedAfterFive` | src/core/auth_service.cpp:294-301 | An attempt is refused if and only if exactly five were let through in the minute before it. |

## Left out

- Sockets, TLS, the event loop, the handshake, session and shutdown coordination, logging, metrics and latency figures: input/output or short state machines. A read is any byte sequence that fits the buffer.
- `closeConnection` (src/api/rtmp_server.cpp:1735): it uses the application name "live" whatever the session's is, so the registry's view of a closing session is not modelled; sessions here send commands and do not vanish.
- The error branch for a Type 3 chunk on an unknown stream (src/protocol/chunk_parser.cpp:111-119) is dead, since the state is created just before; the model has no such error.
- A Type 0 or 1 header in mid-message overwrites the message length; the model follows the code.
- Sizes of `size_t` and 64-bit counters (byte counts, pool handles, statistics) are unbounded integers; timestamps, stream ids, chunk header fields and AMF lengths have their real widths.
- `AmfCodec.Codec.DecodeAMF0Value`: a value that switches to AMF3 ends with an error code of its own, as does a long string whose 32-bit length sum wraps so that its bytes would be read past the buffer. A date's conversion from double to milliseconds, and the contents of the reference table, of which only the length is kept, are not modelled.
- `AmfCodec.Codec.DecodeAMF0Elements`: memory is unbounded, so the reservation for the announced count (src/protocol/amf_codec.cpp:439), which can throw on a huge one before any element is read, always succeeds.
- Doubles are their 64-bit patterns; no floating-point arithmetic is modelled. Byte offsets and texts in error results are left out.
- `Scheduler.Monitor.GetNextEligibleTask`: the order of tasks within a wave, which the source sorts by number, is any order here.
- `SchedulerRun.RunSafe`: a manual restart of a failed task, and a session refresh that finds a stopped or completed task's session alive and sets it running again, are not events of a run.
- tmux, git and worker processes, and the parsing of the task file.
- `MediaDistribution.LateJoiner`: each stream's GOP buffer is a value owned by the distribution service; another holder may configure and clear it, but a buffer shared between streams, or pushed to by another holder, is not modelled. What is sent is stated, not what the drop policy then keeps, which `MediaDistribution.ReachesSubscriber` bounds.
- Subscriber statistics, slow-subscriber callbacks, and the metadata's content (a placeholder byte is sent in its place).
- Message texts and transaction ids of command responses; the extraction of command arguments, which are parameters.
- Watermark events and `resetStatistics` of the connection pool, and its switch for recycling, which nothing reads.
- Access control lists and stream-key authentication.
