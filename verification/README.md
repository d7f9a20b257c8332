# Ersha: from a sensor to the central store

Ersha carries sensor readings from small edge devices, over a regional dispatcher, to a central
server called prime. This project models the four parts of that path that have state, order or
failure in them, and proves what they keep.

- **The edge link** (`Postcard`, `BigEndian`, `EdgeFrame`, `Incremental`, `Handshake`,
  `EdgeDevice`, `EdgeReceiver`). A device numbers readings, prints each as a frame in the Postcard 1.0 wire
  format and writes it to a socket that takes any part of a write and may break. The dispatcher
  decodes frames out of a growing buffer, however the stream was cut. The bytes are concrete:
  varints, zigzag, tagged unions, length-prefixed bytes. `Incremental` is the theory of any such
  decoder, and the RPC connection uses it again. The main result runs from the device's queue to
  the dispatcher's output: a prefix of the dequeued readings, in order, and nothing else, and
  exactly which prefix when the connection breaks.
- **The dispatcher's state** (`Dispatcher`, `Runs`). Connection handlers, the collector and the
  uploader interleave around the connected set and the queue of events for prime.
- **Store and forward** (`DispatchStorage`, `PrimeIngest`, `UploadSystem`, `UploadRuns`). Records wait at the
  dispatcher, travel in batches that may be lost, answered late or worked on twice at once, and
  are filtered and stored by prime one record at a time.
- **RPC** (`RpcFrame`, `RpcClient`, `RpcCalls`, `RpcServer`, `RpcSystem`, `RpcRuns`, `Transport`,
  `UploadTransport`). Length-prefixed frames, the map of
  waiting calls shared by a reader task and any number of callers with timeouts, and the server's
  receive-and-reply loop; first against a peer that may send anything, then against that server,
  then any number of connections as the network that the upload system takes for granted.
- **Queries** (`Sql`, `UlidText`, `Filters`, `Paging`, `Listing`, `StatusFilters`, `StatusTables`,
  `StatusMemory`, `StatusLists`, `ReadingQuery`, `ReadingLists`). The SQLite query builders write text token by token;
  the text is parsed back and given a meaning with three-valued logic, a LEFT JOIN, DISTINCT,
  ORDER BY, LIMIT and OFFSET, and that meaning is compared with the in-memory registries.
  `Listing` compares lists of records of any kind; readings and statuses are its two uses.

`EndToEnd` joins the edge link and the upload system: from a reading in a device's queue to the
same reading in prime's map.

The state machines are relations between states: a run is any sequence of enabled steps, and
every statement about a run speaks of all of its states. Fields marked as the record of the run
remember what happened; no step reads them, except to draw identifiers not drawn before.

## Where the code does not keep a promise

Each of these is stated with the exact condition, or the exact part, under which the promise
holds. An if-and-only-if names every input that breaks it; where the condition is about a whole
run, a run that breaks it is given.

- A frame whose inner payload is malformed ends its handler through `?` and skips
  `device_disconnected`: the device stays in the connected set with no event
  (`MalformedPayloadLeaks`). `ConnectionTracking` says what the set and the events are in every
  run, that exit included; with honest devices the exit is out of reach (`HonestTracking`).
- A reply to a batch counts as success for the records prime turned away: they are marked
  uploaded, are not at prime (`RejectedRecordIsStranded`) and are never sent again
  (`NeverSentAgain`); where cleanup is called they are then stored nowhere
  (`RejectedRecordVanishes`). A record that is no longer pending is at prime if and only if its
  device was registered at one of the moments when prime looked at the record
  (`ArrivedIffRegisteredAtACheck`), which holds for every record whose device was registered when
  it was stored (`TrustedRecordsArrive`).
- `write_frame` cuts the length to 32 bits before it checks it: a frame reads back if and only if
  its encoding is shorter than 2^32 bytes (`ReadsBackIffLengthFits`). A message of exactly that
  length is written, with the length 0 in front of it, and misread (`LongMessageIsMisread`).
- `provision` ignores how many bytes its two writes took: the dispatcher welcomes the device if and
  only if both took everything (`WelcomeIffBothWritesWhole`).
- The SQL filters ignore empty lists and cut times to seconds, the in-memory ones do neither. The
  two agree on all whole-second records if and only if the filter has no empty list and cutting
  moves no bound past a whole second, or the query can select nothing (`AgreementExactly`, for
  statuses and for readings).
- `offset as i64` wraps: the SQL window is the in-memory page if and only if the offset is below
  2^63, nothing is asked for, or there is nothing to skip (`WindowAgrees`).
- Cursor pagination in memory gives nothing without a cursor: a walk gives what its caller has not
  seen if and only if it starts from a record of the list, or the list is empty
  (`CursorWalkExactly`).
- `ersha-edge/README.md:230` says the engine buffers and retries. The code does neither: a reading
  whose send fails is gone, and so is one that the socket accepted and the network did not carry.
  Of the dequeued readings, the k-th is emitted at the dispatcher if and only if its frame ends
  within the bytes carried (`DeliveredExactly`); when the connection breaks inside the first frame,
  no dequeued reading is ever emitted (`BrokenConnectionLosesReadings`).
- Pending records are sent as one batch, and a frame has a limit: the call for a batch in flight can
  return Ok if and only if the writer takes its frame (`CanReturnOkExactly`; `UploadSucceeds` is a
  run in which a record arrives). A batch that is too large is sent, fails and is sent again
  (`OversizedBatchIsResent`); while every batch that holds the pending records encodes to more than
  the limit, and to less than 2^32 bytes, nothing is marked uploaded, however often the uploader
  reconnects (`OversizedBacklogIsStuck`).
- The order of records that tie in the sort key is left to the hash map on one side and to the
  database on the other: for offset pages the two backends always give the same list if and only if
  no record the page shows ties with another accepted one (`ListsAgreeExactly`, for statuses and for
  readings).

## Model

| member | source | states |
|---|---|---|
| Postcard.WidthsAreExact | ersha-edge/src/lib.rs:19-25 | the varint limits used for u16, u32, usize and u128 admit exactly the values of those types |
| Postcard.VarintRoundTrip | ersha-edge/src/lib.rs:19-25 | every number of a width encodes in at most its maximum length and decodes to itself, whatever follows |
| Postcard.VarintFits | ersha-dispatch/src/edge/tcp.rs:205-206 | whatever bytes arrive, a decoded varint fits its width |
| Postcard.VarintStable | ersha-dispatch/src/edge/tcp.rs:205-207 | a verdict on a varint other than "input ended" is not revised by more bytes |
| Postcard.VarintIsCanonical | ersha-edge/src/lib.rs:19-25 | every byte of a varint but the last announces another, and the last is not a wasted zero |
| Postcard.ZigZagBijective | ersha-edge/src/sensor.rs:15-26 | the encoding of signed values is a bijection between i16 and u16 that sends n to an even number of at most 2n, and a negative n to an odd number below -2n |
| Postcard.BytesRoundTrip | ersha-edge/src/transport/mod.rs:21-27 | a length-prefixed payload decodes to itself and leaves what follows |
| EdgeFrame.FrameFits | ersha-edge/src/transport/wifi.rs:66-83 | a payload has at most 45 bytes and a frame exactly six more, at most 51, so both fixed buffers of the sender suffice; every frame begins DA C8 03 01 00 |
| EdgeFrame.SamplePayloads | ersha-edge/src/lib.rs:19-25 | payloads byte by byte, one for each kind of metric |
| EdgeFrame.SampleFrame | ersha-edge/src/transport/mod.rs:21-27 | a frame byte by byte around any payload below 128 bytes |
| EdgeFrame.PacketRoundTrip | ersha-edge/src/lib.rs:19-25 | every reading packet decodes to itself out of its encoding |
| EdgeFrame.MsgRoundTrip | ersha-edge/src/transport/mod.rs:21-27 | every frame decodes to itself and leaves exactly what follows it |
| EdgeFrame.MsgStable | ersha-dispatch/src/edge/tcp.rs:204-213 | for any bytes, a decoded frame or an error other than "input ended" stays what it is when the buffer grows |
| EdgeFrame.MsgTight | ersha-dispatch/src/edge/tcp.rs:204-213 | cut anywhere before its end, a frame that decodes is unfinished and never an error |
| EdgeFrame.FramesArePrefixFree | ersha-edge/src/transport/mod.rs:21-27 | no frame is the beginning of another |
| Incremental.ChunkIndependence | ersha-dispatch/src/edge/tcp.rs:182-253 | for any byte stream, honest or not, and any two ways of cutting it into reads: the same items in the same order, and the same error or the same leftover buffer |
| Incremental.DrainExtends | ersha-dispatch/src/edge/tcp.rs:202-250 | a pass over a longer buffer goes on exactly where the pass over its beginning stopped |
| Incremental.LeftoverWaits | ersha-dispatch/src/edge/tcp.rs:204-250 | what stays buffered between reads holds nothing that could have been emitted |
| Incremental.UnfinishedWaits | ersha-dispatch/src/edge/tcp.rs:205-208 | every strict prefix of a printed item makes the decoder wait |
| Incremental.HonestPrefix | ersha-dispatch/src/edge/tcp.rs:182-253 | at every point of an honest stream exactly the completed items were emitted and less than one item is buffered |
| Incremental.StreamRoundTrip | ersha-dispatch/src/edge/tcp.rs:182-253 | the bytes of any list of items, cut in any way, give exactly that list and leave nothing |
| EdgeReceiver.EdgeDecoderIsLawful | ersha-dispatch/src/edge/tcp.rs:204-250 | each frame shrinks the buffer by at least four bytes, so the loop ends, and no verdict is revised when bytes arrive |
| EdgeReceiver.EdgeHandler.OnRead | ersha-dispatch/src/edge/tcp.rs:202-250 | one read emits exactly what one pass over the old buffer and the chunk gives and ends in that pass's state; if the collector's channel closes first, exactly as many as it took, and the handler ends with that |
| EdgeReceiver.ConversionIsInjective | ersha-dispatch/src/edge/tcp.rs:263-281 | scaling by 100 keeps different metrics different |
| EndToEnd.ConversionKeepsMetric | ersha-dispatch/src/edge/tcp.rs:263-281 | the metric type stored is the variant printed on the wire; a percentage is unchanged, and 100 times any other value is the number sent |
| EdgeReceiver.FrameVerdict | ersha-dispatch/src/edge/tcp.rs:204-247 | a whole frame, whatever follows it, is refused with its preamble unless that is 0xE45A, whatever its version; it ends the connection if its payload is no packet, and is otherwise the packet's sensor and metric under the connection's identity with confidence 100 |
| EdgeReceiver.BadFrameEnds | ersha-dispatch/src/edge/tcp.rs:204-247 | after any good frames a bad one, cut in any way and whatever follows, leaves exactly the good readings emitted and ends with its error |
| EdgeReceiver.FrameReadsBack | ersha-edge/src/transport/wifi.rs:66-83 | what send_reading prints is decoded to that sensor and that converted metric, whatever follows |
| EdgeReceiver.EdgeRoundTrip | ersha-dispatch/src/edge/tcp.rs:182-253 | any list of packets, cut in any way, arrives as exactly their sensor identifiers and converted metrics, in order |
| EdgeReceiver.EdgePrefix | ersha-dispatch/src/edge/tcp.rs:182-253 | however far an honest device's bytes have come: the completed readings, no failure, at most 50 bytes buffered |
| Handshake.Incoming.ReadExact | ersha-edge/src/transport/wifi.rs:86-97 | however reads are cut, the buffer holds the next bytes of the stream, or the stream ended before it was full |
| Handshake.Greet | ersha-dispatch/src/edge/tcp.rs:155-172 | the dispatcher's answer, and what it leaves unread in each case, are a function of the stream |
| Handshake.Provision | ersha-edge/src/transport/wifi.rs:37-63 | the device sends what its two writes took and reads its identifier off the next 16 bytes, or fails |
| Handshake.WelcomeIffBothWritesWhole | ersha-edge/src/transport/wifi.rs:45-54 | a device is welcomed if and only if both writes took everything, and then with its own location |
| Handshake.WholeGreetingIsRead | ersha-dispatch/src/edge/tcp.rs:155-163 | a whole greeting gives the device's location and leaves what follows to the frame decoder |
| Handshake.DeviceLearnsItsId | ersha-edge/src/transport/wifi.rs:56-62 | the identifier the device reads is the one the dispatcher drew |
| EdgeDevice.Socket.WriteAll | ersha-edge/src/transport/wifi.rs:99-105 | what is sent does not depend on how writes were cut: everything if the socket accepts that much, and otherwise exactly the part it accepts |
| EdgeDevice.Socket.SendReading | ersha-edge/src/transport/wifi.rs:66-83 | a send appends the whole frame, or the part of it the socket accepts and then fails with UnableToSend; SerializationFailed cannot happen |
| EdgeDevice.Engine.TrySend | ersha-edge/src/lib.rs:44-69 | a reading enters the queue exactly if fewer than 16 wait; produced equals dropped plus queued plus dequeued |
| EdgeDevice.Engine.RunOnce | ersha-edge/src/engine.rs:32-52 | the k-th dequeued reading travels with number k modulo 2^16; its frame is sent whole if the socket is up at the end of the turn, and otherwise only a strict part of it and nothing afterwards |
| EdgeDevice.PrintedAppend | ersha-edge/src/engine.rs:35-50 | the bytes of one more reading are its frame, numbered by its place, after the earlier ones |
| EdgeDevice.FrameTells | ersha-edge/src/engine.rs:35-42 | read off the k-th frame: the device, the sensor, k modulo 2^16 and the metric as taken from the queue |
| EdgeDevice.DeliveredIsPrefix | ersha-edge/src/engine.rs:32-52 | in every state of the engine, whatever has arrived and however cut, the dispatcher emitted a prefix of the dequeued readings, all of them once all bytes are there |
| EdgeDevice.DeliveredExactly | ersha-edge/src/engine.rs:35-50 | once all that the network carried has arrived, the k-th dequeued reading was emitted if and only if its frame ends within what was carried, and none whose send failed |
| EdgeDevice.BrokenConnectionLosesReadings | ersha-edge/src/engine.rs:46-48 | a run in which two readings are dequeued, none is dropped and none is ever emitted |
| EndToEnd.FromSensorToStore | ersha-dispatch/src/main.rs:250-341 | exactly the readings whose frames were carried reach the collector; each it stored, its device registered by then, is in every later state pending at the dispatcher or at prime with its sensor, the kind and value of its metric, and the connection's device, dispatcher and location |
| Dispatcher.DispatcherState.QueueAlerts | ersha-dispatch/src/main.rs:283-329 | the loop appends the report's alerts, whose contents AlertsExactly states, in order |
| Dispatcher.AlertsExactly | ersha-dispatch/src/main.rs:283-329 | first, if the battery is below 10, the critical battery alert of the device; then, in the order of the report, one sensor failure warning naming each faulty sensor; nothing else |
| Dispatcher.AlertIsQueuedIff | ersha-dispatch/src/main.rs:283-329 | an event is among them if and only if it is that battery alert and the battery is below 10, or the warning of some faulty sensor of the report |
| Dispatcher.AlertsCounted | ersha-dispatch/src/main.rs:283-329 | exactly one alert for a battery below 10 and one per faulty sensor |
| Dispatcher.EventConservation | ersha-dispatch/src/main.rs:394-446 | in every state of every run the events ever queued are, in order, those settled once (attempted, or discarded with a failed status call), those in the uploader's hand and those waiting |
| Dispatcher.AlertConservation | ersha-dispatch/src/main.rs:283-329 | in every run, whatever comes between two alerts of one report, the alerts queued and those about to be are the alerts of the reports received, once each and in order |
| Dispatcher.FatesExactly | ersha-dispatch/src/main.rs:404-446 | each settled event was attempted, alone, by a step that sends, or discarded by one in which the status call failed |
| Dispatcher.ReasonsThroughout | ersha-dispatch/src/edge/tcp.rs:186-260 | in every run a disconnection event is graceful if and only if its connection was closed, and otherwise says that it failed |
| Dispatcher.ConnectionTracking | ersha-dispatch/src/edge/tcp.rs:176-260 | in every run the connected set is the handlers still reading plus those that left over a malformed payload, and a device has one disconnection event exactly if it left in another way |
| Dispatcher.HonestTracking | ersha-dispatch/src/edge/tcp.rs:176-260 | with honest devices the connected set is exactly the handlers between connect and exit, and each device gone has exactly one event |
| Dispatcher.MalformedPayloadLeaks | ersha-dispatch/src/edge/tcp.rs:221-227 | six bytes after which a device is gone and yet connected, with no event |
| DispatchStorage.Shelf.StoreBatch | ersha-dispatch/src/storage/memory.rs:63-79 | a batch is its records stored one after another |
| DispatchStorage.Shelf.FetchPending | ersha-dispatch/src/storage/memory.rs:81-89 | exactly the pending records, once each |
| DispatchStorage.Shelf.MarkUploaded | ersha-dispatch/src/storage/memory.rs:91-101 | exactly the named records that are there become uploaded |
| DispatchStorage.Shelf.CleanupUploaded | ersha-dispatch/src/storage/memory.rs:197-228 | exactly the pending records stay, and the count says how many went |
| DispatchStorage.Shelf.GetStats | ersha-dispatch/src/storage/memory.rs:169-195 | the counts are those of the pending, the uploaded and all records, and add up |
| DispatchStorage.MarkAfterFetch | ersha-dispatch/src/main.rs:448-499 | marking what was fetched leaves pending exactly what was stored since the fetch, and cleanup then keeps exactly that |
| DispatchStorage.StoringAgainResets | ersha-dispatch/src/storage/memory.rs:47-58 | an uploaded record stored again is pending again |
| PrimeIngest.Prime.FilterKnown | ersha-prime/src/main.rs:239-267 | the records of registered devices in order, and a count of the others |
| PrimeIngest.Prime.OnBatchUpload | ersha-prime/src/main.rs:226-302 | the registries after a batch, and stored plus rejected equal the sizes of the batch |
| PrimeIngest.AcceptedExactly | ersha-prime/src/main.rs:239-267 | a record gets in if and only if it was in the batch and its device is registered |
| PrimeIngest.StoreAllAt | ersha-prime/src/registry/memory/reading.rs:48-53 | a batch store keeps other keys and leaves under each of its own a record of the batch that does not depend on what was there |
| PrimeIngest.ReprocessingIsIdempotent | ersha-prime/src/main.rs:239-301 | a batch processed again against an unchanged device registry changes nothing |
| PrimeIngest.IngestIsOnePass | ersha-prime/src/main.rs:273-284 | readings first and statuses second come to one pass over the batch |
| UploadSystem.InvStep | ersha-dispatch/src/main.rs:448-503 | every step of collector, uploader, network, prime and cleanup keeps the ten-part invariant |
| UploadSystem.NoLoss | ersha-dispatch/src/main.rs:448-503 | in every reachable state a record ever stored is pending or was in a batch prime worked through; uploaded or cleaned away implies the latter |
| UploadSystem.ExactlyOnceEffect | ersha-prime/src/main.rs:239-301 | prime holds, each with its one original value, only records that passed a check for a registered device, all of them when no batch is under way; counts always equal batch sizes |
| UploadSystem.TrustedRecordsArrive | ersha-dispatch/src/main.rs:448-503 | a record whose device was registered when it was stored is pending or unchanged at prime |
| UploadSystem.ArrivedIffAccepted | ersha-prime/src/main.rs:239-301 | a record no longer pending is at prime if and only if a check let it through; otherwise it was turned away and its device was not registered in time |
| UploadSystem.UndisturbedCheck | ersha-prime/src/main.rs:241-254 | checking one record keeps the task equal to the filter over what was checked |
| UploadSystem.UndisturbedStore | ersha-prime/src/main.rs:273-284 | storing one record keeps prime equal to the batch store of what was stored |
| UploadSystem.UploadSucceeds | ersha-dispatch/src/main.rs:488-499 | for any reading or status, a run after which it is marked uploaded and is at prime |
| UploadSystem.RejectedRecordIsStranded | ersha-dispatch/src/main.rs:488-499 | a run after which a stored record is uploaded at the dispatcher and not at prime, with nothing under way |
| UploadSystem.RejectedRecordVanishes | ersha-dispatch/src/storage/memory.rs:197-228 | the same run with a cleanup, after which the record is stored nowhere |
| UploadRuns.VerdictsAreChecks | ersha-prime/src/main.rs:241-267 | a record was accepted, or rejected, if and only if an earlier step of the run checked it while its device was registered, or was not |
| UploadRuns.ArrivedIffRegisteredAtACheck | ersha-prime/src/main.rs:239-301 | a record no longer pending is at prime if and only if its device was registered at some moment when prime looked at it |
| UploadRuns.NeverSentAgain | ersha-dispatch/src/main.rs:448-499 | a record marked uploaded or cleaned away is in no batch sent from then on |
| UploadRuns.BatchIsAllPending | ersha-dispatch/src/main.rs:448-488 | in any run what is sent is exactly the readings pending when they were fetched and the statuses pending when they were |
| UploadRuns.AnsweredBatchIsMarked | ersha-dispatch/src/main.rs:488-499 | in any run, once the reply arrived and statuses were next marked, no record of the batch is pending, readings and statuses alike, and marking touched no record outside it |
| UploadRuns.OnlyFailureDisconnects | ersha-dispatch/src/main.rs:465-503 | the uploader gives up its client only when a call fails |
| UploadRuns.LostNeverArrives | ersha-rpc/src/rpc.rs:58-66 | after a batch or its reply is lost, its call can only fail |
| UploadRuns.BatchAloneIsOneUpload | ersha-prime/src/main.rs:226-302 | in any run, a batch between whose arrival and reply no other batch is stored and no device registered has exactly the effect and counts of one call of the handler |
| UploadRuns.OversizedBacklogIsStuck | ersha-dispatch/src/main.rs:488-503 | while every batch that holds the records pending at some point encodes to more than 2 MB and less than 2^32 bytes, they stay pending and nothing is marked uploaded |
| UploadRuns.OversizedBatchIsResent | ersha-dispatch/src/main.rs:488-503 | a run in which such a batch is sent, the call fails and the same record is sent again |
| UploadRuns.CanReturnOkExactly | ersha-rpc/src/rpc.rs:47-55 | after any run, the call for a batch in flight can return Ok if and only if the writer takes its frame |
| RpcFrame.U32RoundTrip | ersha-rpc/src/frame.rs:28-40 | the length field reads back as written |
| RpcFrame.SampleLength | ersha-rpc/src/frame.rs:28-40 | the length field has its most significant byte first |
| RpcFrame.TooLargeIsNotRead | ersha-rpc/src/frame.rs:40-43 | a length field is refused before its body has come if and only if it says more than 2,000,000 |
| RpcFrame.Writer.WriteFrame | ersha-rpc/src/frame.rs:18-34 | an oversized message is refused before any byte; any other is written whole |
| RpcFrame.Writer.WriteQueued | ersha-rpc/src/rpc.rs:47-55 | the writer task sends the frames of the longest prefix of the queue whose messages are all taken, and nothing after the first refusal |
| RpcFrame.FrameDecoderIsLawful | ersha-rpc/src/frame.rs:36-50 | a reader's verdict does not change when more bytes arrive, and each frame shrinks the input |
| RpcFrame.ReadsBackIffLengthFits | ersha-rpc/src/frame.rs:18-50 | a written frame reads back, whatever follows, if and only if its encoding is shorter than 2^32 bytes |
| RpcFrame.LongMessageIsMisread | ersha-rpc/src/frame.rs:22-31 | a message of 2^32 bytes is written and does not read back |
| RpcFrame.ConnectionRoundTrip | ersha-rpc/src/rpc.rs:47-66 | however the bytes are cut, a connection carries exactly the messages queued before the first one refused, in order, and every length written is accepted |
| RpcServer.Connection.HandleConnection | ersha-rpc/src/server.rs:127-262 | the handled requests are a prefix; it ends before the last request only at a Hello that has a handler and was rejected, and no earlier request is one; the reply queue is the image of it |
| RpcServer.RepliesMatch | ersha-rpc/src/server.rs:147-258 | an envelope is among the replies if and only if it names a handled request, answers in its kind what its handler said, and that request is a Ping or has a handler |
| RpcServer.RepliesAreDistinct | ersha-rpc/src/server.rs:147-258 | no request is answered twice |
| RpcServer.RejectionIsLastReply | ersha-rpc/src/server.rs:158-172 | a rejected Hello is answered with its rejection, as the last reply in the queue |
| RpcClient.InvStep | ersha-rpc/src/rpc.rs:47-137 | every step of callers, writer and reader keeps the invariant, with the reader's removal and its delivery apart |
| RpcClient.NoCrossTalk | ersha-rpc/src/rpc.rs:58-137 | whatever the peer sends, a call that returns Ok got a received message that names it, and no two calls got the same |
| RpcClient.PendingMapExact | ersha-rpc/src/rpc.rs:70-137 | the map holds exactly the calls not returned and not taken by the reader; a returned call is never in it; ChannelClosed is unreachable |
| RpcClient.StoppedReaderLeavesTimeout | ersha-rpc/src/rpc.rs:58-66 | once the reader stopped, only its timeout moves a waiting call without a reply |
| RpcCalls.ResultExactly | ersha-rpc/src/rpc.rs:124-136 | in any run a returned call's result is Timeout if and only if it timed out, a send error if and only if the queue was closed to it, and otherwise Ok with a message received, naming it and handed over to it |
| RpcCalls.HandedOverIsReturned | ersha-rpc/src/rpc.rs:129-130 | a waiting call that was handed its reply can return it and can end in no other way |
| RpcCalls.LateExactly | ersha-rpc/src/rpc.rs:70-80 | the inbox, with the message on its way into it, is exactly the messages that found no waiter when they came, in order |
| RpcCalls.SomeCallFailsToSend | ersha-rpc/src/rpc.rs:124-127 | a run in which a call ends in a send error |
| RpcCalls.SomeReplyRacesTimeout | ersha-rpc/src/rpc.rs:70-74 | a run in which the reader takes a waiter, its call times out, and the reply goes to nobody |
| RpcSystem.SysStep | ersha-rpc/src/server.rs:127-262 | every step of a client and this server keeps order, distinctness and the fate of late replies |
| RpcSystem.TypedCallsGetTheirAnswer | ersha-rpc/src/client.rs:52-138 | a typed call that gets a reply gets its handler's answer to that very request: never UnexpectedResponse, never an error response |
| RpcSystem.ServerRunShape | ersha-rpc/src/server.rs:135-262 | in every run the replies are the in-order image of a handled prefix of the requests, distinct; the server has stopped if and only if it handled a Hello that a handler rejected, which is its last request and its last reply |
| RpcSystem.UnwaitedReplyIsLate | ersha-rpc/src/rpc.rs:70-76 | a reply that finds no waiter belongs to a call that timed out and got no other |
| RpcSystem.LateReplyBound | ersha-rpc/src/rpc.rs:70-80 | messages nobody reads answer distinct timed-out calls, so the reader can block on the inbox only after more than 1024 timeouts |
| RpcRuns.SomeCallSucceeds | ersha-rpc/src/client.rs:52-138 | for Ping and every kind with a handler, a run in which a typed call returns its handler's answer |
| RpcRuns.SomeReplyIsLate | ersha-rpc/src/rpc.rs:132-135 | a run in which a call times out and its answer ends in the inbox |
| Transport.ConnectionStep | ersha-rpc/src/rpc.rs:47-137 | every step of a connection is a step of a network that carries an upload at most once and returns each reply once, to its own call |
| Transport.ConnectionsRefineNetwork | ersha-dispatch/src/main.rs:510-543 | in every run of any number of connections the uploads sent, begun with, answered and returned are a trace of that network |
| UploadTransport.UploadStepLeads | ersha-dispatch/src/main.rs:488-503 | every step of the upload system is a step of that network, or the loss of a batch or reply |
| UploadTransport.OpenToTheNetwork | ersha-dispatch/src/main.rs:488-503 | the upload system can send, receive and return exactly what the network can bring, as long as no batch was lost |
| UlidText.TextPreservesOrder | ersha-prime/src/registry/sqlite/reading.rs:152-156 | the 26-character text form names each identifier once and orders as the numbers do |
| UlidText.TextRoundTrip | ersha-prime/src/registry/sqlite/reading.rs:180-194 | an identifier parses back from its text |
| UlidText.TextIsCrockford | ersha-prime/src/registry/sqlite/reading.rs:252-256 | the text has 26 characters, digits and capitals without I, L, O and U |
| Sql.KeepsIffAll | ersha-prime/src/registry/sqlite/reading.rs:239-246 | a row is kept if and only if every condition is true, not unknown, of it |
| Sql.ParseOfParts | ersha-prime/src/registry/sqlite/reading.rs:145-172 | text put together from join, conditions, order and window parses back to exactly those |
| Filters.IdsCondMeans | ersha-prime/src/registry/sqlite/reading.rs:248-258 | an IN list on identifiers' text keeps a row if and only if the non-empty list has its identifier |
| Filters.CutBounds | ersha-prime/src/registry/sqlite/reading.rs:327-339 | cutting bounds to seconds never loses a whole-second time, and changes nothing for exact bounds |
| Filters.LessThanASecond | ersha-prime/src/registry/sqlite/reading.rs:217-219 | a time read back is a whole second less than a second from the one stored, towards the epoch |
| StatusFilters.FilterStatuses | ersha-prime/src/registry/sqlite/device_status.rs:354-467 | what is pushed is the join if needed and one well-formed WHERE clause of the filter's conditions |
| StatusFilters.AgreementExactly | ersha-prime/src/registry/sqlite/device_status.rs:354-467 | SQL and in-memory filters accept the same whole-second statuses if and only if no list is empty and no bound moves, or nothing can be selected |
| StatusFilters.WitnessIsSelected | ersha-prime/src/registry/memory/device_status.rs:84-148 | unless the query can select nothing there is a status it selects |
| StatusTables.SqliteStatuses.Store | ersha-prime/src/registry/sqlite/device_status.rs:63-136 | the row and its children replace exactly those of the same status |
| StatusTables.SqliteStatuses.BatchStore | ersha-prime/src/registry/sqlite/device_status.rs:178-183 | a batch is its statuses stored one after another |
| StatusTables.StoreKeepsMirror | ersha-prime/src/registry/sqlite/device_status.rs:63-136 | storing in the tables and in the map keeps the tables a picture of the map |
| StatusTables.AnyStoresMirror | ersha-prime/src/registry/memory/device_status.rs:37-41 | from empty registries, after any stores, repeats included, the tables are a picture of the map and the map holds only what was stored |
| StatusTables.StatusRoundTrip | ersha-prime/src/registry/sqlite/device_status.rs:243-352 | a status read back is the one stored, errors and sensors in order, times cut to seconds |
| StatusTables.BuildCount | ersha-prime/src/registry/sqlite/device_status.rs:185-197 | the text of a count parses to exactly the query meant |
| StatusTables.ErrorCondsMean | ersha-prime/src/registry/sqlite/device_status.rs:439-464 | on one joined row, NULL columns included, the error conditions hold exactly if the row has an error as asked and of a code asked for |
| StatusTables.JoinMeans | ersha-prime/src/registry/sqlite/device_status.rs:361-369 | some joined row passes the error conditions if and only if the status's list of errors is accepted |
| StatusTables.QuerySelectsExactly | ersha-prime/src/registry/sqlite/device_status.rs:354-467 | for every filter and status the compiled query selects it if and only if the in-memory predicate, on filter and status as the query sees them, accepts it |
| StatusTables.CountsAgree | ersha-prime/src/registry/memory/device_status.rs:64-70 | with or without a filter both backends count the same, statuses with several errors once |
| StatusTables.CountsAgreeAfterStores | ersha-prime/src/registry/sqlite/device_status.rs:185-197 | whatever whole-second statuses were stored, both backends count the same without a filter and for every filter they read alike |
| StatusMemory.MemoryStatuses.Count | ersha-prime/src/registry/memory/device_status.rs:64-70 | the number of accepted statuses, or of all without a filter |
| StatusMemory.MemoryStatuses.List | ersha-prime/src/registry/memory/device_status.rs:72-81 | the page of the filtered and stably sorted values, for some order of the hash map |
| StatusMemory.MemoryStatuses.GetLatest | ersha-prime/src/registry/memory/device_status.rs:48-55 | a status of the device that none of its statuses is later than, or nothing if it has none |
| StatusMemory.LatestAgrees | ersha-prime/src/registry/sqlite/device_status.rs:157-176 | if no two statuses of a device share a second, the tables give the same latest status |
| StatusLists.BuildList | ersha-prime/src/registry/sqlite/device_status.rs:199-231 | the text of a list parses to exactly the query meant, with join, order and window |
| StatusLists.FoundCounts | ersha-prime/src/registry/sqlite/device_status.rs:366-369 | before DISTINCT a status is found once per joined row of it that the conditions keep |
| StatusLists.FoundOncePerError | ersha-prime/src/registry/sqlite/device_status.rs:439-446 | asked only for statuses with errors, the join finds each as often as it has errors |
| StatusLists.DistinctCollapsesJoin | ersha-prime/src/registry/sqlite/device_status.rs:203-207 | after DISTINCT each selected status is there once, and no other |
| StatusLists.SqlListsAreAnswers | ersha-prime/src/registry/sqlite/device_status.rs:199-231 | so ordering and cutting the distinct rows is ordering and cutting the selected ones |
| StatusLists.SelectedExactly | ersha-prime/src/registry/sqlite/device_status.rs:199-207 | a row is selected if and only if it is the row of an accepted status |
| StatusLists.CellOrder | ersha-prime/src/registry/sqlite/device_status.rs:209-218 | rows compare as their statuses do in each sort column |
| StatusLists.ListsAgreeExactly | ersha-prime/src/registry/sqlite/device_status.rs:199-240 | for offset pages both backends always give the same list of statuses, children included, if and only if no status the page shows ties with another accepted one |
| StatusLists.AnswerExists | ersha-prime/src/registry/sqlite/device_status.rs:199-240 | the database has an answer to every such query |
| StatusLists.ListsAgreeAfterStores | ersha-prime/src/registry/sqlite/device_status.rs:199-240 | the same, whatever whole-second statuses were stored |
| StatusLists.StatusPages | ersha-prime/src/registry/memory/device_status.rs:171-194 | the offset pages of statuses are the whole list, as long as the count says, and a cursor walk from any status visits the rest once each |
| StatusLists.PageIsInOrder | ersha-prime/src/registry/memory/device_status.rs:150-169 | a list is ordered by the field asked for, upwards or downwards, and holds accepted statuses of the map, none twice |
| Paging.OffsetPagesPartition | ersha-prime/src/registry/memory/device.rs:153-160 | offset pages of any positive limit put together are the list |
| Paging.PageIsSlice | ersha-prime/src/registry/memory/device.rs:153-176 | every page is a run of consecutive records, at most as many as the limit |
| Paging.CursorWalkEnumerates | ersha-prime/src/registry/memory/device.rs:161-176 | walking by cursor from any record visits exactly the rest, once each, in order |
| Paging.CursorNeedsARecord | ersha-prime/src/registry/memory/device.rs:161-176 | without a cursor, or with an unknown one, a page is empty |
| Paging.CursorWalkExactly | ersha-prime/src/registry/memory/device.rs:161-176 | a walk gives what its caller has not seen if and only if it starts from a record of the list, or the list is empty |
| Paging.StableSortSorts | ersha-prime/src/registry/memory/device.rs:131-151 | the sorted list is ordered and holds each record as often as before |
| Paging.StableSortIsTheOnlyOne | ersha-prime/src/registry/memory/reading.rs:155-174 | a list is the sort's result if and only if it is ordered and keeps the order of ties, so the library's algorithm does not matter |
| Paging.WindowAgrees | ersha-prime/src/registry/sqlite/reading.rs:163-166 | LIMIT and OFFSET bound as i64 give the in-memory page if and only if the offset is below 2^63, the limit is 0 or the list is empty |
| Listing.RowsAreSelected | ersha-prime/src/registry/sqlite/reading.rs:141-176 | the rows of the accepted records are the selected rows, once each |
| Listing.SortedRows | ersha-prime/src/registry/sqlite/reading.rs:152-161 | the rows of a sorted list of the accepted records are an order the ORDER BY allows |
| Listing.OrderIsSorted | ersha-prime/src/registry/sqlite/reading.rs:152-161 | every order the ORDER BY allows is the rows of a sorted list of the accepted records |
| Listing.AgreeExactly | ersha-prime/src/registry/sqlite/reading.rs:152-176 | for offset pages any answer of the database, read back, is any result of the in-memory registry, if and only if no record shown ties with another |
| Listing.PageInOrder | ersha-prime/src/registry/memory/device.rs:131-176 | every page is in the order asked for and holds accepted records only, none twice |
| Listing.PagesVisitEachOnce | ersha-prime/src/registry/memory/device.rs:131-176 | over an unchanged map and for any total order, the offset pages are the whole sorted list, and a cursor walk from any record visits the rest once each |
| ReadingQuery.RowRoundTrip | ersha-prime/src/registry/sqlite/reading.rs:179-231 | a reading read back from its row is the one stored, time cut to seconds |
| ReadingQuery.SqliteReadings.BatchStore | ersha-prime/src/registry/sqlite/reading.rs:99-126 | a batch is its readings stored one after another |
| ReadingQuery.AnyStoresMirror | ersha-prime/src/registry/memory/reading.rs:37-53 | from empty registries, after any stores, repeats included, the table is a picture of the map and the map holds only what was stored |
| ReadingQuery.StoreKeepsMirror | ersha-prime/src/registry/sqlite/reading.rs:61-83 | storing in the table and in the map keeps the table a picture of the map |
| ReadingQuery.FilterReadings | ersha-prime/src/registry/sqlite/reading.rs:233-351 | what is pushed is one well-formed WHERE clause of the filter's conditions, in order |
| ReadingQuery.BuildList | ersha-prime/src/registry/sqlite/reading.rs:141-173 | the text of a list parses to exactly the query meant |
| ReadingQuery.BuildCount | ersha-prime/src/registry/sqlite/reading.rs:128-139 | the text of a count parses to exactly the query meant |
| ReadingQuery.QueryKeepsExactly | ersha-prime/src/registry/sqlite/reading.rs:233-351 | for every filter and reading the query keeps its row if and only if the in-memory predicate, on filter and reading as the query sees them, accepts it |
| ReadingQuery.AgreementExactly | ersha-prime/src/registry/memory/reading.rs:85-153 | SQL and in-memory filters accept the same whole-second readings if and only if no list is empty and no bound moves, or nothing can be selected |
| ReadingLists.MemoryReadings.List | ersha-prime/src/registry/memory/reading.rs:63-72 | the page of the filtered and stably sorted values, for some order of the hash map |
| ReadingLists.PageIsInOrder | ersha-prime/src/registry/memory/reading.rs:155-174 | a list is ordered by the field asked for, upwards or downwards, and holds accepted readings of the map, none twice |
| ReadingLists.MemoryReadings.Count | ersha-prime/src/registry/memory/reading.rs:55-61 | the number of accepted readings, or of all without a filter |
| ReadingLists.CellOrder | ersha-prime/src/registry/sqlite/reading.rs:152-161 | rows compare as their readings do, device identifiers as text included |
| ReadingLists.SelectedExactly | ersha-prime/src/registry/sqlite/reading.rs:141-176 | a row is selected if and only if it is the row of an accepted reading |
| ReadingLists.ListsAgreeExactly | ersha-prime/src/registry/sqlite/reading.rs:141-176 | for offset pages both backends always give the same list if and only if no reading the page shows ties with another accepted one |
| ReadingLists.AnswerExists | ersha-prime/src/registry/sqlite/reading.rs:141-176 | the database has an answer to every such query |
| ReadingLists.CountsAgree | ersha-prime/src/registry/sqlite/reading.rs:128-139 | both backends count the same, with or without a filter |
| ReadingLists.AgreeAfterStores | ersha-prime/src/registry/sqlite/reading.rs:128-176 | the same, whatever whole-second readings were stored, and both counts are the length of the full list |
| ReadingLists.ReadingPages | ersha-prime/src/registry/memory/reading.rs:176-198 | the offset pages of readings are the whole list, as long as the count says, and a cursor walk from any reading visits the rest once each |

## Left out

- TLS, sockets, task scheduling and real time: only steps, queues and a timeout step remain; dropping a call half-way is not modelled.
- The endless loops of the collector, the uploader and the RPC tasks are steps of state machines on values rather than methods of classes, because any other task may get in between two of them; what one pass does in place on the stores is in the classes.
- A connection to prime is registered with Hello before it is used; a rejected Hello leaves the uploader offline like any other failure to connect, and the backoff between attempts is not modelled.
- Identifiers and clock values drawn for readings, alerts and batches are inputs; drawn identifiers are taken to be fresh.
- The Postcard encoding of RPC envelopes is an arbitrary pair of functions that round-trips; only edge messages are spelled out in bytes.
- Floating-point numbers are reals, so rounding and NaN do not appear.
- usize is 64 bits wide, and prime's u32 counters do not wrap: a batch is a frame of at most 2 MB.
- Storage backends that can fail: the dispatcher's and prime's stores are the in-memory ones. With one that fails prime still reports its records as stored.
- The dispatcher's own SQLite store, and the age limit of its cleanup, which the in-memory store ignores.
- ClickHouse registries, and the SQLite device registry with its triggers.
- Filters and sort fields of devices: sorting and paging are proved once, for records of any kind, and applied to readings and statuses.
- Error and sensor rows of a status are read back in the order of insertion, and the parser of identifiers is modelled on the spelling the printer uses; other accepted spellings play no part.
- Cursor pagination in SQL, where the cursor is ignored: lists are compared for offset pagination.
- ListsAgreeExactly: for readings and for statuses, speaks of whole-second times, because the table keeps seconds.
- LatestAgrees: needs statuses of a device in different seconds, because the order of ties is fixed on neither side.
- HTTP services, the web interface, dashboards, the mock receiver, configuration, logging, sensor calibration and the example edge server.
