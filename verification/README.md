# gayrpc: a verified model of the RPC core

gayrpc is a full-duplex RPC core: both ends of a link are caller and service at once, calls run in
parallel, and replies may come back in any order. This project models its four layers and proves what
each promises, and what they promise together.

- `Bytes.dfy`, `Framing.dfy`: the two nested big-endian, length-prefixed layers, the incremental parse
  loop with its saved position, the serializer, and the receiving end that keeps unfinished bytes.
- `Wire.dfy`, `Meta.dfy`, `Messages.dfy`: the protobuf wire format, the RpcMeta message as a value, and
  the generated classes that parse, serialize, size, merge and clear it in place. The wire primitives
  follow the sections 'Base 128 Varints', 'Length-Delimited Records', 'Last One Wins' and 'Maps' of the
  Protocol Buffers Encoding specification.
- `Client.dfy`, `ClientRuns.dfy`: the calling side as a class whose methods are the regions no other
  thread can interrupt, and runs of many threads, responses, scheduled notices and polls over its states.
  Taking an id and registering under the lock are separate steps, so threads interleave between them.
- `Registry.dfy`, `Interceptors.dfy`, `Service.dfy`, `StandardInterceptors.dfy`, `InboundChains.dfy`: the
  two-level handler registry, interceptor chains, the generated request stub and the one-shot reply
  object, the interceptors the library offers, and what the installed ones decide in front of a service or
  of a response handler.
- `Protocol.dfy`, `SyncCalls.dfy`: two endpoints over a link that may lose, repeat and reorder messages,
  and the promises of synchronous calls in their runs.
- `Stack.dfy`, `EndToEnd.dfy`, `ByteRuns.dfy`: from packets to bytes cut anywhere and back to handler calls,
  what the two endpoints send over that transport, and their runs driven by the bytes they read.

Where the code does not keep what its layers suggest, the project says exactly when it does:

- Once the stub's meta was moved on (a reply object took it, or an event loop), the stub's report of a chain
  error carries sequence id 0 and service id 0. For service 0, callbacks are matched to their requests
  exactly when no chain reports an error after that point; for other services always, because with one
  service per connection the report reaches no client (`Protocol.MatchedExactly`,
  `Protocol.MatchedIffErrorsComeBeforeNext`). `InboundChains.SafeExactly` and
  `Protocol.MatchedForInstalledChains` say which installed interceptors guarantee it: a protected call in
  front of a service that throws does not (`Protocol.ProtectedCallMatches`), a link that passes a copy of
  the meta on does (`Protocol.CopyAlwaysMatches`).
- A response takes its call before its body is parsed. When the body does not parse, or an interceptor of
  the client stops it, the promise of a synchronous call is never set, by a timeout neither
  (`ClientRuns.PromiseNeverSet`, `ClientRuns.UnreadableResponse`).
- A poll takes all expired calls before it calls their callbacks, and the first exception ends it; an empty
  callback of a call that a scheduled notice takes runs nothing. `ClientRuns.DropsExactlyWhen` and
  `ClientRuns.HandlersLostExactly` say exactly when a handler is lost, `ClientRuns.PollCutShort` and
  `ClientRuns.EmptyCallbackDrops` show the runs.
- The mark that tells a timeout from an error never comes to the caller, because copying an `RpcError` leaves
  it out. A synchronous caller can tell a timeout from an answer of the peer exactly when the answer is not
  the error with code 0 and no reason (`Service.TimeoutLooksLike`, `SyncCalls.SyncCallGetsItsAnswer`,
  `SyncCalls.LooksLikeTimeout`).
- An answer whose reason is not valid UTF-8 is sent, but the caller cannot read it, and its call stays pending
  (`EndToEnd.IllegibleAnswerLost`, `ByteRuns.OnlyLegibleTake`).
- The freshness asserts of a call hold exactly for at most 2^64 calls (`ClientRuns.FreshnessBudget`).
- The inner frame gives back exactly the metas below 4 GiB (`Framing.InnerRoundTrip`).
- The inner size check lets through frames whose two sizes sum to 2^64 or a little more
  (`Framing.OutOfRangeExactly`, `Framing.WrappedSizesPass`). No packet of a peer that uses this library is
  of that kind (`Stack.WireCarriesPackets`), and nothing is promised for one that is.
- A scheduled timeout carries service id 0 and is sure to reach its client exactly there
  (`Registry.TimeoutNoticeReachesServiceZero`); in the runs the clients of other services get none.
- A request that expects no response is answered when the stub itself fails (`Service.OneWayAnswered`).
- The RpcMeta layout printed in the repository's README differs from `gayrpc_meta.proto` and the generated
  code; the model follows the code.

Conventions. A handler or a timeout callback is named by a token, the number of its call; running it is not
part of the client's steps, so "taken" is what the maps guarantee; `InboundChains.HandlerCalledExactly` says
which taken handlers are called, and whether a timeout callback is empty, throws or returns is known from
the call. The deadline queue is a multiset, and its top some entry with the least deadline. Fields marked as
history exist only to state properties; no step reads them. An event whose guard is false changes nothing,
so every list of events is a run. Frame handlers do not touch the reader, so the frames of one read are
listed first and handled in that order. The test-and-set of a reply object and the sending after it are one
step. An interceptor uses its continuation at most once and before it returns; in front of a service it
hands on the meta in hand or a copy of it, unchanged, or moves it away. Maps are serialized in any order of
their entries.

`dafny verify dfyconfig.toml` checks everything.

## Model

| member | source | states |
|---|---|---|
| Protocol.MatchedExactly | tests/pb/echo_service.gayrpc.h:300-361 | for any service id and any policy on what chains may do with a request, chains that pass a copy of the meta on included: all runs of both endpoints end with callbacks matched to their own requests, and with no handler lost if timeout callbacks return, if and only if no call's error report goes astray under the policy |
| Protocol.MatchedIffErrorsComeBeforeNext | tests/pb/echo_service.gayrpc.h:335-348 | where the policy looks at the chain's outcome alone: so in all runs if and only if the service id is not 0 or no chain reports an error after the stub's meta was moved on |
| Protocol.MatchedForInstalledChains | src/gayrpc/core/GayRpcInterceptor.h:13-52 | for a given list of interceptors in front of any service code: so in all runs if and only if the service id is not 0 or the list is safe for every call it can receive |
| Protocol.ProtectedCallMatches | src/gayrpc/utils/UtilsInterceptor.h:57-80 | with the library's protected call installed, so in all runs if and only if the service id is not 0 |
| Protocol.CopyAlwaysMatches | src/gayrpc/core/GayRpcInterceptor.h:13-52 | with a link in front that passes a copy of the meta on, so in all runs at every service, whatever interceptors follow it |
| Protocol.CallbacksMatchRequests | tests/pb/echo_service.gayrpc.h:289-363 | in every run whose chains report errors in time and not beside a reply object, over a losing, repeating, reordering link: each call has at most one callback taken, only by the answer the peer gave to that call's own request, no delivered request has two answers or two responses, and no handler is lost if timeout callbacks return; both directions at once, any service id |
| Protocol.MisdirectedFails | tests/pb/echo_service.gayrpc.h:339-348 | for every call and chain outcome with an astray report: the run in which this report, made from a moved-from meta, takes the callback of call 0 |
| Protocol.CallCompletes | tests/TestRPC.cpp:43-102 | a pending call completes: once its request and then the answer are delivered, the handler of that very call is taken by the answer the service gave |
| Protocol.NextKeeps | tests/pb/echo_service.gayrpc.h:289-363 | any step of either endpoint keeps the invariant that ties links, deliveries, reply objects, answers and callback logs of both ends together |
| Protocol.GoodIsMatched | src/gayrpc/core/GayRpcClient.h:255-270 | the invariant of both ends gives the matching |
| Protocol.PlayIsRun | src/gayrpc/core/GayRpcClient.h:122-271 | what happens to the client at either end of a run of both endpoints is a run of that client, so that all its results carry over |
| Protocol.ReturningLosesNothing | src/gayrpc/core/GayRpcClient.h:235-253 | no handler of either client leaves the maps without anything being run, if their timeout callbacks are there and return, because peers of this library never send the timeout mark |
| Protocol.ReceiveRequestKeeps | tests/pb/echo_service.gayrpc.h:293-361 | receiving a request, even a repeated one, creates one delivery, with what the stub itself reports recorded as an answer to it |
| Protocol.ReceiveResponseKeeps | src/gayrpc/core/GayRpcClient.h:225-271 | receiving a response, even a late or repeated one, keeps every callback matched |
| Protocol.RespondKeeps | src/gayrpc/core/GayRpcReply.h:25-72 | what a reply object sends is an answer to the request of its delivery |
| Protocol.TakeOnce | src/gayrpc/core/GayRpcReply.h:25-72 | with errors reported in time, every step keeps it that a delivery has at most one answer and one response, and none while its reply object is unused |
| Protocol.TransmitKeeps | src/gayrpc/core/GayRpcClient.h:161-168 | a request leaves with the id its call took |
| Protocol.NoticeScheduled | src/gayrpc/utils/UtilsInterceptor.h:120-139 | the timeout check, reading the meta with which a call leaves, schedules a notice exactly for the calls that sending arms, under the call's id and after the caller's timeout |
| Protocol.LocalKeeps | src/gayrpc/core/GayRpcClient.h:82-159 | calls, polls and scheduled notices keep the invariant of the endpoint; notices come to the client of service 0 only |
| Protocol.ErrorGoesAstray | tests/pb/echo_service.gayrpc.h:339-348 | the stub's report after a moved meta carries sequence id 0 and service id 0 |
| SyncCalls.SyncCallGetsItsAnswer | tests/pb/echo_service.gayrpc.h:104-146 | in every run of two endpoints without astray reports, whatever the client's inbound chain: the promise of a synchronous call is written at most once; for a timeout exactly when a notice took the call or a poll that collected no empty or throwing callback before it; for a message exactly when this message took the call and is passed on, and then with what the peer answered to the call's own request; this looks like a timeout if and only if the answer is the error with code 0 and no reason |
| SyncCalls.LooksLikeTimeout | tests/pb/echo_service.gayrpc.h:117-122 | the run in which a service answers with code 0 and no reason and the promise is set to what a timeout would have set it to |
| SyncCalls.EntryIsOwnAnswer | src/gayrpc/core/GayRpcHelper.h:68-82 | the arguments of a message that took a matched call are those of an answer the peer gave to its request, and tell it from a timeout unless it is the error with code 0 and no reason |
| EndToEnd.EverythingSentArrives | src/gayrpc/protocol/BinaryProtocol.h:29-113 | in every run of the two endpoints, errors gone astray and lapped counters included, the byte transport carries both directions: at every moment the first of the messages sent whose texts pass the receiver's check, in order and equal in every field, and finally exactly these with no byte left, for every cut into reads |
| EndToEnd.SentArrives | src/gayrpc/protocol/BinaryProtocol.h:29-113 | the same for any messages of the shape that endpoints send |
| EndToEnd.IllegibleAnswerLost | src/gayrpc/protocol/BinaryProtocol.h:81-85 | at an input: an error answer whose reason the receiver's check refuses is sent, and nothing arrives |
| EndToEnd.TakeShapes | src/gayrpc/core/GayRpcReply.h:33-97 | every step keeps this shape: requests and responses without names, annotations or, in requests, reasons |
| EndToEnd.MetaSize | src/gayrpc/core/gayrpc_meta.pb.cc:1123-1180 | apart from its two texts a serialized meta without annotations takes less than 200 bytes, so that it is far below every size limit |
| ByteRuns.ByteRunsMatch | src/gayrpc/protocol/BinaryProtocol.h:69-113 | runs driven by bytes, cut anywhere, whose chains let no error report go astray end with callbacks matched to their own requests, and with no handler lost if timeout callbacks return |
| ByteRuns.ByteRunIsRun | src/gayrpc/protocol/BinaryProtocol.h:69-113 | every byte-driven run of the two endpoints is a run of the protocol, within the same policy |
| ByteRuns.DispatchIsReceive | src/gayrpc/core/GayRpcTypeHandler.h:59-77 | handing a packet to the handler the registry has for it is the endpoint's step of receiving that message of the peer |
| ByteRuns.InboxIsSent | src/gayrpc/protocol/BinaryProtocol.h:72-112 | the k-th packet parsed and not handed on yet is a message the peer sent: the one whose number among the readable ones is the number of packets handed on plus k |
| ByteRuns.PositionGrows | src/gayrpc/protocol/BinaryProtocol.h:166-186 | no message is handed on twice, and none before an earlier one |
| ByteRuns.OnlyLegibleTake | src/gayrpc/protocol/BinaryProtocol.h:81-85 | an answer with a text the caller's check refuses takes no call in any byte-driven run |
| ByteRuns.NoticeIsDispatched | src/gayrpc/utils/UtilsInterceptor.h:95-117 | a scheduled notice, handed on through the registry, is the step in which the client of service 0 times the call out, and no step of a client of another service |
| ByteRuns.TableCalls | src/gayrpc/core/GayRpcTypeHandler.h:59-77 | with a service and a client of one id registered, requests of that service lead to the request stub, responses to the client, other packets to no call |
| ClientRuns.FreshnessBudget | src/gayrpc/core/GayRpcClient.h:130-159 | the asserts before the map insertions hold in all runs of at most n calls if and only if n does not exceed 2^64 |
| ClientRuns.LapFails | src/gayrpc/core/GayRpcClient.h:176-189 | the run with a call left pending over a whole lap of the counter, in which the assert fails |
| ClientRuns.ReachableMaps | src/gayrpc/core/GayRpcClient.h:130-201 | in every reachable interleaved state: timeout keys are stub keys, each has exactly one timer, ids taken but not registered are in neither map, all ids are below the counter |
| ClientRuns.EveryCallHasOneFate | src/gayrpc/core/GayRpcClient.h:122-271 | conservation: a call that expects a response is waiting, pending, or taken exactly once, and no other call is any of these |
| ClientRuns.NothingDropped | src/gayrpc/core/GayRpcClient.h:235-253 | when timeout notices come only from the caller's own event loop, and all timeout callbacks are there and return, no handler leaves the maps without a callback |
| ClientRuns.DropsExactlyWhen | src/gayrpc/core/GayRpcClient.h:97-107 | a step loses a handler exactly when a message of the peer with the timeout mark, or a scheduled notice, names a pending call with no timeout callback or an empty one, or a poll collects an empty callback or a throwing one in front of another |
| ClientRuns.HandlersLostExactly | src/gayrpc/core/GayRpcClient.h:82-271 | over whole runs: no handler is lost if and only if no step of the run is one of these |
| ClientRuns.EmptyCallbackDrops | src/gayrpc/core/GayRpcClient.h:239-251 | at an input: the scheduled notice of a call with an empty timeout callback erases its handler and runs nothing |
| ClientRuns.PollCutShort | src/gayrpc/core/GayRpcClient.h:104-107 | at an input: two calls expire in one poll, the callback of the first is empty or throws; that of the second is not called and its promise stays unset for ever |
| ClientRuns.FirstTakerWins | src/gayrpc/core/GayRpcClient.h:82-103 | response, poll and scheduled notice race for a timed call: the first decides the outcome, every later one changes neither map and runs nothing, on every continuation |
| ClientRuns.SettledForever | src/gayrpc/core/GayRpcClient.h:233-269 | a call whose callbacks were taken never re-enters either map and is never taken again |
| ClientRuns.LeftoverTimerIsHarmless | src/gayrpc/core/GayRpcClient.h:95-101 | a queued timer whose call was answered never fires or erases anything on any continuation |
| ClientRuns.SyncPromiseSetOnce | tests/pb/echo_service.gayrpc.h:104-146 | the promise of a synchronous call is written at most once: by its timeout callback exactly when some step of the run is a notice for it, or a poll that collects no empty or throwing callback before it; by its handler for a response exactly when this response took the call and is passed on |
| ClientRuns.CalledExactly | src/gayrpc/core/GayRpcClient.h:104-107 | the timeout callback of a call is called in a run if and only if some step of the run times it out |
| ClientRuns.PromiseNeverSet | src/gayrpc/core/GayRpcClient.h:255-270 | when a call was taken in a way that writes nothing, by a response that is not passed on or by a poll cut short, nothing sets the promise on any continuation |
| ClientRuns.UnreadableResponse | src/gayrpc/core/GayRpcHelper.h:53-74 | at an input: a timed call answered by a response whose body does not parse leaves the promise unset for ever |
| ClientRuns.RunKeeps | src/gayrpc/core/GayRpcClient.h:122-271 | whole runs keep the invariant while the counter has not lapped |
| ClientRuns.ApplyKeeps | src/gayrpc/core/GayRpcClient.h:122-271 | every event keeps the invariant |
| ClientRuns.RegisterKeeps | src/gayrpc/core/GayRpcClient.h:152-158 | a thread about to register finds its id in neither map, and registering keeps the invariant |
| ClientRuns.BeginKeeps | src/gayrpc/core/GayRpcClient.h:130 | taking an id keeps the invariant |
| ClientRuns.AnswerKeeps | src/gayrpc/core/GayRpcClient.h:234-269 | a response or notice with any id moves at most one call from pending to taken |
| ClientRuns.PollKeeps | src/gayrpc/core/GayRpcClient.h:82-103 | a poll moves exactly the expired calls from pending to taken |
| ClientRuns.SendKeeps | src/gayrpc/core/GayRpcClient.h:161-168 | sending, and arming the scheduled notice, keeps the invariant |
| Client.BaseClient.CheckTimeout | src/gayrpc/core/GayRpcClient.h:82-108 | collects the callbacks of exactly the expired calls, each once, by nondecreasing deadline, removes these calls from both maps and passed deadlines from the queue, leaves everything else; then calls them up to the first exception |
| Client.BaseClient.CollectExpired | src/gayrpc/core/GayRpcClient.h:86-103 | the locked part of it |
| Client.BaseClient.RunCallbacks | src/gayrpc/core/GayRpcClient.h:104-107 | which collected callbacks are called: those with no empty or throwing one before them that are not empty; an exception leaves exactly if one of them does not return |
| Client.BaseClient.ProcessRpcResponse | src/gayrpc/core/GayRpcClient.h:225-271 | takes the handler or a timeout callback that is not empty for a response, or reports a missing stub, and removes the id from both maps |
| Client.BaseClient.NextSequenceID | src/gayrpc/core/GayRpcClient.h:130 | the old counter value, and the counter one further, wrapping at 64 bits |
| Client.BaseClient.Register | src/gayrpc/core/GayRpcClient.h:188-201 | adds the handler under an id not yet in the map |
| Client.BaseClient.RegisterTimed | src/gayrpc/core/GayRpcClient.h:140-159 | adds handler, timeout callback and timer under an id in neither map |
| Client.BaseClient.Call | src/gayrpc/core/GayRpcClient.h:170-210 | an undisturbed call without timeout: every field of its request meta, and the new state; nothing registered without a handler |
| Client.BaseClient.CallTimed | src/gayrpc/core/GayRpcClient.h:122-168 | an undisturbed timed call: every field of its request meta, the timeout as an unsigned number included, handler, timeout callback and a timer with the deadline in nanoseconds |
| Client.BaseClient.Top | src/gayrpc/core/GayRpcClient.h:90 | an entry with the least deadline |
| Client.BaseClient.constructor | src/gayrpc/core/GayRpcClient.h:111-118 | counter 0, nothing registered |
| Client.PollStops | src/gayrpc/core/GayRpcClient.h:88-102 | when the polling loop ends, exactly the expired calls have fired and exactly the later deadlines remain |
| Client.PollMeans | src/gayrpc/core/GayRpcClient.h:88-102 | a poll entry by entry: which calls stay in both maps with which callbacks, and that the others are collected once each, the earlier deadline first |
| Client.PollCollects | src/gayrpc/core/GayRpcClient.h:95-100 | one turn of the loop collects the head's callback in deadline order and removes its call |
| Framing.CutIndependence | src/gayrpc/protocol/BinaryProtocol.h:166-186 | for any cut of any bytes into reads, resuming from the saved position, frames and leftover are those of one pass |
| Framing.DecodeAppend | src/gayrpc/protocol/BinaryProtocol.h:166-186 | parsing the leftover with new bytes behind it continues the parse of the whole |
| Framing.DecodeConserves | src/gayrpc/protocol/BinaryProtocol.h:166-186 | no byte is lost: frames and leftover re-encode to the input, and the leftover holds no complete frame |
| Framing.DecodeEncode | src/gayrpc/protocol/BinaryProtocol.h:166-186 | encoded frames are decoded in order, whatever follows them |
| Framing.InnerRoundTrip | src/gayrpc/protocol/BinaryProtocol.h:146-159 | the inner layer gives back meta and data if and only if the meta size fits 32 bits |
| Bytes.BigEndianPlace | README.md:70-87 | the i-th of k bytes of a number is its digit to the base 256 with place value 256^(k-1-i) |
| Bytes.FromBigEndianAppend | README.md:70-87 | reading from the left, what was read so far counts 256 times more with every further byte |
| Framing.FrameLayout | README.md:70-87 | the bytes of an outer frame: eight of length, four of op, the high-order byte first in each, then the data |
| Framing.TwentyBytes | src/gayrpc/protocol/BinaryProtocol.h:169-185 | any twenty bytes behind the twelve bytes with length 20 and op 1 are handed over as one frame |
| Framing.PacketLayout | src/gayrpc/protocol/BinaryProtocol.h:146-159 | the bytes of a whole RPC frame: eight of length, 00 00 00 01, four of meta size, eight of data size, the high-order byte first in each, then meta and body |
| Framing.ParseInnerBytes | src/gayrpc/protocol/BinaryProtocol.h:190-220 | what the inner parser sees of a packet whose meta size was cut to 32 bits |
| Framing.StreamDelivers | src/gayrpc/protocol/BinaryProtocol.h:72-112 | packets mixed with complete frames of another opcode or with inner sizes that do not fit: exactly the packets are delivered, in order, no bytes left |
| Framing.ChunkedStreamDelivers | src/gayrpc/protocol/BinaryProtocol.h:166-186 | the same for every cut of the stream into reads |
| Framing.StreamPrefix | src/gayrpc/protocol/BinaryProtocol.h:166-186 | before the stream was read to its end, what was delivered is the beginning of the packets sent |
| Framing.OutOfRangeExactly | src/gayrpc/protocol/BinaryProtocol.h:199-209 | the size check passes for a packet longer than its frame if and only if the 64-bit sum of the two sizes wraps to a number of bytes the frame has |
| Framing.WrappedSizesPass | src/gayrpc/protocol/BinaryProtocol.h:199-209 | at an input: the twelve bytes with sizes 1 and 2^64 - 1 pass the check |
| Framing.DecodeAt | src/gayrpc/protocol/BinaryProtocol.h:169-185 | one step of the reference decoder at a position of the buffer |
| Framing.ParseOpPacket | src/gayrpc/protocol/BinaryProtocol.h:166-186 | the loop hands over the reference frames in order and leaves the saved position at the first byte of the leftover |
| Framing.ParseProtobufPacket | src/gayrpc/protocol/BinaryProtocol.h:190-220 | the inner parser with its 64-bit size sum agrees with the reference: too short, a packet, or views that leave the frame |
| Framing.SerializeProtobufPacket | src/gayrpc/protocol/BinaryProtocol.h:146-159 | appends the encoded packet, in the two nested layers |
| Framing.Connection.OnData | src/gayrpc/protocol/BinaryProtocol.h:69-113 | after each read, frames handled and bytes kept are those of one pass over all bytes received |
| Meta.SerializeParse | src/gayrpc/core/gayrpc_meta.pb.cc:952-1121 | round trip: a message comes back unchanged, presence of sub-messages, 64-bit ids, negative codes and annotations written in any order included, exactly when its texts pass the library's check |
| Meta.ConcatenationMerges | src/gayrpc/core/gayrpc_meta.pb.cc:1197-1220 | 'Last One Wins' of the Protocol Buffers Encoding specification: parsing two serializations end to end merges the second message into the first, refused exactly when a text of either is |
| Meta.ParseMerges | src/gayrpc/core/gayrpc_meta.pb.cc:952-1026 | parsing a serialization on top of any message merges it in |
| Meta.ParseConcatenation | src/gayrpc/core/gayrpc_meta.pb.cc:952-1026 | for arbitrary bytes: parsing more bytes continues from the message parsed so far |
| Meta.EntryRoundTrip | src/gayrpc/core/gayrpc_meta.pb.cc:1070-1113 | one annotation, written as a message of its own, is read back, refused exactly when its key or value is |
| Meta.ApplyEntryRecords | src/gayrpc/core/gayrpc_meta.pb.cc:996-1006 | parsing annotations written in any order puts all of them into the map, a later one over an earlier one of the same key |
| Meta.SameSize | src/gayrpc/core/gayrpc_meta.pb.cc:1130-1137 | the size of the annotations is the same for every order of writing them |
| Meta.ParseRequestMerges | src/gayrpc/core/gayrpc_meta.pb.cc:308-416 | the same for the request sub-message |
| Meta.ParseResponseMerges | src/gayrpc/core/gayrpc_meta.pb.cc:608-716 | the same for the response sub-message |
| Meta.TruncateSignExtend | src/gayrpc/core/gayrpc_meta.pb.cc:630-634 | a 32-bit number sent sign-extended is truncated back to itself |
| Meta.SameBits | src/gayrpc/core/gayrpc_meta.pb.cc:689-692 | the number on the wire is congruent to the original modulo 2^64, the number cut from the wire modulo 2^32 |
| Meta.NegativeTakesTenBytes | src/gayrpc/core/gayrpc_meta.pb.cc:689-692 | a negative number is written in ten bytes after its tag, and every 32-bit number read back as a signed 64-bit number is itself |
| Meta.RequestBytes | src/gayrpc/core/gayrpc_meta.pb.cc:370-416 | the serialization of a request, byte by byte with its tags and in its order |
| Meta.ResponseBytes | src/gayrpc/core/gayrpc_meta.pb.cc:670-716 | the serialization of a response, byte by byte with its tags and in its order |
| Meta.MetaBytes | src/gayrpc/core/gayrpc_meta.pb.cc:1028-1121 | every serialization of a message, byte by byte with its tags and in its order, sub-messages and annotations included |
| Meta.RequestNumberWins | src/gayrpc/core/gayrpc_meta.pb.cc:308-368 | behind any bytes that parse, one more number with tag 08, 18, 20 or 28 decides its field of the request, also when it is 0, other numbers decide nothing |
| Meta.RequestTextWins | src/gayrpc/core/gayrpc_meta.pb.cc:323-330 | behind any bytes that parse, one more text with tag 12 is the method name, or refused |
| Meta.ResponseNumberWins | src/gayrpc/core/gayrpc_meta.pb.cc:608-668 | behind any bytes that parse, one more number with tag 08, 10, 18 or 28 decides its field of the response, also when it is 0, other numbers decide nothing |
| Meta.ResponseTextWins | src/gayrpc/core/gayrpc_meta.pb.cc:637-643 | behind any bytes that parse, one more text with tag 22 is the reason, or refused |
| Meta.MetaNumberWins | src/gayrpc/core/gayrpc_meta.pb.cc:959-977 | behind any bytes that parse, one more number with tag 08, 10 or 18 decides type, service id or encoding, other numbers decide nothing |
| Meta.EntryPartWins | src/gayrpc/core/gayrpc_meta.pb.cc:996-1006 | behind any bytes of an annotation that parse, one more key or value replaces that part; missing parts are empty, other fields are skipped |
| Meta.MetaRecordWins | src/gayrpc/core/gayrpc_meta.pb.cc:978-1006 | behind any bytes that parse, one more record: a sub-message is parsed on top of the one already there, an annotation replaces one of its key |
| Messages.RequestMessage.InternalParse | src/gayrpc/core/gayrpc_meta.pb.cc:308-368 | the parse loop accepts what the reference parser accepts and leaves its result in the fields |
| Messages.RequestMessage.InternalSerialize | src/gayrpc/core/gayrpc_meta.pb.cc:370-416 | appends the serialization |
| Messages.RequestMessage.ByteSizeLong | src/gayrpc/core/gayrpc_meta.pb.cc:418-466 | the size, added up in another order, is the number of bytes written |
| Messages.RequestMessage.MergeFrom | src/gayrpc/core/gayrpc_meta.pb.cc:483-506 | fields of the other message that are not zero or empty replace those of this one |
| Messages.RequestMessage.Clear | src/gayrpc/core/gayrpc_meta.pb.cc:295-306 | back to the default message |
| Messages.ResponseMessage.InternalParse | src/gayrpc/core/gayrpc_meta.pb.cc:608-668 | as for the request |
| Messages.ResponseMessage.InternalSerialize | src/gayrpc/core/gayrpc_meta.pb.cc:670-716 | appends the serialization |
| Messages.ResponseMessage.ByteSizeLong | src/gayrpc/core/gayrpc_meta.pb.cc:718-764 | the size is the number of bytes written |
| Messages.ResponseMessage.MergeFrom | src/gayrpc/core/gayrpc_meta.pb.cc:781-804 | as for the request |
| Messages.ResponseMessage.Clear | src/gayrpc/core/gayrpc_meta.pb.cc:595-606 | back to the default message |
| Messages.RpcMetaMessage.InternalParse | src/gayrpc/core/gayrpc_meta.pb.cc:952-1026 | the outer parse loop, with sub-messages parsed on top of those already there and annotations added to the map |
| Messages.RpcMetaMessage.ParseOneField | src/gayrpc/core/gayrpc_meta.pb.cc:958-1018 | one turn of the loop: the field is applied as in the reference, or refused |
| Messages.RpcMetaMessage.InternalSerialize | src/gayrpc/core/gayrpc_meta.pb.cc:1028-1121 | appends the serialization, sub-messages with their lengths, annotations in the order the map's iterator chooses |
| Messages.RpcMetaMessage.ByteSizeLong | src/gayrpc/core/gayrpc_meta.pb.cc:1123-1180 | the size is the number of bytes written, sub-messages included, and annotations in any order |
| Messages.RpcMetaMessage.MergeFrom | src/gayrpc/core/gayrpc_meta.pb.cc:1197-1220 | merges into the fields, the annotations and the owned sub-messages, and leaves the other message alone |
| Messages.RpcMetaMessage.CopyFrom | src/gayrpc/core/gayrpc_meta.pb.cc:1229-1234 | the copy equals the original |
| Messages.RpcMetaMessage.Clear | src/gayrpc/core/gayrpc_meta.pb.cc:931-950 | back to the default message, sub-messages and annotations gone |
| Wire.ParseAppend | src/gayrpc/core/gayrpc_meta.pb.cc:952-1026 | the parse loop of any message continues over a concatenation |
| Wire.ParseEncoded | src/gayrpc/core/gayrpc_meta.pb.cc:952-1026 | parsing written fields applies exactly these fields, in order |
| Wire.ReadFieldLocal | src/gayrpc/core/gayrpc_meta.pb.cc:954-1018 | a complete field, unknown groups included, is read the same whatever follows it |
| Wire.ReadFieldInverse | src/gayrpc/core/gayrpc_meta.pb.cc:1034-1068 | a written field is read back |
| Wire.VarintRoundTrip | src/gayrpc/core/gayrpc_meta.pb.cc:318-347 | every 64-bit value is read back from its varint |
| Wire.VarintSizeIsLength | src/gayrpc/core/gayrpc_meta.pb.cc:433-452 | the counted size of a varint is its length |
| Wire.VarintDigits | src/gayrpc/core/gayrpc_meta.pb.cc:318-347 | the i-th byte of a varint holds the digit of its number to the base 128 with place value 128^i |
| Wire.VarintMarks | src/gayrpc/core/gayrpc_meta.pb.cc:318-347 | all bytes of a varint but the last are marked |
| Wire.VarintLength | src/gayrpc/core/gayrpc_meta.pb.cc:433-452 | a varint has as many bytes as its number needs |
| Wire.LongNumbersRefused | src/gayrpc/core/gayrpc_meta.pb.cc:318-347 | a number is refused if and only if none of its first ten bytes ends it, a tag if and only if none of its first five does |
| Wire.NumbersAreCut | src/gayrpc/core/gayrpc_meta.pb.cc:318-347 | numbers of up to ten bytes are cut to 64 bits, tags of up to five bytes to 32 bits |
| Wire.RecordsRefused | src/gayrpc/core/gayrpc_meta.pb.cc:978-990 | a record is refused if and only if it is 2 GiB or longer, or longer than what is left |
| Wire.SkippedFields | src/gayrpc/core/gayrpc_meta.pb.cc:349-357 | unknown fixed-size fields are skipped with their eight or four bytes; an end of group on its own and field number 0 are refused |
| Wire.SkippedGroup | src/gayrpc/core/gayrpc_meta.pb.cc:349-357 | an unknown group is skipped with everything in it up to the end of the same group |
| Service.OnlyFirstAnswerSent | src/gayrpc/core/GayRpcReply.h:25-72 | for every mix of calls on one reply object: the first is sent if a response is expected, no other ever is |
| Service.CallerSeesAnswer | src/gayrpc/core/GayRpcHelper.h:68-82 | the handler's arguments determine the answer the service gave, and a response determines the request ids it answers |
| Service.TimeoutLooksLike | src/gayrpc/core/GayRpcError.h:24-27 | since the copy constructor leaves the timeout mark out, an answer reads like a timeout if and only if it is the error with code 0 and no reason |
| Service.ChainErrorAddress | tests/pb/echo_service.gayrpc.h:335-348 | the stub's report of a chain error carries the request's ids if and only if the meta was not moved before, or these ids are 0 |
| Service.OneResponsePerDelivery | tests/pb/echo_service.gayrpc.h:300-353 | stub and reply object together send at most one response, except exactly when the chain fails after the reply object was built and the service answers too |
| Service.OneWayAnswered | tests/pb/echo_service.gayrpc.h:322-343 | a request that expects no response is answered all the same exactly when the stub itself reports a failure |
| Service.BaseReply.DoReply | src/gayrpc/core/GayRpcReply.h:25-51 | the first call sends, if a response is expected, a reply with the request's ids, every field of it given; later calls throw and send nothing |
| Service.BaseReply.DoError | src/gayrpc/core/GayRpcReply.h:54-98 | the same for an error with code and reason |
| Service.EchoServerService.RequestStub | tests/pb/echo_service.gayrpc.h:293-361 | selects by name, else by id; runs body parser, installed interceptors and service code; when it throws; every field of what it reports for an unknown method or a chain error; the reply object it leaves with the service |
| Service.DecimalIsRight | tests/pb/echo_service.gayrpc.h:315-325 | the decimal digits in the report of an unknown id stand for this id |
| Service.SelectsExactly | tests/pb/echo_service.gayrpc.h:300-320 | without a name a method is selected if and only if its id is given, with a name if and only if it is its name |
| Service.MethodTables | tests/pb/echo_service.gayrpc.h:42-47 | no two methods share an id or a name; ids and names are those of the service definition |
| Service.CallReachesMethod | tests/pb/echo_service.gayrpc.h:60-75 | a call with a method's id, or with its name, comes to this method's body parser and code, and to those of no other method |
| Service.OwnMethodDecides | tests/pb/echo_service.gayrpc.h:227-262 | what becomes of a call of a method depends on the body parser and the code of this method and of no other, behind any interceptors |
| Service.AnswerSeen | tests/pb/echo_service.gayrpc.h:335-353 | what the stub sees of each kind of result: its own error text, an exception, or nothing |
| Service.EchoServerService.HandleRequest | tests/pb/echo_service.gayrpc.h:227-241 | the outcome of the interceptors' reference meaning in front of the handler that builds the reply object, or an exception for a body that does not parse |
| Service.MakeRequestRpcMeta | src/gayrpc/core/GayRpcHelper.h:23-38 | a fresh meta with exactly the given fields, one by one |
| Registry.RunRefines | src/gayrpc/core/GayRpcTypeHandler.h:27-57 | any sequence of register, remove and remove-all on the two-level table is the same on one flat table, answers included, and leaves no empty inner table |
| Registry.StepRefines | src/gayrpc/core/GayRpcTypeHandler.h:27-57 | the same for one operation |
| Registry.DispatchIsFlat | src/gayrpc/core/GayRpcTypeHandler.h:59-77 | dispatch calls exactly the flat table's handler; it throws for the type exactly when the type has none |
| Registry.TimeoutNoticeReachesServiceZero | src/gayrpc/utils/UtilsInterceptor.h:95-117 | a scheduled timeout reaches the response handler of its service, whatever is registered, if and only if that service has id 0 |
| Registry.RpcTypeHandleManager.RegisterTypeHandle | src/gayrpc/core/GayRpcTypeHandler.h:27-37 | adds the handler when the key is free; a refused registration changes nothing |
| Registry.RpcTypeHandleManager.RemoveTypeHandle | src/gayrpc/core/GayRpcTypeHandler.h:39-51 | removes exactly the key |
| Registry.RpcTypeHandleManager.RemoveAll | src/gayrpc/core/GayRpcTypeHandler.h:53-57 | empties the table |
| Registry.RpcTypeHandleManager.HandleRpcMsg | src/gayrpc/core/GayRpcTypeHandler.h:59-77 | finds the handler by type and service, or reports which of the two is unknown |
| Interceptors.RunConcat | src/gayrpc/core/GayRpcInterceptor.h:13-52 | a concatenated list behaves as the first part with the second part as its continuation, for every message, state and final handler |
| Interceptors.RunIsDownAndBack | src/gayrpc/core/GayRpcInterceptor.h:25-50 | a run is a way down to the handler or to the first link that stops, and the way back through the links entered, innermost first |
| Interceptors.LinkBehindOthers | src/gayrpc/core/GayRpcInterceptor.h:25-50 | a link behind any number of others is entered with their marks; it answers by itself, or the handler gets what it passes on and it treats what comes back |
| Interceptors.StopperCuts | src/gayrpc/core/GayRpcInterceptor.h:13-52 | an interceptor that does not call next keeps everything after it from running |
| Interceptors.MarksInListOrder | src/gayrpc/core/GayRpcInterceptor.h:25-50 | interceptors are entered in list order, then the final handler |
| Interceptors.MakeInterceptor | src/gayrpc/core/GayRpcInterceptor.h:12-52 | the closure built from the last interceptor to the first means the list |
| StandardInterceptors.ProtectedCallCatches | src/gayrpc/utils/UtilsInterceptor.h:57-80 | behind a protected call an exception becomes an error result, everything else is unchanged |
| StandardInterceptors.TimeoutCheckOnlySchedules | src/gayrpc/utils/UtilsInterceptor.h:120-139 | schedules one notice for a request with a positive timeout and otherwise passes everything through |
| InboundChains.ReplyBuiltExactly | tests/pb/echo_service.gayrpc.h:236-241 | a reply object is built if and only if no link stops the request and the body parses, in binary for encoding 0 and as JSON for encoding 1; it takes the stub's own meta unless a link passed a copy on |
| InboundChains.SafeExactly | tests/pb/echo_service.gayrpc.h:335-348 | errors are reported with the stub's meta still in its place, whatever the service does, if and only if that holds for what the list's way back makes of a result without error and of every exception, or of the answer of the link that stops the request; links may move the meta or pass a copy on |
| InboundChains.CopyMakesSafe | src/gayrpc/core/GayRpcInterceptor.h:25-50 | behind a link that passes a copy of the meta on, every list is safe for every request |
| InboundChains.SelectionsSafeExactly | tests/pb/echo_service.gayrpc.h:335-348 | of links that leave the meta alone and always come to a result, all selections in all orders are safe if and only if each single link makes no error of a result without error nor of an exception |
| InboundChains.ProtectedCallReportsLate | src/gayrpc/utils/UtilsInterceptor.h:57-80 | alone in front of a service, the protected call makes an error of what a method throws, with its text; it comes after the meta was moved if and only if the body parses and the method throws |
| InboundChains.RefusalBehindTheHop | src/gayrpc/utils/UtilsInterceptor.h:22-55 | links that are each harmless: a refusal behind the hop to an event loop is an error after the meta was moved |
| InboundChains.OrderAroundTheHop | src/gayrpc/utils/UtilsInterceptor.h:22-80 | a protected call behind the hop to an event loop reports exceptions late; in front of the hop it never sees one and is safe |
| InboundChains.HandlerCalledExactly | src/gayrpc/core/GayRpcHelper.h:41-82 | the handler taken for a response is called once, with its body and error, if and only if there is one, the encoding is known, the body parses and no link of the client's inbound chain stops it |
| Stack.WireCarriesPackets | src/gayrpc/protocol/BinaryProtocol.h:69-113 | end to end: packets with foreign frames between them, cut into reads anywhere: exactly those whose texts pass the receiver's check arrive, in order, equal in every field, with no byte left, and the receiving code stays within its frames |
| Stack.WireCarriesPrefix | src/gayrpc/protocol/BinaryProtocol.h:69-113 | at every moment before that, the first of these packets have arrived |
| Stack.CallsAreArrivals | src/gayrpc/protocol/BinaryProtocol.h:72-110 | frame by frame, the handler calls are those of the packets that arrive |
| Stack.CallsOfOne | src/gayrpc/core/GayRpcTypeHandler.h:59-77 | a packet leads to exactly one call, of the handler registered for its type and service, with the packet unchanged; without such a handler to none |
| Stack.HandleFrame | src/gayrpc/protocol/BinaryProtocol.h:72-110 | one frame leads to the call the registry gives for its packet, or to none; nothing is promised for a frame whose size sum wraps or whose meta is 2 GiB or more |
| Stack.HandleFrames | src/gayrpc/protocol/BinaryProtocol.h:72-110 | the frames of one read up to the first such frame, in order |
| Stack.BinaryPacketHandle | src/gayrpc/protocol/BinaryProtocol.h:69-113 | one read leads to the handler calls of its complete frames, in order, and leaves the incomplete rest; from a frame of that kind on nothing is promised |

## Left out

- Sockets, event loops, connectors and session lifetime (brynet): only a clock value, a link and a reader with two positions remain; brynet's sources are not part of this model.
- `src/gayrpc/utils/UtilsWrapper.h`: configuration plumbing; one service per connection is modelled, because the builder adds one more sender to the outbound list for each service it installs.
- HTTP transport and JSON bodies: thin wrappers over library code.
- folly futures beyond a ready result or exception, and the asynchronous body of `withEventLoop` beyond its moving of the meta.
- Unknown fields are skipped and not kept, and the library's nesting limit for unknown groups is not modelled.
- UTF-8 validity is a parameter, so that the results hold for every check the library may apply.
- Meta.SerializeParse: stated, like the other round trips, for serializations below 2 GiB, the limit of the wire format; records above it are refused by the parsers.
- Framing.ParseProtobufPacket: when the size sum wraps and the check passes, the outcome is `OutOfRange`; the views behind the frame that the code then builds are not modelled.
- Stack.HandleFrame: does not model what follows from such views, nor the negative size the meta parser is given for a meta of 2 GiB and more.
- Interceptors.MakeInterceptor: does not model interceptors that keep their continuation and use it after they returned, as an event loop or a resumed interceptor does.
- Client.BaseClient.CallTimed: does not model the overflow of timeouts beyond 292 years when seconds become 64-bit nanoseconds.
- Interceptors that rewrite the ids of a meta, or put a meta back after it was moved.
- The size of a packet of 2^64 bytes and more, which no process can hold.
- Message bodies: the echo and benchmark codecs repeat simpler code; which bodies parse is a parameter.
- The future returned by a chain that is not ready yet: a result that comes later is reported like one that comes at once, only the time differs; one that never comes, or breaks later, is the outcome `Lost` and reports nothing.
- Liveness: nothing is said about messages that never arrive, beyond the timeouts.
