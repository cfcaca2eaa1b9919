# TiRPC, modelled and proved in Dafny

TiRPC is a coroutine RPC framework. A server accepts connections, hands each one to a sub-reactor
thread, and runs it as a coroutine that reads bytes into a growing buffer, cuts them into TinyPB
packets, dispatches each packet to a service, appends one reply, and sends the replies. Coroutines
wait by registering their descriptor with the reactor of the thread they run on and switching away;
ready coroutines are queued and may be stolen by other threads. A wheel of reference-counted slots
closes idle connections. A client picks a server by consistent hashing and retries on failure.

The project models these parts and proves what each of them is for:

| file | what it covers |
|---|---|
| `TcpBuffer.dfy` | the byte buffer: first in first out, capacity, cost of compaction |
| `TinyPbCodec.dfy`, `Bytes.dfy` | the packet format, the scan and the parse of `Decode`, the round trip |
| `Reassembly.dfy` | any split of the byte stream, any alternation of `recv` and the decode loop |
| `RpcDispatcher.dfy`, `TcpConnection.dfy` | one reply per request, the reply table, requests to replies end to end |
| `ReactorProtocol.dfy`, `FdEvent.dfy`, `TaskQueue.dfy` | hand-off of descriptors between sub-reactors, and work stealing |
| `Wakeups.dfy` | which waits can end: the protocol together with what each epoll instance watches |
| `Progress.dfy` | what the loop gets done: queues, posted tasks and events are taken up in order, turn by turn |
| `TimeWheel.dfy` | the idle-connection wheel against "ticks since the last refresh" |
| `ContextSwitch.dfy` | `coctx_swap`, `Resume`, `Yield`, `SetCallBack` over whole runs |
| `CoroutinePool.dfy` | the first-fit stack allocator and the coroutine pool |
| `ConsistentHash.dfy`, `RetryLoop.dfy` | the ring and minimal disruption, the retry loop |
| `Md5.dfy`, `Md5KnownAnswer.dfy` | the ring's MD5, and one digest worked out in full |
| `Timer.dfy`, `HttpHeader.dfy`, `MsgNumber.dfy` | the timer, HTTP header text, message numbers |
| `Common.dfy` | an option type and a minimum |

How the modules are built. An object whose methods change it is a class; each method is proved to
move the object's value (`View()`) exactly as a function on values does, and the promises about whole
runs are lemmas about those functions. Protocols with several threads are state machines whose steps
are locked sections, system calls, or stretches of code on one thread's own data; a run is any
interleaving. Sockets, epoll, malloc, the clock, the random device, protobuf services and the load
balancer's choices are parameters or arbitrary choices of a step.

Where an expected property is false of the code, the code is kept as it is and the exact condition is
proved, with a failing input or run:

- which messages survive a round trip (`TinyPbCodec.RoundTrip`), and which replies
  (`RpcDispatchers.ReplyIsCarried`, failing in `RpcDispatchers.LongServiceReplyIsLost`);
- when an incomplete packet is left alone (`Reassembly.QuietExactly`, failing in
  `Reassembly.CutHeaderFaults`), and when a whole session delivers what was sent
  (`Reassembly.SessionExactly`);
- when everything buffered is sent, once and in order (`TcpConnections.SentExactly`, failing in
  `TcpConnections.FailedSendRepeats`);
- which waiting connections can be resumed (`Wakeups.WatchedExactly`, `Wakeups.ArmedCanEnd` and
  `Wakeups.UnarmedNeverEnds`, failing in `Wakeups.FailedRegistrationStrands` and
  `Wakeups.ErrorEventStrands`);
- when a change of registration asked for by another thread takes effect (`FdEvents.DeferredExactly`);
- when a digest has sixteen bytes (`Md5.DigestIsFull`), and when the ring can be built without reading
  past one (`ConsistentHash.BuildRing`, and for the program's own digest `Md5.RingIsReadableExactly`,
  failing for the address 127.0.0.1:39999 in `Md5KnownAnswer.RingReadsPastDigest`);
- when the padding is that of RFC 1321 (`Md5.PaddingDeviates`);
- when deleting a timer event that is not pending does no harm (`Timers.DeleteNotPending`, failing in
  `Timers.DeleteCanEraseAnother`);
- which header fields survive (`HttpHeader.RoundTrip`).

Where the code and its comments differ the model follows the code: the ring's comment says a digest is
always sixteen bytes long (tirpc/net/tcp/load_balance.hpp:89), but `genDigest` stops at the last
non-zero byte of each word; and the comment on `padding` says it fills until the length is 448 modulo
512 (tirpc/common/md5.cpp:85), which here leaves out the one bit when the length is that already.

## Model

| member | source | states |
|---|---|---|
| `TcpBuffers.FirstInFirstOut` | tirpc/net/tcp/tcp_buffer.cpp:33-108 | Over any run of writes, socket fills and reads, growths and compactions included, the bytes read followed by the bytes still buffered are the bytes there at the start followed by the bytes put in. |
| `TcpBuffers.CapacityBound` | tirpc/net/tcp/tcp_connection.cpp:110-112 | Over any run, doublings in `Input` included, the vector never exceeds its initial size or three times the peak of readable bytes plus the write in hand. |
| `TcpBuffers.CompactionIsAmortised` | tirpc/net/tcp/tcp_buffer.cpp:67-80 | The sizes of all compactions of a run add up to at most three per byte taken out (plus three times the initial read index). |
| `TcpBuffers.AppendedEnqueues` | tirpc/net/tcp/tcp_buffer.cpp:43-50 | After a write the readable bytes are the old ones followed by the new ones: a growth always makes enough room and loses nothing. |
| `TcpBuffers.ReceivedEnqueues` | tirpc/net/tcp/tcp_connection.cpp:109-122 | The same for bytes put in by the socket, and the size changes only by the room made before. |
| `TcpBuffers.ReadAdvancedDequeues` | tirpc/net/tcp/tcp_buffer.cpp:90-98 | Dropping n readable bytes leaves exactly the others readable, at the same capacity. |
| `TcpBuffers.TcpBuffer.ResizeBuffer` | tirpc/net/tcp/tcp_buffer.cpp:33-41 | The new vector starts with as many readable bytes as fit, the rest zero, and both indices follow. |
| `TcpBuffers.TcpBuffer.WriteToBuffer` | tirpc/net/tcp/tcp_buffer.cpp:43-50 | The array, stale bytes included, and both indices become those of the append step, and stay valid. |
| `TcpBuffers.TcpBuffer.ReadFromBuffer` | tirpc/net/tcp/tcp_buffer.cpp:52-65 | Hands out the first min(size, readable) bytes and drops them; on an empty buffer the output and the buffer stay. |
| `TcpBuffers.TcpBuffer.AdjustBuffer` | tirpc/net/tcp/tcp_buffer.cpp:67-80 | Restores "read index at most a third of the size", moving the readable bytes to the front when it has to; faults exactly when it has to and the read index has passed the write index. |
| `TcpBuffers.TcpBuffer.ClearBuffer` | tirpc/net/tcp/tcp_buffer.cpp:84-88 | An empty vector, not only an empty queue. |
| `TcpBuffers.TcpBuffer.RecycleRead` | tirpc/net/tcp/tcp_buffer.cpp:90-98 | For every amount: within the readable bytes they are dropped and the buffer stays valid; an index past the vector is refused; any other index is taken over unchecked, and a compaction due beyond the write index copies a negative size (`fault`). |
| `TcpBuffers.TcpBuffer.RecycleWrite` | tirpc/net/tcp/tcp_buffer.cpp:100-108 | Advances the write index and compacts, or refuses an index past the vector. |
| `TcpBuffers.TcpBuffer.Receive` | tirpc/net/tcp/tcp_connection.cpp:109-122 | One turn of the loop of `Input`: doubled when full, filled by the socket from the write index, advanced. |
| `Bytes.NetRoundTrip` | tirpc/net/base/byte.hpp:9-13 | Reading four bytes in network order gives back every signed 32-bit value written with `htonl`. |
| `Bytes.NetOrder` | tirpc/net/rpc/rpc_codec.cpp:73-74 | The four bytes of an integer on the wire, times 2^24, 2^16, 2^8 and 1 in that order, are the value, or the value plus 2^32 if it is negative. |
| `TinyPbCodec.RoundTrip` | tirpc/net/rpc/rpc_codec.cpp:141-285 | If the unread bytes are the packet of a message followed by anything, decoding returns all its fields exactly when the number has 1 to 49 bytes, the service name and the error text at most 511, and all three are free of NUL; in every case exactly the rest stays unread. |
| `TinyPbCodec.DecodeOfFrame` | tirpc/net/rpc/rpc_codec.cpp:155-285 | For every encodable message, whatever stale bytes the vector holds: what decoding its packet comes to (fields, truncation at a NUL, drop, or leaving a local array) depends on the message alone. |
| `TinyPbCodec.PrefixFree` | tirpc/net/rpc/rpc_codec.cpp:52-139 | No packet of a carried message is a prefix of another's, so encoding is injective. |
| `TinyPbCodec.PacketLayout` | tirpc/net/rpc/rpc_codec.cpp:64-125 | Where everything is in a packet, byte position by byte position: start mark 2, the packet's own length, number, service name, code, error text and payload behind their lengths, checksum 1, end mark 3; integers with the most significant byte first. |
| `TinyPbCodec.PacketAnnouncesItsLength` | tirpc/net/rpc/rpc_codec.cpp:64-75 | The first five bytes on the wire are 2 and the length of the whole packet, most significant byte first. |
| `TinyPbCodec.DecodeMakesProgress` | tirpc/net/rpc/rpc_codec.cpp:155-200 | Whatever the bytes, a successful decode consumes at least seven and at most the readable ones. |
| `TinyPbCodec.DecodedIsBounded` | tirpc/net/rpc/rpc_codec.cpp:211-264 | Whatever the bytes, decoded strings are bounded by the local arrays and the error code is an int32. |
| `TinyPbCodec.EncodePbData` | tirpc/net/rpc/rpc_codec.cpp:52-139 | Without a service name nothing is laid out; otherwise the new array is exactly the packet, the message takes a generated number if it had none, and keeps its other fields. |
| `TinyPbCodec.LayOut` | tirpc/net/rpc/rpc_codec.cpp:67-125 | Writing through the moving pointer fills the allocation exactly, with the packet of the message. |
| `TinyPbCodec.LayOutFromService` | tirpc/net/rpc/rpc_codec.cpp:88-125 | The second part of that: what is before the pointer stays, the rest of the packet follows it. |
| `TinyPbCodec.Encode` | tirpc/net/rpc/rpc_codec.cpp:24-50 | Appends exactly one packet, or leaves buffer and message alone; which of the two depends on the service name alone. |
| `TinyPbCodec.Decode` | tirpc/net/rpc/rpc_codec.cpp:141-187 | The scanning loop agrees with the recursive scan of the raw vector in result, consumed bytes and faults. |
| `TinyPbCodec.ParseFields` | tirpc/net/rpc/rpc_codec.cpp:189-284 | The field-by-field parse agrees with the layered parse used by the round trip; the success flag is set exactly at its end. |
| `Reassembly.DeliversAPrefix` | tirpc/net/tcp/tcp_connection.cpp:172-197 | However the stream is cut and whenever the loop runs: the delivered messages are a prefix of those sent, no fault occurs, and delivered packets followed by buffered bytes are the bytes that arrived, provided the scan is quiet at each incomplete packet. |
| `Reassembly.DeliversEverything` | tirpc/net/tcp/tcp_connection.cpp:172-197 | Once all has arrived, the next run of the loop has delivered exactly the messages sent and emptied the buffer. |
| `Reassembly.CompleteStream` | tirpc/net/tcp/tcp_connection.cpp:176-196 | A buffer that holds whole packets is drained to the last byte, with no proviso. |
| `Reassembly.LoopDrains` | tirpc/net/tcp/tcp_connection.cpp:176-196 | One run of the loop, which knows only bytes, equals dropping the complete frames of the known messages. |
| `Reassembly.OnlyCarriedAreDelivered` | tirpc/net/tcp/tcp_connection.cpp:176-196 | Conversely, whole packets are all delivered only if every message is one that survives the round trip. |
| `Reassembly.LoopExactly` | tirpc/net/tcp/tcp_connection.cpp:176-196 | On any beginning of the stream one run of the loop delivers a prefix, without fault and without losing or inventing a byte, exactly if the scan is quiet at the incomplete packet it comes to, or there is none. |
| `Reassembly.SessionExactly` | tirpc/net/tcp/tcp_connection.cpp:95-197 | A whole session does so at every moment exactly if the scan is quiet each time the loop comes to an incomplete packet. |
| `Reassembly.QuietExactly` | tirpc/net/rpc/rpc_codec.cpp:155-187 | Decoding changes nothing and delivers nothing exactly when the scan of the raw vector takes no position for the start of a non-empty packet. |
| `Reassembly.UnmarkedHeadIsQuiet` | tirpc/net/rpc/rpc_codec.cpp:155-177 | An incomplete packet without inner start marks is left alone, unless its header is cut within the length at the very start of the vector. |
| `Reassembly.CutHeaderFaults` | tirpc/net/rpc/rpc_codec.cpp:157-168 | That exception is real: a packet's first two bytes, received first, make `Decode` read before the vector. |
| `Reassembly.UnmarkedSessionIsQuiet` | tirpc/net/rpc/rpc_codec.cpp:155-177 | For messages without inner start marks the proviso on the raw vector reduces to where a header is cut. |
| `Reassembly.UnmarkedReassembly` | tirpc/net/tcp/tcp_connection.cpp:95-197 | Reassembly from a fresh buffer with conditions on messages and cuts only. |
| `Reassembly.CutPacketIsCovered` | tirpc/net/tcp/tcp_connection.cpp:95-197 | Those conditions can be met by a packet cut in two, with the loop run in between. |
| `RpcDispatchers.ParseServiceFullName` | tirpc/net/rpc/rpc_dispatcher.cpp:127-145 | Succeeds exactly on names with a dot, and splits at the first. |
| `RpcDispatchers.ReplyAnswers` | tirpc/net/rpc/rpc_dispatcher.cpp:35-123 | On every branch the reply has the request's service name and number; an error code comes with error text, without payload, and only then. |
| `RpcDispatchers.CodeTellsBranch` | tirpc/net/rpc/rpc_dispatcher.cpp:54-121 | For a name split at its first dot, each error code occurs exactly in its case (service unknown or null, method unknown, request or response not convertible), and code zero exactly when the service answered, with its payload. |
| `RpcDispatchers.CodeTellsNoDot` | tirpc/net/rpc/rpc_dispatcher.cpp:42-52 | The name error occurs exactly for names without a dot. |
| `RpcDispatchers.ReplyIsCarried` | tirpc/net/rpc/rpc_dispatcher.cpp:35-123 | The reply to a carried request survives decoding exactly if: a name without a dot has at most 483 bytes, an unregistered service's at most 486, an unknown method's at most 487, and the type name quoted for a request that does not parse at most 467 and no NUL; an answered request's always does. |
| `RpcDispatchers.LongServiceReplyIsLost` | tirpc/net/rpc/rpc_dispatcher.cpp:56-66 | An input on which it does not: an unregistered service name of 487 bytes, in a request that does survive. |
| `RpcDispatchers.UnparsableNameReply` | tirpc/net/rpc/rpc_dispatcher.cpp:48-51 | For a name without a dot that means at most 483 bytes: longer ones, though they survive in a request, get a reply that does not survive decoding. |
| `RpcDispatchers.RpcDispatcher.FillReply` | tirpc/net/rpc/rpc_dispatcher.cpp:35-121 | The branches, in the code's order, set the reply that the lemmas above speak about. |
| `RpcDispatchers.RpcDispatcher.Dispatch` | tirpc/net/rpc/rpc_dispatcher.cpp:19-125 | Exactly one packet, that of the reply, is appended; none if the request names no service. |
| `RpcDispatchers.RegistrationIsLocal` | tirpc/net/rpc/rpc_dispatcher.cpp:147-151 | Registering changes no reply to a request that does not name the service; to one that does, "service not found" is the answer afterwards exactly if what was registered is null. |
| `TcpConnections.TcpConnection.Execute` | tirpc/net/tcp/tcp_connection.cpp:172-197 | Server: the replies to exactly the delivered messages are appended in order. Client: exactly those messages enter the reply table. The loop ends, and leaves what the reference loop leaves. |
| `TcpConnections.TcpConnection.GetResPackageData` | tirpc/net/tcp/tcp_connection.cpp:279-289 | Returns the stored reply and removes that one; finds nothing exactly when there is none. |
| `TcpConnections.TcpConnection.Output` | tirpc/net/tcp/tcp_connection.cpp:199-240 | For any results of the socket, failures included, the loop sends and leaves what the reference says, and faults exactly where that is about to send from before the vector. |
| `TcpConnections.SentExactly` | tirpc/net/tcp/tcp_connection.cpp:204-239 | The bytes sent followed by the bytes left are the bytes buffered exactly if none of the sends made failed: each failure moves the read index back by one. |
| `TcpConnections.FailedSendRepeats` | tirpc/net/tcp/tcp_connection.cpp:217-224 | An instance: after two of three bytes, a failure sends the second again. |
| `TcpConnections.OneReplyPerNamedRequest` | tirpc/net/tcp/tcp_connection.cpp:176-196 | As many replies as requests that name a service. |
| `TcpConnections.AnswersCorrespond` | tirpc/net/tcp/tcp_connection.cpp:176-196 | The i-th reply answers the i-th request, with its number and service name. |
| `TcpConnections.CollectedHoldsFirst` | tirpc/net/tcp/tcp_connection.cpp:190-195 | The reply table holds, for each number received and not there before, the first message with it. |
| `TcpConnections.AnswersCarriedExactly` | tirpc/net/tcp/tcp_connection.cpp:176-196 | All replies to a run of requests survive decoding exactly if each request's reply fits, a condition on the requests and the services. |
| `TcpConnections.RequestsAndReplies` | tirpc/net/tcp/tcp_connection.cpp:172-289 | There and back: the server decodes exactly the requests; the client decodes exactly the replies if and only if each request's reply fits; and then a request's number finds the reply to the first request with that number. |
| `ReactorProtocol.OwnershipInEveryRun` | tirpc/net/base/reactor.cpp:193-337 | In every interleaving of any number of sub-reactors and connections: a descriptor is in at most one `fds_`, once, and in none while queued or in a hand; an event is queued or held at most once; a running coroutine is registered nowhere else and its reactor is its thread's; nothing goes through the lists for other threads; and every open connection is accounted for: about to start, running, at a wait, queued or in a hand. |
| `ReactorProtocol.RegistersInLoopThread` | tirpc/coroutine/coroutine_hook.cpp:40-82 | In every run a waiting coroutine registers on the thread it runs on, directly; no other thread's data changes. |
| `ReactorProtocol.StepKeeps` | tirpc/net/base/reactor.cpp:207-334 | Every step of every thread keeps the ownership invariant. |
| `Progress.TurnReachesPoll` | tirpc/net/base/reactor.cpp:203-244 | From the top of the loop, in every state reached, a thread can come to its poll by its own moves, having resumed its whole own queue (or, that being empty, the first sixteen of the others') and started all that was posted to it, each once and in order, with queue, hand and tasks empty. |
| `Progress.PollReachesTop` | tirpc/net/base/reactor.cpp:244-335 | What a poll reports as ready is queued behind the thread's own queue, in order, and the loop comes back to its top. |
| `Progress.OwnQueueIsTaken` | tirpc/net/base/reactor.cpp:218-222 | In every state reached, two moves from the top bring the first sixteen of a non-empty own queue, in order, into the hand; the rest stays queued. |
| `Progress.OtherQueuesAreTaken` | tirpc/net/base/reactor.cpp:209-211 | With an empty own queue, the thread's own moves bring the first sixteen of the other queues, one behind the other, into the hand. |
| `Progress.HeldIsResumed` | tirpc/net/base/reactor.cpp:223-226 | The next in hand becomes the running coroutine, woken from the wait it was in, its reactor the thread that holds it. |
| `Progress.BatchInOrder` | tirpc/net/base/reactor.cpp:209-226 | In every run of any threads, what a thread resumes is its hand in order, and it leaves the batch only after the last. |
| `Progress.TasksInOrder` | tirpc/net/base/reactor.cpp:231-241 | The same of the posted tasks it runs. |
| `Progress.EventsInOrder` | tirpc/net/base/reactor.cpp:251-314 | And of the events of one poll. |
| `Progress.NeverStuck` | tirpc/net/base/reactor.cpp:203-335 | In every state reached, every thread has a move. |
| `Progress.PostedBehind` | tirpc/net/base/reactor.cpp:346-373 | A new connection is posted behind what is posted already; a failed poll starts a turn over. |
| `ReactorProtocol.TakeKeeps` | tirpc/net/base/reactor.cpp:208-228 | Moving any number of events from the front of any queue, own or another's, to a thread's hand keeps the ownership invariant. |
| `ReactorProtocol.HandleReadyKeeps` | tirpc/net/base/reactor.cpp:281-286 | Unregistering a ready coroutine's descriptor and detaching its event keeps the ownership invariant: the event is in hand, the descriptor in no reactor. |
| `ReactorProtocol.ArmInLoopThread` | tirpc/net/base/fd_event.cpp:57-85 | For an event whose reactor is the thread's, registering touches that thread's `fds_` and nothing deferred. |
| `ReactorProtocol.DisarmInLoopThread` | tirpc/net/base/fd_event.cpp:66-85 | Clearing the listened direction after a wait registers the descriptor with the new thread, listening to nothing. |
| `FdEvents.SubReactors.AddEventInLoopThread` | tirpc/net/base/reactor.cpp:148-172 | The descriptor is added once, and not at all if `epoll_ctl` fails. |
| `FdEvents.SubReactors.DelEventInLoopThread` | tirpc/net/base/reactor.cpp:175-191 | Find and erase removes the first occurrence, or nothing. |
| `FdEvents.DeferredExactly` | tirpc/net/base/reactor.cpp:82-119 | What additions and removals asked for by other threads come to at the end of the turn: a descriptor is registered exactly if it was before or was successfully added, and no removal was asked for, in whatever order the two were. |
| `FdEvents.SubReactors.UpdateToReactor` | tirpc/net/base/fd_event.cpp:76-85 | An event without a reactor takes the thread's; then it is added there. |
| `FdEvents.SubReactors.AddListenEvents` | tirpc/net/base/fd_event.cpp:57-64 | A direction already listened to changes nothing; a new one is added and registered. |
| `FdEvents.SubReactors.DelListenEvents` | tirpc/net/base/fd_event.cpp:66-74 | The mirror of that. |
| `FdEvents.SubReactors.BeforeYield` | tirpc/coroutine/coroutine_hook.cpp:40-79 | A hook up to its `Yield` is the protocol's arming step. |
| `FdEvents.SubReactors.AfterYield` | tirpc/coroutine/coroutine_hook.cpp:84-88 | A hook from its `Yield` on is the protocol's disarming step. |
| `FdEvents.SubReactors.UnregisterFromReactor` | tirpc/net/base/fd_event.cpp:87-95 | The descriptor leaves its reactor and listens to nothing. |
| `FdEvents.SubReactors.HandleEvent` | tirpc/net/base/reactor.cpp:264-314 | Handling one epoll event, up to `Push`, is the protocol's handling step: error events only unregister, a coroutine's event is detached. |
| `FdEvents.SubReactors.ApplyDeferred` | tirpc/net/base/reactor.cpp:318-334 | The end of a loop turn applies exactly the deferred additions, each succeeding or not, then the deferred removals, and empties both lists. |
| `Wakeups.WatchedExactly` | tirpc/net/base/reactor.cpp:148-191 | In every run, a waiting connection is watched for its direction by its reactor's epoll instance exactly if the `epoll_ctl` that began the wait succeeded and no error event has been handled for it since; its descriptor is in `fds_` exactly if it is watched at all. |
| `Wakeups.UnarmedNeverEnds` | tirpc/net/base/reactor.cpp:251-314 | Otherwise the wait never ends: whatever all threads do later, the connection stays open, waiting and unwatched for its direction. |
| `Wakeups.ArmedCanEnd` | tirpc/net/base/reactor.cpp:243-286 | And if so it can: the thread's next poll may report it, and its event is then detached to be queued. |
| `Wakeups.FailedRegistrationStrands` | tirpc/coroutine/coroutine_hook.cpp:79-82 | A run of nine steps after which a connection waits for ever: the hook yields although its registration failed. |
| `Wakeups.ErrorEventStrands` | tirpc/net/base/reactor.cpp:272-278 | Another: an error event unregisters the descriptor and nothing resumes the coroutine. |
| `Wakeups.StepAgrees` | tirpc/net/base/reactor.cpp:148-334 | Every step keeps the program's `fds_`, the kernel's side and the history of the waits in agreement. |
| `TaskQueues.RunAllConserves` | tirpc/net/base/reactor.cpp:400-441 | In every interleaving of locked sections, for each queue, what was taken, in order, followed by what is queued is what was pushed. |
| `TaskQueues.PushedExactly` | tirpc/net/base/reactor.cpp:400-404 | Over any sections, a queue's history grows by exactly the events pushed on it, in order: none lost, none made up. |
| `TaskQueues.CoroutineTaskQueue.Push` | tirpc/net/base/reactor.cpp:400-404 | The queue is the old one with the event last, its history of pushes grows by it, the other queues stay, conservation is kept. |
| `TaskQueues.CoroutineTaskQueue.PopSome` | tirpc/net/base/reactor.cpp:406-418 | Returns the first `pop_cnt` events, or all if fewer, and leaves the others in order. |
| `TaskQueues.CoroutineTaskQueue.Empty` | tirpc/net/base/reactor.cpp:420-423 | True exactly if everything ever pushed on the queue has been taken from it. |
| `TaskQueues.CoroutineTaskQueue.Steal` | tirpc/net/base/reactor.cpp:425-441 | With any sections of other threads in between: takes from queue fronts only, never from its own queue, at most `steal_cnt`, and fewer only if every other queue was empty when it left it; the state is what those visits and sections leave. |
| `TaskQueues.OneMoreVisit` | tirpc/net/base/reactor.cpp:429-439 | A visit to one more queue takes a front part of it, and keeps which earlier queues were left empty. |
| `TimeWheels.WheelRefinesAges` | tirpc/net/tcp/tcp_connection_time_wheel.cpp:24-35 | In every run: a slot is destroyed exactly when no bucket, posted refresh or held pointer refers to it, which is exactly when none is in flight and its last applied refresh is at least n ticks old (or there was none); its callback runs at most once, only on destruction, and has run if the connection still exists then. |
| `TimeWheels.RefreshLastsNTicks` | tirpc/net/tcp/tcp_connection_time_wheel.cpp:24-35 | A refresh applied now keeps the slot alive through the next n-1 ticks; without another it is dead at the n-th. |
| `TimeWheels.ReadKeepsAlive` | tirpc/net/tcp/tcp_server.cpp:122-128 | After the read of a living slot, however the run goes on, its refresh is carried out after those posted before it, the slot alive till then, and it lives through the n-1 ticks that follow, whatever else happens. |
| `TimeWheels.NeverRevived` | tirpc/net/tcp/tcp_connection.cpp:164-169 | Once destroyed, a slot stays destroyed whatever happens, the lock of the weak pointer included. |
| `TimeWheels.StepKeeps` | tirpc/net/tcp/abstract_slot.hpp:16-21 | Every step keeps each use count equal to the number of references, and the callback record right. |
| `TimeWheels.StepRefines` | tirpc/net/tcp/tcp_connection_time_wheel.cpp:24-35 | Every step keeps the newest reference to a slot in the bucket its age names. |
| `TimeWheels.DropAllCounts` | tirpc/net/tcp/abstract_slot.hpp:16-21 | Dropping a bucket, repeated slots included, lowers each count by its entries and calls back exactly the living connections whose last references went. |
| `TimeWheels.TcpTimeWheel.constructor` | tirpc/net/tcp/tcp_connection_time_wheel.cpp:11-16 | As many empty buckets as asked for. |
| `TimeWheels.TcpTimeWheel.LoopFunc` | tirpc/net/tcp/tcp_connection_time_wheel.cpp:24-30 | A tick: the front bucket's references go one after the other, an empty bucket comes in; the invariant holds. |
| `TimeWheels.TcpTimeWheel.Fresh` | tirpc/net/tcp/tcp_connection_time_wheel.cpp:32-35 | One more reference in the back bucket. |
| `TimeWheels.TcpTimeWheel.FreshTcpConnection` | tirpc/net/tcp/tcp_server.cpp:122-128 | The posted refresh holds a reference of its own, so that use counts still equal references and the slot cannot be destroyed before it runs. |
| `TimeWheels.TcpTimeWheel.RegisterToTimeWheel` | tirpc/net/tcp/tcp_connection.cpp:61-66 | The refresh of the new slot is posted last, holding its only reference; nothing else of wheel, held pointers and callbacks changes. |
| `TimeWheels.TcpTimeWheel.RefreshAfterRead` | tirpc/net/tcp/tcp_connection.cpp:164-169 | A read posts a refresh of a living slot last, with one reference more and nothing else changed; for a dead one it does nothing. |
| `ContextSwitch.Cpu.CoctxSwap` | tirpc/coroutine/coctx_swap.s:4-38 | The from-context becomes the caller's registers and return address; the registers become the to-context as after a return; one stack word is written. |
| `ContextSwitch.Cpu.Save` | tirpc/coroutine/coctx_swap.s:5-21 | The stores, instruction by instruction. |
| `ContextSwitch.Cpu.Load` | tirpc/coroutine/coctx_swap.s:23-38 | The loads, the push and the return. |
| `ContextSwitch.SwapKeepsPromise` | tirpc/coroutine/coctx_swap.s:4-38 | Saved and restored, the caller continues at its return address with the stack pointer of a normal return and its callee-saved registers (section 3.2.1 of the System V AMD64 ABI). |
| `ContextSwitch.SwapRestores` | tirpc/coroutine/coctx_swap.s:4-38 | Saved and restored, every register comes back, the argument registers included, but rax, which is zero, and the two pointers, which are as after a return. |
| `ContextSwitch.SwitchWritesOneWord` | tirpc/coroutine/coctx_swap.s:35-36 | The only word of memory a switch writes is the return address, where the stack pointer of the context switched to is. |
| `ContextSwitch.FreshContextEnters` | tirpc/coroutine/coroutine.cpp:85-94 | The first switch enters `CoFunction` with the coroutine as argument on its own stack: the return address is at the highest 16-byte boundary of the block, the frame pointer too. |
| `ContextSwitch.Coroutine.SetCallBack` | tirpc/coroutine/coroutine.cpp:72-98 | Refused exactly on a main coroutine or inside the callback, the context then untouched; otherwise the context is the fresh one. |
| `ContextSwitch.ThreadContext.Resume` | tirpc/coroutine/coroutine.cpp:140-165 | Switches exactly when called from main with another, resumable coroutine; main's context is then saved and the coroutine's loaded; a refusal changes nothing. |
| `ContextSwitch.ThreadContext.Yield` | tirpc/coroutine/coroutine.cpp:123-138 | Switches exactly when not on main; the mirror of `Resume`. |
| `ContextSwitch.ResumeContinues` | tirpc/coroutine/coroutine.cpp:140-165 | In every run over any threads and coroutines, a resumed coroutine continues with everything its own last `Yield` may rely on, and a prepared one enters `CoFunction` with itself, on its own stack. |
| `ContextSwitch.YieldReturns` | tirpc/coroutine/coroutine.cpp:123-138 | In every run, after a yield main continues with everything its `Resume` may rely on. |
| `ContextSwitch.StrictAlternation` | tirpc/coroutine/coroutine.cpp:123-165 | On each thread resumes and yields alternate, each yield by the coroutine resumed; no coroutine runs on two threads. |
| `ContextSwitch.SetCallBackSparesSuspended` | tirpc/coroutine/coroutine.cpp:78-81 | In every run `SetCallBack` leaves a coroutine suspended inside its callback exactly as it is. |
| `ContextSwitch.StepKeeps` | tirpc/coroutine/coroutine.cpp:30-165 | Every step, arbitrary computation between switches included, keeps the invariant behind these. |
| `CoroutinePools.Memory.GetBlock` | tirpc/coroutine/memory.cpp:46-62 | Takes the first free block, hands out its address and counts it; none, and no change, exactly when all are used. |
| `CoroutinePools.Memory.BackBlock` | tirpc/coroutine/memory.cpp:64-76 | Frees the block an address lies in; addresses outside are refused. |
| `CoroutinePools.Memory.HasBlock` | tirpc/coroutine/memory.cpp:78 | Tells whether the address lies in the region. |
| `CoroutinePools.FreedExactly` | tirpc/coroutine/memory.cpp:64-76 | The division inverts the multiplication of `GetBlock`: returning block t frees block t, and the reference count stays the number of used blocks exactly if it was in use. |
| `CoroutinePools.AllotThenFree` | tirpc/coroutine/memory.cpp:46-76 | Getting a block and returning it leaves everything as it was. |
| `CoroutinePools.PoolIsSafe` | tirpc/coroutine/coroutine_pool.cpp:44-83 | Over all sequences of getting and single returning: live coroutines have disjoint stacks, reference counts are right, and a get never yields a live coroutine nor a pooled one inside its callback. |
| `CoroutinePools.LiveStacksDisjoint` | tirpc/coroutine/coroutine_pool.cpp:44-83 | Any two live coroutines, pooled or not, have stacks that do not overlap. |
| `CoroutinePools.ReturnFreesOneBlock` | tirpc/coroutine/coroutine_pool.cpp:72-83 | A return frees exactly the block handed out, in exactly one region. |
| `CoroutinePools.GetKeeps` | tirpc/coroutine/coroutine_pool.cpp:51-70 | Getting keeps the invariant on each of its three paths and yields something new. |
| `CoroutinePools.GetPrefersPooled` | tirpc/coroutine/coroutine_pool.cpp:52-59 | A get yields the first pooled coroutine that is neither taken nor in its callback, if there is one. |
| `CoroutinePools.GetThenTakesBlock` | tirpc/coroutine/coroutine_pool.cpp:61-67 | With none, the first free block of the first further region that has one. |
| `CoroutinePools.GetThenGrows` | tirpc/coroutine/coroutine_pool.cpp:68-69 | With none of these, the first block of a new region of as many blocks as the pool has coroutines. |
| `CoroutinePools.StepKeeps` | tirpc/coroutine/coroutine_pool.cpp:44-83 | Getting, returning and a coroutine's own flag changes keep the invariant. |
| `CoroutinePools.FreshInv` | tirpc/coroutine/coroutine_pool.cpp:26-40 | The constructed pool has it. |
| `CoroutinePools.CoroutinePool.GetCoroutineInstanse` | tirpc/coroutine/coroutine_pool.cpp:44-70 | The first usable pooled coroutine, else the first free block of a further region, else the first block of a new one; always a stack. |
| `CoroutinePools.CoroutinePool.ReturnCoroutine` | tirpc/coroutine/coroutine_pool.cpp:72-83 | Clears the flag of a pooled coroutine, or frees the block in every further region that has it. |
| `ConsistentHash.BuildRing` | tirpc/net/tcp/load_balance.hpp:81-98 | Reads past a digest exactly if one of those it reads is shorter than sixteen bytes; otherwise the ring maps exactly the virtual points of the listed addresses, each to the last address of the list that has it. |
| `ConsistentHash.DecimalIs` | tirpc/net/tcp/load_balance.hpp:88 | The suffix of a group is its number in decimal: digits only, that number by place values, no leading zero. |
| `ConsistentHash.GroupsHashApart` | tirpc/net/tcp/load_balance.hpp:86-88 | So the groups of an address hash pairwise different strings. |
| `ConsistentHash.MinimalDisruption` | tirpc/net/tcp/load_balance.hpp:81-125 | For any list whose own digests are full, address x and key: if the ring does not send the key to x, the ring rebuilt without x sends it to the same address, collisions included; so adding x only moves keys to x. |
| `ConsistentHash.SelectForKey` | tirpc/net/tcp/load_balance.hpp:119-125 | The address at the least point not below the key, or at the least point of all. |
| `ConsistentHash.OwnerIsListed` | tirpc/net/tcp/load_balance.hpp:119-125 | Only addresses of the list are ever selected. |
| `ConsistentHash.RingIsNotEmpty` | tirpc/net/tcp/load_balance.hpp:84-97 | There is something to select exactly when there are an address and a group of points. |
| `ConsistentHash.ConsistentHashStrategy.Select` | tirpc/net/tcp/load_balance.hpp:57-76 | Cached or not, the choice is that of the ring of the current list for the hash of method and payload; throws exactly on a name without a dot, and reads past a digest exactly if the list's or the key's is too short. |
| `ConsistentHash.OnlySmallHashesHit` | tirpc/net/tcp/load_balance.hpp:81 | Some stored identity can match a list's hash exactly if the hash survives being narrowed to `int` and widened again: below 2^31, or at least 2^64 - 2^31. |
| `Md5.MD5.CalculateBlock` | tirpc/common/md5.cpp:32-74 | The unrolled rounds with rotated arguments compute the plain 64-step loop with rotated registers (section 3.4 of RFC 1321). |
| `Md5.FourSteps` | tirpc/common/md5.hpp:21-44 | Four steps in place are four steps with rotation, whatever the mixing function. |
| `Md5.FBitByBit` | tirpc/common/md5.hpp:21 | In every bit, F is y where x is one and z elsewhere. |
| `Md5.GBitByBit` | tirpc/common/md5.hpp:22 | In every bit, G is x where z is one and y elsewhere. |
| `Md5.HBitByBit` | tirpc/common/md5.hpp:23 | In every bit, H is the parity. |
| `Md5.IBitByBit` | tirpc/common/md5.hpp:24 | In every bit, I is y turned over where x is one or z is zero. |
| `Md5KnownAnswer.SampleState` | tirpc/common/md5.cpp:5-74 | Through all 64 steps, with all the tables: the state for "127.0.0.1:399991" is the four words of its digest by RFC 1321. |
| `Md5KnownAnswer.SampleDigest` | tirpc/common/md5.cpp:105-137 | The program's digest of it is those bytes without the zero byte at the end of the second word. |
| `Md5KnownAnswer.RingReadsPastDigest` | tirpc/net/tcp/load_balance.hpp:86-94 | So the ring of the address 127.0.0.1:39999 reads past a digest. |
| `Md5.MD5.Padding` | tirpc/common/md5.cpp:82-97 | The loops append exactly the fill and the length in eight bytes. |
| `Md5.PaddedIsWhole` | tirpc/common/md5.cpp:82-103 | The padded size is a multiple of 64, so `compute` stops exactly at the end. |
| `Md5.PaddingDeviates` | tirpc/common/md5.cpp:86-90 | The padding is that of section 3.1 of RFC 1321 exactly when the length is not 56 modulo 64. |
| `Md5.PaddingIsInjective` | tirpc/common/md5.cpp:82-97 | Even so, no two messages below 2^28 bytes are padded alike. |
| `Md5.MD5.Compute` | tirpc/common/md5.cpp:99-103 | The chaining value runs through all blocks, each once, in order. |
| `Md5.MD5.GenDigest` | tirpc/common/md5.cpp:105-117 | The bytes of the four words, least significant first, each up to its last non-zero one. |
| `Md5.DigestIsFull` | tirpc/common/md5.cpp:105-117 | Sixteen bytes exactly when every word is at least 2^24, never more. |
| `Md5.RingReadsWords` | tirpc/net/tcp/load_balance.hpp:103-107 | From a full digest the ring's hash of group h gives back state word h. |
| `Md5.RingIsReadableExactly` | tirpc/net/tcp/load_balance.hpp:84-97 | With the program's own digest, the ring of a list can be built without reading past a digest exactly if every word hashed for its addresses is at least 2^24. |
| `Md5.MinimalDisruptionOfMd5` | tirpc/net/tcp/load_balance.hpp:81-125 | For such a list, minimal disruption holds of the rings built with that digest, and the smaller ring can be built too. |
| `Md5.MD5.Digest` | tirpc/common/md5.cpp:131-137 | A digest depends on its input only: the object's earlier use leaves no trace. |
| `RetryLoop.RpcChannel.CallLoop` | tirpc/net/rpc/rpc_channel.cpp:75-133 | For any outcomes and any choices from the list: at most max_retry+1 attempts, every attempt but the last failed, a success or timeout ends the loop, the list stays a subsequence of the original, and each way of ending has its exact cause. |
| `RetryLoop.NoRepeatInARound` | tirpc/net/rpc/rpc_channel.cpp:76-121 | With distinct addresses, one that failed is not tried again before a refill. |
| `RetryLoop.RoundCoversAll` | tirpc/net/rpc/rpc_channel.cpp:76-121 | A refill comes only after every address of the round was tried and failed. |
| `RetryLoop.ErasedIsSubsequence` | tirpc/net/rpc/rpc_channel.cpp:112-121 | Erasing an address keeps the list a subsequence of the original. |
| `Timers.FiringIsExact` | tirpc/net/base/timer.cpp:128-158 | `OnTimer` takes exactly the maximal front run of expired, uncancelled events, each once, in deadline order, none early; one-shot ones are gone, repeated ones pending at the clock's reading plus their interval, all others untouched. |
| `Timers.RunsIffNothingInFront` | tirpc/net/base/timer.cpp:134-143 | An event runs exactly if it and everything before it is due: a cancelled one in front holds it up. |
| `Timers.KeysAreDeadlines` | tirpc/net/base/timer.cpp:44-158 | In every run from an empty timer, arbitrary deletions included: entries stand in deadline order, every key is its event's deadline, and no event is pending twice. |
| `Timers.OneShotStaysDone` | tirpc/net/base/timer.cpp:128-158 | In every run, an event that is no longer pending never runs again unless added again. |
| `Timers.DeletePending` | tirpc/net/base/timer.cpp:64-82 | Deleting a pending event removes that event and nothing else. |
| `Timers.DeleteNotPending` | tirpc/net/base/timer.cpp:64-82 | Deleting one that is not pending leaves the others alone exactly if none has a later deadline. |
| `Timers.DeleteCanEraseAnother` | tirpc/net/base/timer.cpp:77-79 | The harm at the end of a run: two events are added, the first fires and is deleted afterwards, which erases the second. |
| `Timers.Timer.AddTimerEvent` | tirpc/net/base/timer.cpp:44-62 | Inserted behind every entry with the same or an earlier deadline. |
| `Timers.Timer.DelTimerEvent` | tirpc/net/base/timer.cpp:64-82 | Cancels the event and erases where the search among equal deadlines stops, even past them. |
| `Timers.Timer.OnTimer` | tirpc/net/base/timer.cpp:119-158 | The collected tasks are those of the front run, in order; the state is that of the firing above. |
| `Timers.Timer.Reschedule` | tirpc/net/base/timer.cpp:148-152 | The repeated events are reset and added again one after the other, each by its own clock reading. |
| `HttpHeader.RoundTrip` | tirpc/net/http/http_define.cpp:47-53 | Splitting the printed header gives the map back exactly when every key is non-empty and free of colon, CR, LF and NUL, and every value free of CR and LF. |
| `HttpHeader.FreeRoundTrip` | tirpc/common/util.cpp:18-63 | For fields free of those characters the round trip loses exactly the entry with the empty key. |
| `HttpHeader.SplitsWhatWasJoined` | tirpc/common/util.cpp:41-63 | A text that does not end in the separator is split into all its pieces, the last included: splitting gives back what was joined, for any non-empty pieces free of the separator's characters, unless the text is shorter than the separator, when it throws. |
| `HttpHeader.FirstLine` | tirpc/net/http/http_define.cpp:49-51 | A line is key, colon, value, carriage return, line feed. |
| `HttpHeader.ResultIsFree` | tirpc/common/util.cpp:18-63 | Whatever the text, only such fields can come out. |
| `HttpHeader.LengthIsPrinted` | tirpc/net/http/http_define.cpp:39-53 | The announced header length is the printed length. |
| `HttpHeader.SplitStrToVector` | tirpc/common/util.cpp:41-63 | The shrinking loop ends on every text and gives the pieces of the recursive splitting, or throws where `substr` does. |
| `HttpHeader.SplitStrToMap` | tirpc/common/util.cpp:18-39 | The pieces with a joiner, not first, enter the map in order. |
| `HttpHeader.ToHttpString` | tirpc/net/http/http_define.cpp:47-53 | One line per entry, in the map's order. |
| `HttpHeader.GetHeaderTotalLength` | tirpc/net/http/http_define.cpp:39-43 | The sum is the length of what `ToHttpString` prints. |
| `MsgNumber.MsgReqUtil.GenMsgNumber` | tirpc/common/msg_req.cpp:23-57 | A seed's digits on seeding, the empty string on a short read; otherwise, read as a decimal, exactly one more, of the same length, all digits. |
| `MsgNumber.MsgReqUtil.Increment` | tirpc/common/msg_req.cpp:44-53 | The carry loop adds one: it always finds a digit that is not nine. |
| `MsgNumber.MsgReqUtil.Seed` | tirpc/common/msg_req.cpp:35-41 | One digit per random byte, and a maximum of as many nines. |
| `MsgNumber.CarryAddsOne` | tirpc/common/msg_req.cpp:48-52 | Raising a digit and zeroing the nines behind it adds one to the number. |
| `MsgNumber.NumbersAreDistinct` | tirpc/common/msg_req.cpp:23-57 | All numbers between two seedings have one length, increase, and differ pairwise. |
| `MsgNumber.RunIsBounded` | tirpc/common/msg_req.cpp:26 | A stretch between two seedings ends with all nines exactly when the values of its length are used up, and cannot go further. |

## Left out

- Integer widths of indices: buffer sizes, packet positions and addresses are unbounded integers; the signed overflow of `i + pk_len` on hostile lengths and of sizes near 2^31 is not modelled, and `WriteToBuffer`'s multiplication by 1.5 in double is exact integer arithmetic here.
- Packets of 2^31 bytes or more, whose length field would wrap, are excluded from encoding.
- TcpConnections.TcpConnection.Output: a socket's error is the result -1; the over-time flag and the state tests are where its list of results ends, and those of `Input` are not modelled.
- RpcDispatchers.RpcDispatcher.Dispatch: services are functions from request bytes to an outcome; controllers, closures, logging and the coroutine's runtime record are not modelled; type names and payloads are bounded so that packets stay below 2^31 bytes.
- TcpConnections.TcpConnection.Execute: numbers for requests without one come in as a parameter, as do all uses of the generator; the HTTP codec in the same loop is not modelled.
- Reassembly.DeliversAPrefix: for messages that survive the round trip, and with the proviso that `Reassembly.SessionExactly` shows to be exact; resynchronising after foreign bytes is not claimed.
- ReactorProtocol.OwnershipInEveryRun: for connections that wait only in `recv_hook` and `send_hook`; the main reactor, timer events, plain callbacks, the accept, connect, read, write and sleep hooks and a client's nested waits are left out. `Place` records who answers for a connection and no step depends on it. `pending_add_fds_` keeps the order of insertion instead of sorting by descriptor; it is always empty in these runs.
- Wakeups.UnarmedNeverEnds: the kernel reports only descriptors it watches, and readiness only in a direction watched for; removing a descriptor always succeeds.
- TaskQueues.CoroutineTaskQueue.Steal: the other threads' sections before each lock are an arbitrary list; fairness and the lock itself are not modelled.
- TimeWheels.WheelRefinesAges: what the shutdown callback does to the socket, the state test inside it, and the timer that drives the ticks are not modelled; the wheel has at least one bucket.
- ContextSwitch.ResumeContinues: saved contexts are objects apart from the stacks, registers and addresses are mathematical integers, a callback does not throw, and the caller does not resume a finished or running coroutine; the first switch writes the word at the end of the block, so confinement of stack writes to the block is not claimed.
- CoroutinePools.PoolIsSafe: disjointness of malloc's regions is an assumption of the get step; `ReturnCoroutine` takes no lock in the code, so races with it are left out and each operation is one step; pool size at least one.
- ConsistentHash.MinimalDisruption: nothing is claimed of a ring built from a digest shorter than what is read of it, whose bytes come from beyond the vector; the string form of an address stands for the address.
- ConsistentHash.ConsistentHashStrategy.Select: `std::hash` is an arbitrary function, and a stored selector whose identity matches is assumed to have been built for an equal list; the random and round-robin strategies are left out as easy.
- Md5.MD5.CalculateBlock: the tables of shifts and word indices are given by their formulas per round, and the machine is little-endian, as the pointer cast in the code supposes; the hexadecimal result string is left out.
- Md5.MD5.Padding: inputs of 2^28 bytes or more, whose bit count overflows an int, are excluded.
- RetryLoop.RpcChannel.CallLoop: time limits inside one exchange, the request's encoding and everything after the loop are left out.
- Timers.Timer.OnTimer: arming of the timer descriptor is left out (the code arms to the last event, so no claim about timeliness is made); the collected tasks run after the lock is released, so timer calls they make are later operations.
- HttpHeader.RoundTrip: headers are sequences of entries with distinct keys, in whatever order the map iterates; request and response start lines and the HTTP decoder are left out.
- MsgNumber.MsgReqUtil.GenMsgNumber: one thread's generator; opening the random device is left out.
- CoroutineMutex and ThreadPool: their mutual-exclusion and exactly-once claims are false of the code, and no part above uses them.
- Configuration, logging, ZooKeeper and MySQL plugins, the code generator and the tools are input and output around the parts above.
