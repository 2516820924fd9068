# Verified models of an event-driven socket framework

The system is a C++ framework for event-driven servers: an epoll selector with a timer wheel, worker threads with
task queues, TCP connections over growable buffers, a logger with a lock-free ring, futures, and a set of codecs. This
project models its algorithms in Dafny and proves what each of them keeps over whole runs, for all inputs.

`dafny verify dfyconfig.toml` checks everything. One module per component:

| file | component |
|---|---|
| Countdown.dfy, Selector.dfy | the hierarchical timer wheel, and the selector that clicks it and calls expired handlers |
| LogChunks.dfy, LogRing.dfy, LogSystem.dfy, LogDrain.dfy, LogHistory.dfy | the log ring: chunk memory, slot protocol, both together with any number of producers and one consumer, the consumer's progress, and the output against the calls that wrote it |
| WorkerQueue.dfy, WorkerHistory.dfy | a worker's task queue and its wake-up pipe, and the tasks run against the calls that brought them |
| ConnectionIds.dfy | connection ids and their routing to workers |
| ByteBuffer.dfy, TcpOutput.dfy | the growable buffer, and a TCP connection's output path with its epoll interest |
| SyncFuture.dfy, SyncFutureCount.dfy, SyncFutureValues.dfy | the count-down latch of `SyncFuture`, exactly which runs count right, and the results against the calls that gave them |
| Wire.dfy, Thrift.dfy, ThriftCuts.dfy, ThriftLeaves.dfy, ThriftMessage.dfy, ThriftOldHeader.dfy | byte order, `thrift::skip` on whole and cut-off values, structs of scalars and strings, and message framing with the strict and the old header |
| Packet.dfy, PacketBytes.dfy | the `Pack`/`Unpack` container codec, and its wire form byte by byte |
| Md5.dfy, Url.dfy, UrlParts.dfy, Base64.dfy | incremental MD5, URL printing and parsing, what the parser makes of any text, base64 |
| Util.dfy | shared helpers |

Objects whose methods update fields are classes whose contracts tie the new state to the old one (`Countdown`,
`Selector`, `Manager`, `ByteBuffer`, `TcpConnection`, `Deserializer`, `Serializer`, `MD5`, `UrlParser`). Protocols shared
by threads (log ring, worker queue, latch, all managers together) are state machines: a `Step` datatype, `Can` and `Do`,
an invariant that every step keeps, and theorems about every reachable state; what goes in and comes out is compared with histories read off the steps of a run. Loops that only compute a value are methods
proved equal to a function, and the theorems are about that function.

## What the code does not do

These properties fail in the code as it is. For each the exact condition under which it holds is proved, with a failing
case beside it.

- `thrift::skip` refuses a complete list or set of voids, because it takes a nested `0` for a failure; it does step over
  such a list inside another value, because it does not take a nested `-1` for one (`Thrift.VoidElementRefused`).
  `Thrift.SkipTakesValue` and `Thrift.SkipReturnsLength` are the exact conditions.
- For the same reason cut-off values can be accepted: a list cut behind its header (`ThriftCuts.ListCutMissed`), a struct
  cut inside a scalar that starts with a zero byte (`ThriftCuts.ScalarCutMissed`) or inside the length of a string
  (`ThriftCuts.StringCutMissed`). For scalars, strings, lists and maps `ThriftCuts.CutNoticed` is the exact condition;
  for structs it is a reduction to the fields one by one. For structs of scalars and strings below 16 MB
  `ThriftLeaves.LeavesCut` is the exact condition on the bytes: every field is a scalar and none is misread, that is,
  starts with a zero byte or, for eight bytes, holds a type and a zero where the loop looks for them. A truncated message
  is then reported whole with a wrong body length (`ThriftMessage.TruncatedReadWhole`);
  `ThriftMessage.LeafTruncationNoticed` carries the condition over.
- `read_message_begin` is to report incomplete data, and throws instead exactly when an old header is cut off inside the
  name (`ThriftOldHeader.PartOfOldHeader`).
- A number of workers that is not a power of two stops routing ids home once a seed wraps
  (`ConnectionIds.WrapRoutesAstray`), and two workers can then use one id (`ConnectionIds.WrapCollides`, a run from the
  start); `ConnectionIds.RoutedHomeIff` is the exact condition for any number of turns and wraps.
- `TcpConnection::send` loses bytes from its accounting if the buffer's limit strikes after the kernel took part of the
  data, or if a size of 2^31 or more is not taken whole (`TcpOutput.BytesLost`). The contract of
  `TcpOutput.TcpConnection.Send` states, in terms of the state before the call, when the limit strikes and when the
  invariant survives.
- `Condition::notify` is `pthread_cond_signal`: with two waiters in `SyncFuture::get` one can sleep on
  (`SyncFuture.TwoWaitersBlock`); `SyncFuture.SignalReachesAll` is the exact condition.
- Two threads that complete one promise at once lower the count twice. `SyncFutureCount.CountedOnceIff` is the exact
  condition, over all runs from the start: the count is right whenever nobody is about to lower it iff at no point two
  threads had found the flag of one promise clear and not yet set it. `SyncFuture.OverlapLowersTwice` and
  `SyncFuture.OverlapReturnsEarly` are failing cases.
- The flag that should keep `MD5::digest` from computing again is cleared by the updates inside `final`, so that a second
  call digests what the padding left in the buffer. `Md5.SecondDigest` is the exact condition for both calls to agree
  whatever the block function. `Md5.DigestTwice` is an object whose two digests differ, with a stand-in for the rounds of
  `transform`, which are not modelled.
- From 3 * 2^29 bytes on base64 does not bring the data back: the decoder's position is an `int`, and beyond 2^32 bytes
  the encoder cuts the length (`Base64.TooLongToDecode`, `Base64.EncodeKeepsData`).
- `compact(0)` of an empty buffer that has grown leaves a capacity of zero (`ByteBuffers.CompactedAway`), of a fresh one
  it does not; the contract of `ByteBuffers.ByteBuffer.Compact` is the exact condition.
- A handler destroyed by a callback after `stop()` is still called later in the same batch
  (`SelectorTimers.DestroyedButCalled`); `SelectorTimers.CalledAfterDestroy` is the exact condition.
- Packing can fail without any string that is too long, because the buffer holds at most 64 MB
  (`Packet.LimitWithoutStrings`); `Packet.PackSucceeds` is the exact condition.

## Model

| member | source | states |
|---|---|---|
| `TimerWheel.Countdown.constructor` | core/countdown.cpp:122-139 | the fall table 0, 5, 10, .., 10240 is a well-formed wheel with no timer |
| `TimerWheel.Countdown.FindFallIdx` | core/countdown.h:91-104 | the highest list at or below `rbegin` whose threshold the timeout reaches; all higher ones are above it |
| `TimerWheel.Countdown.SelectTimeout` | core/countdown.cpp:25-55 | on the flat map: sets or removes exactly this handler's remaining time; every handler stays in at most one list, with back pointer and `fallidx` naming it |
| `TimerWheel.Countdown.Register` | core/countdown.cpp:38-53 | the registering half: first registration, move to another list, or new count in the same list |
| `TimerWheel.Countdown.ClickElapse` | core/countdown.cpp:69-120 | fires exactly the handlers with at most `elapsed` to go, each once, and lowers every other remaining time by exactly `elapsed` |
| `TimerWheel.Countdown.ClickFalls` | core/countdown.cpp:73-119 | the bottom list expires whole and the other lists settle in turn, with the refinement of the flat map kept between lists |
| `TimerWheel.Countdown.SettleFall` | core/countdown.cpp:88-118 | one list accumulates or settles: its due nodes expire, the others stay or cascade, and nodes of other lists keep their time |
| `TimerWheel.Countdown.SettleNode` | core/countdown.cpp:96-116 | one node expires, stays, or goes to a lower list with that list's counter added back |
| `TimerWheel.Countdown.NextTimeout` | core/countdown.cpp:57-67 | exactly the remaining time of some registered timer, and 1000000 when there is none; the clamp to zero is never taken |
| `TimerWheel.RegisterOne` | core/countdown.cpp:38-53 | a node with the list's counter added stands for exactly the timeout asked for |
| `TimerWheel.CancelOne` | core/countdown.cpp:28-36 | unlinking a node removes exactly that timer |
| `TimerWheel.ClickBottom` | core/countdown.cpp:73-84 | every timer of the bottom list has less than one click to go, so expiring them all is right |
| `TimerWheel.ClickStep` | core/countdown.cpp:86-119 | settling one more list extends the part of the click that is done |
| `TimerWheel.ClickDone` | core/countdown.cpp:69-120 | after the last list the wheel stands for the elapsed map and the fired handlers are the expired ones |
| `SelectorTimers.TimerInRun` | core/selector.h:80-95 | over any run of ticks, sets, cancels and destructions, an untouched timer is gone iff some click reached it, and otherwise is down by exactly the time clicked |
| `SelectorTimers.FiresAtFirstReachingClick` | core/selector.h:80-95 | a timer neither reset nor cancelled fires in a click iff it is the first whose accumulated time reaches its timeout |
| `SelectorTimers.FiresOnce` | core/selector.h:80-95 | it fires at most once in any run |
| `SelectorTimers.FiresNotEarly` | core/selector.h:82-88 | never more than TIME_CLICK - 1 ms before its time |
| `SelectorTimers.FiresInTime` | core/selector.h:82-88 | it has fired once TIME_CLICK - 1 ms more than its timeout were ticked, a timeout of zero counting as one |
| `SelectorTimers.NotCalledOnceRemoved` | core/selector.cpp:126-132 | a handler in the removed set is not called in the rest of the batch |
| `SelectorTimers.CalledAfterDestroy` | core/selector.h:70-73 | in any batch, a handler that a callback destroys is called later iff the loop was stopped by then, it is still to come, and it was not recorded before |
| `SelectorTimers.DestroyedButCalled` | core/selector.cpp:126-132 | a batch in which `stop()` and then a destruction leave the destroyed handler to be called, and the same without `stop()` |
| `SelectorTimers.CalledUnlessDestroyed` | core/selector.cpp:126-132 | over any batch, a handler that no callback destroys is called iff it was in the batch and not recorded before |
| `SelectorTimers.CalledInOrder` | core/selector.h:91-94 | the handlers are called in the order of the batch, each at most as often as it is in it |
| `SelectorTimers.Selector.constructor` | core/selector.cpp:66-73 | no timers, nothing recorded, not running |
| `SelectorTimers.Selector.Start` | core/selector.cpp:94-97 | the loop runs |
| `SelectorTimers.Selector.LoopOnce` | core/selector_epoll.cpp:91-142 | timers first, then the reported sockets, with the removed set and the running flag as the timers' callbacks left them; the set is empty afterwards |
| `SelectorTimers.Selector.TimeoutRun` | core/selector.h:80-95 | fires iff the accumulated time makes a click, calls what `Called` says, and timers, removed set and running flag end as the click followed by the callbacks' own operations |
| `SelectorTimers.Selector.Dispatch` | core/selector.h:91-94 | the loop over a batch calls and performs exactly that sequence, also when a callback stops the loop |
| `SelectorTimers.Selector.Perform` | core/selector.h:59-73 | a callback's sets, cancels, destructions and stops change timers, removed set and running flag accordingly |
| `SelectorTimers.Selector.PerformOne` | core/handler.cpp:5-17 | a destroyed handler loses its timer, and is recorded only while the loop runs |
| `LogChunks.LevelFor` | log/src/logging.cpp:567-591 | the chunk obtained for n bytes has room for n bytes |
| `LogChunks.BeginWf` | log/src/logging.cpp:480-487 | the first `produce` of a line gives it one chunk holding its bytes; no other line changes |
| `LogChunks.AppendWf` | log/src/logging.cpp:486-496 | a further `produce` fills the tail and links one more chunk for the rest; chains stay disjoint and read as their lines |
| `LogChunks.AppendText` | log/src/logging.cpp:486-496 | the line then reads as before followed by the new bytes |
| `LogChunks.DropWf` | log/src/logging.cpp:452-457 | releasing the first chunk takes exactly its bytes off the line and returns the chunk clean |
| `LogChunks.OneChainPerChunk` | log/src/logging.cpp:328-343 | no chunk is in two chains |
| `LogRing.RingStep` | log/src/logging.cpp:429-528 | every atomic step of producers and consumer keeps the ring invariant: outstanding tickets plus reservations never exceed LOG_LIST_MAX_SIZE - 1, each ticket is in one place |
| `LogRing.PublishFindsSlotEmpty` | log/src/logging.cpp:516-525 | the CAS of `finish` never finds its slot occupied |
| `LogRing.FetchFindsNext` | log/src/logging.cpp:434-441 | a filled slot at the consumer's position holds the next ticket in order |
| `LogRing.WrapKeepsSlot` | log/src/logging.cpp:516-516 | 32-bit wrap of a position does not change its slot |
| `LogRing.CounterBounded` | log/src/logging.cpp:503-508 | the reservation counter is never negative and below the ring size plus the number of threads |
| `LogRing.ReservesIff` | log/src/logging.cpp:503-508 | `finish` is let in exactly while tickets not yet consumed, other threads inside or trying, and a count about to be given back leave a slot free |
| `LogSystem.StepKeepsInv` | log/src/logging.cpp:429-528 | every step of every thread keeps the invariant of ring, chunk memory, thread-local pointers and byte stream together |
| `LogSystem.RunKeepsInv` | log/src/logging.cpp:429-528 | so does every interleaving |
| `LogSystem.FinishAlwaysPublishes` | log/src/logging.cpp:516-527 | in every reachable state `finish` publishes; the failing branch is dead |
| `LogSystem.StreamConserved` | log/src/logging.cpp:429-467 | bytes returned, then those of the present call, then those stored for queued tickets, are the ticketed lines in ticket order, each once, also with the partial return; what these lines are says `LogHistory.LoggedAsWritten` |
| `LogSystem.DrainedOutput` | log/src/logging.cpp:429-467 | once all tickets are consumed the output is the log |
| `LogSystem.ChunkInOneChain` | log/src/logging.cpp:370-388 | in every reachable state a chunk is in one chain only |
| `LogSystem.ConsumerMovesOn` | log/src/logging.cpp:445-458 | inside a chain the consumer can go on, and a call that starts with the sink thread's buffer removes at least one chunk |
| `LogSystem.ProducerMovesOn` | log/src/logging.cpp:470-528 | a producer can always log and always has a next step inside `finish` |
| `LogSystem.QueueSizeIsInt` | log/src/logging.cpp:503-508 | the counter stays within an `int` |
| `LogHistory.LoggedAsWritten` | log/src/logging.cpp:470-528 | in every run from the start, the line behind ticket i+1 is the concatenation of what the `produce` calls of the thread that took it were given since its last publication, in order, whole up to 16 MB each and their first 16 MB above that; the history is read off the steps alone |
| `LogHistory.StreamIsWritten` | log/src/logging.cpp:429-467 | so bytes returned, then those of the present call, then those stored for queued tickets, are what the threads wrote, in ticket order |
| `LogHistory.DrainsWhatWasWritten` | log/src/logging.cpp:429-467 | and whenever no producer is inside `finish`, the consumer alone gets to return exactly what was written for all tickets |
| `LogHistory.StaysInBuffer` | log/src/logging.cpp:445-451 | in every run `consume` stays inside the buffer it was given, and gives up inside a chain exactly when the next chunk does not fit |
| `LogDrain.ConsumerCatchesUp` | log/src/logging.cpp:429-467 | whenever no producer is inside `finish`, the consumer's steps alone lead to every ticket consumed and exactly the log returned |
| `LogDrain.LogDrains` | log/src/logging.cpp:429-467 | so from every reachable state of that kind |
| `LogDrain.NextIsThere` | log/src/logging.cpp:434-441 | then the slot at the consumer's position is filled iff a ticket is outstanding |
| `WorkerQueue.StepKeepsInv` | core/queue.h:85-121 | every step of producers and worker keeps lock, wake-up, order and bound |
| `WorkerQueue.WakeupNeverLost` | core/queue.cpp:75-117 | in every interleaving a non-empty queue means a byte in the pipe, a worker between draining and `get`, or a producer about to write the byte |
| `WorkerQueue.RunInPushOrder` | core/worker.cpp:55-81 | what was run is a prefix of what was accepted; the queue exceeds its limit by at most the number of threads |
| `WorkerQueue.WorkerCatchesUp` | core/worker.cpp:55-100 | from any reachable state outside `push` the worker alone gets to run every accepted task and sleep with an empty queue |
| `WorkerHistory.AdmittedIff` | core/worker.cpp:83-98 | `addTask` admits a task iff the queue is within its limit, and otherwise changes nothing |
| `WorkerHistory.AcceptedAsPushed` | core/queue.h:85-96 | in every run from the start, what the queue accepted is the sequence of the tasks of the pushes, each the one its thread last came with, and every task run is a step of the worker's; the history is read off the steps |
| `WorkerHistory.AdmittedArePushed` | core/worker.cpp:83-100 | each thread pushes exactly the tasks with which it was admitted, in that order, the last of them possibly still in its hands |
| `WorkerHistory.EveryTaskRuns` | core/worker.cpp:55-100 | so whenever no thread is inside `addTask` the worker alone gets to have run exactly the tasks pushed, in push order, and every admitted task was pushed |
| `ConnectionIds.AdvanceKeepsRoute` | core/manager.cpp:33-38 | a turn of the seed keeps its worker iff it does not wrap or the step divides 2^32 |
| `ConnectionIds.DividesWord` | core/framework.cpp:38-47 | among the possible worker counts exactly the powers of two divide 2^32 |
| `ConnectionIds.ComesUp` | core/manager.cpp:31-39 | every non-zero id of the seed's class modulo the power-of-two part of the step comes up as a candidate |
| `ConnectionIds.Manager.constructor` | core/manager.h:16-17 | the seed starts in the worker's residue class |
| `ConnectionIds.Manager.GetConnectionId` | core/manager.cpp:27-41 | ends while a free id remains, with the first free candidate: non-zero and not in use |
| `ConnectionIds.Manager.AddConnection` | core/manager.cpp:43-59 | refuses exactly an id held by another connection |
| `ConnectionIds.Manager.RemoveConnection` | core/manager.cpp:61-71 | frees exactly that id |
| `ConnectionIds.RunKeepsRoutes` | core/scheduler.cpp:63-89 | over any run of all workers, seeds and ids stay in their worker's class while the step divides 2^32 or no seed wraps |
| `ConnectionIds.IdsRouteHome` | core/scheduler.cpp:79-79 | every id in use is non-zero, is routed by `schedule` back to its worker, and is in use at no other worker |
| `ConnectionIds.RoutedHomeIff` | core/manager.cpp:31-39 | for any number of workers and turns, the id handed out is routed home iff the number of wraps times 2^32 is divisible by the number of workers |
| `ConnectionIds.WrapRoutesAstray` | core/scheduler.cpp:79-79 | so the first wrap breaks it for every number of workers that is not a power of two |
| `ConnectionIds.WrapCollides` | core/manager.cpp:27-41 | a run of three workers from the start after which two of them use the same id |
| `ByteBuffers.Blocked` | utils/bytebuffer.h:299-299 | the next multiple of 4096, less than one block more |
| `ByteBuffers.ByteBuffer.Erase` | utils/bytebuffer.h:113-132 | removes exactly the first min(size, sz) bytes |
| `ByteBuffers.ByteBuffer.EraseAll` | utils/bytebuffer.h:115-119 | empties the buffer |
| `ByteBuffers.ByteBuffer.SetLimit` | utils/bytebuffer.h:78-82 | a limit never falls below the size |
| `ByteBuffers.ByteBuffer.AllocSize` | utils/bytebuffer.h:300-316 | throws iff over the limit; otherwise enough room in whole blocks, and a power of two under the limit if capacities have only been doubled |
| `ByteBuffers.ByteBuffer.Doubled` | utils/bytebuffer.h:309-309 | the doubling loop ends, with less than twice the size asked for |
| `ByteBuffers.ByteBuffer.Recycle` | utils/bytebuffer.h:320-327 | closing the hole keeps the contents |
| `ByteBuffers.ByteBuffer.Alloc` | utils/bytebuffer.h:329-354 | contents kept; room for n bytes, or an exception exactly when hole, space and limit are all too small |
| `ByteBuffers.ByteBuffer.Reserve` | utils/bytebuffer.h:146-152 | contents kept; room for n bytes behind them, or the exception under exactly the same condition |
| `ByteBuffers.ByteBuffer.Write` | utils/bytebuffer.h:180-188 | appends the bytes, or throws, exactly when array and limit are both too small, and leaves the contents |
| `ByteBuffers.ByteBuffer.Advance` | utils/bytebuffer.h:155-161 | extends the data by at most the space; old bytes stay |
| `ByteBuffers.ByteBuffer.Resize` | utils/bytebuffer.h:136-143 | cuts or extends to n; throws exactly when the extension has no room, and leaves the contents |
| `ByteBuffers.ByteBuffer.Compact` | utils/bytebuffer.h:248-276 | contents kept; the new capacity and the memory freed; the buffer stays usable unless it was empty, had grown, and no minimum was asked for |
| `ByteBuffers.CompactedAway` | utils/bytebuffer.h:248-276 | a buffer that grew, was emptied and compacted to nothing |
| `ByteBuffers.CompactedFresh` | utils/bytebuffer.h:253-256 | a fresh one is left alone |
| `ByteBuffers.ByteBuffer.Gc` | utils/bytebuffer.h:280-286 | contents kept; from two kilobytes of idle space on, the capacity becomes the data and half of the idle space in whole blocks |
| `TcpOutput.SelectArithmetic` | core/handler.cpp:24-43 | adding wins over removing, `remove + add` is zero iff nothing changes, and epoll gets the selected mask unless a first registration leaves input out |
| `TcpOutput.TcpConnection.Select` | core/selector_epoll.cpp:64-89 | for any masks: selection, registration and epoll mask afterwards; epoll watches exactly what is selected unless a first registration leaves input out |
| `TcpOutput.TcpConnection.Send` | core/tcp_connection.cpp:256-279 | kernel bytes then buffered bytes are all accepted bytes in order, counters agree, write interest iff data waits; socket error and limit exactly by the state before; the invariant survives iff no bytes are lost |
| `TcpOutput.BytesLost` | core/tcp_connection.cpp:261-266 | a send that meets the limit after one byte, and one of 2^31 bytes, both leave the invariant broken |
| `TcpOutput.TcpConnection.PendingIsInt` | core/tcp_connection.cpp:285-285 | the size that `flush` casts to `int` is the size |
| `TcpOutput.TcpConnection.SendNow` | core/tcp_connection.cpp:259-267 | with nothing waiting: any short write is completed by buffering exactly the rest and adding write interest; the limit strikes exactly when the rest has no room |
| `TcpOutput.TcpConnection.SendLater` | core/tcp_connection.cpp:268-272 | with data waiting or no connection yet: everything is appended behind it, or the limit strikes exactly when it has no room |
| `TcpOutput.TcpConnection.Flush` | core/tcp_connection.cpp:281-292 | moves bytes from the front of the buffer to the kernel and drops write interest exactly with the last of them |
| `TcpOutput.TcpConnection.OnWrite` | core/tcp_connection.cpp:369-386 | keeps stream and interest, or closes on a socket error |
| `TcpOutput.TcpConnection.OnConnected` | core/tcp_connection.cpp:294-326 | an established connection with settled interest, or a closed one, from a registered socket or before any registration |
| `TcpOutput.TcpConnection.Accept` | core/tcp_connection.cpp:10-22 | an accepted connection starts watching input only |
| `TcpOutput.TcpConnection.Connect` | core/tcp_connection.cpp:10-22 | a connecting one starts watching both; one connected at once is established and watches input |
| `TcpOutput.TcpConnection.Close` | core/tcp_connection.cpp:450-468 | the selector forgets the socket, the stream accounting stays |
| `SyncFuture.StepKeepsInv` | core/future.h:508-638 | every step of completers and waiters keeps count, flags and latch consistent while no two threads find one flag clear |
| `SyncFuture.GetReturnsComplete` | core/future.h:581-589 | `get` returns only when every promise has its value or exception and its `done()` has lowered the count |
| `SyncFutureValues.ResultsAreLast` | core/future.h:519-542 | in every run from the start, overlapping completions included, each promise has the value and the exception it was last given; the history is read off the steps alone |
| `SyncFutureValues.GetReturnsLast` | core/future.h:581-589 | `get` returns only when some call of the run completed every promise created, and finds what these calls gave last |
| `SyncFuture.CountIsOutstanding` | core/future.h:519-542 | the count is the number of outstanding promises; a repeated completion does not change it |
| `SyncFuture.LatchOpens` | core/future.h:616-631 | once all `done()` calls returned the latch is open, sleepers are among those the signal did not reach, and a single waiter never sleeps |
| `SyncFuture.WaiterReleased` | core/future.h:625-631 | a waiter not asleep returns at its next step |
| `SyncFuture.SignalReachesAll` | core/thread.h:65-68 | the signal is sure to leave nobody asleep iff at most one waiter sleeps |
| `SyncFuture.TwoWaitersBlock` | core/future.h:77-95 | a run in which everything is completed and the second waiter sleeps on |
| `SyncFutureCount.CountedOnceIff` | core/future.h:519-542 | over every run from the start, where nobody is about to lower the count: it is the number of outstanding promises iff no two threads ever overlapped in finding one flag clear; otherwise it is lower |
| `SyncFutureCount.ExcessStep` | core/future.h:527-531 | the excess of lowerings over promises never falls, and rises at exactly the step that creates an overlap |
| `SyncFuture.OverlapLowersTwice` | core/future.h:527-531 | a failing case: two overlapping completions lower the count twice |
| `SyncFuture.OverlapReturnsEarly` | core/future.h:519-542 | a run from the start that leads there and ends with `get` returned and one of two promises outstanding |
| `Wire.RoundTrip` | utils/serializer.h:75-82 | reading what was written in the same byte order gives the value back, for every width |
| `Wire.LittleEndianRoundTrip` | utils/serializer.h:75-82 | the same for the little-endian form |
| `Wire.GetPut` | utils/serializer.h:75-82 | writing what was read gives the bytes back |
| `Wire.PutBytes` | utils/serializer.h:75-82 | the byte of weight 256^i of a written integer n is n / 256^i mod 256, at its place in either byte order |
| `Wire.Deserializer.Read` | utils/serializer.h:268-276 | the next k bytes, or an exception that moves nothing |
| `Wire.Deserializer.ReadByte` | utils/serializer.h:286-294 | one byte, or an exception |
| `Wire.Deserializer.ReadUint` | utils/serializer.h:330-359 | an integer of the given width in the cursor's byte order, or an exception |
| `Thrift.SkipTakesValue` | utils/serializer.h:726-816 | on a complete value followed by anything, `skip` takes exactly the encoding iff no direct element looks empty to it; a list or set of voids is given up exactly at its end |
| `Thrift.VoidsAreInvisible` | utils/serializer.h:777-808 | below 4 GB only void values look empty, so values with voids only in lists and sets are always left at their end |
| `Thrift.SkipReturnsLength` | utils/serializer.h:726-816 | a complete value with voids only as elements of lists and sets is stepped over, and its length returned iff it is not itself such a list |
| `Thrift.VoidElementRefused` | utils/serializer.h:792-793 | a list of one void is refused, a list of such lists is stepped over |
| `Thrift.TypeWidths` | utils/serializer.h:733-758 | the widths of the scalar types by their numbers |
| `Thrift.UnknownTypeThrows` | utils/serializer.h:812-813 | any other type number throws, also as the type of a field or of elements |
| `ThriftCuts.CutNoticed` | utils/serializer.h:726-816 | exactly when every strict prefix is refused: by the shape of a scalar, string, list or map, and for a struct reduced to the cut-off bytes of its fields one by one |
| `ThriftCuts.ListCutMissed` | utils/serializer.h:791-794 | a list with elements is accepted when cut off behind its header |
| `ThriftCuts.CutInField` | utils/serializer.h:797-811 | a struct cut off inside any field ends as the field loop does from the bytes left of that field |
| `ThriftCuts.ScalarCutMissed` | utils/serializer.h:797-811 | cut off inside a scalar that starts with a zero byte, a struct counts as complete |
| `ThriftCuts.StringCutMissed` | utils/serializer.h:797-811 | the same inside the length of a string below 16 MB |
| `ThriftCuts.BytesNoticed` | utils/serializer.h:797-811 | a struct of one-byte scalars is safe |
| `ThriftLeaves.LeavesCut` | utils/serializer.h:797-811 | for structs of scalars and strings below 16 MB, by their bytes alone: every strict prefix is refused iff all fields are scalars and none is misread |
| `ThriftLeaves.PrefixEnds` | utils/serializer.h:797-811 | a strict prefix of a scalar reads as the end of a struct only if the scalar is misread |
| `ThriftLeaves.MisreadAt` | utils/serializer.h:797-811 | and a misread scalar has such a prefix |
| `ThriftLeaves.Seven` | utils/serializer.h:797-811 | what the field loop makes of seven bytes, by cases on the bytes |
| `Thrift.SkipValue` | utils/serializer.h:726-816 | the recursive skipper over the cursor is the function `Skip`, including its exceptions and the position it leaves |
| `Thrift.SkipMap` | utils/serializer.h:771-784 | header and entries of a map; the size check is two bytes short, so a cut-off count throws instead of returning -1 |
| `Thrift.SkipList` | utils/serializer.h:785-796 | header and elements of a list or set, with the cursor position on every exit |
| `Thrift.ItemLoop` | utils/serializer.h:791-794 | the element loop stops at the first nested zero, goes on after a nested -1, and leaves the cursor as `SkipItems` says |
| `Thrift.EntryLoop` | utils/serializer.h:777-782 | the same for keys and values in turn |
| `Thrift.FieldLoop` | utils/serializer.h:797-811 | the same for fields, up to the stop byte or a header that is cut off |
| `ThriftMessage.BuiltMessageRead` | utils/serializer.h:903-962 | a built message followed by anything is read with its own name, type, sequence number, header length and body length |
| `ThriftMessage.HeaderRead` | utils/serializer.h:911-921 | the strict header is recovered whatever the body |
| `ThriftMessage.AnyVersionRead` | utils/serializer.h:911-921 | any first word with the highest bit set starts a strict header, whose type is the word's lowest byte |
| `ThriftOldHeader.OldMessageRead` | utils/serializer.h:922-937 | a message with the old header, for any length word below 2^31 and followed by anything, is read with its own name, type, sequence number, header length and body length |
| `ThriftOldHeader.OldHeaderRead` | utils/serializer.h:922-931 | the old header's fields are recovered whatever the body |
| `ThriftOldHeader.PartOfOldHeader` | utils/serializer.h:922-931 | an old header cut off inside the name throws; cut off anywhere else it is incomplete |
| `ThriftOldHeader.OldTruncationNoticed` | utils/serializer.h:922-937 | cut off inside a body of scalars and strings below 16 MB, it is never reported whole iff all fields are scalars and none is misread |
| `ThriftMessage.PartOfHeaderIncomplete` | utils/serializer.h:908-921 | anything short of the first body byte is reported incomplete |
| `ThriftMessage.TruncationNoticed` | utils/serializer.h:932-937 | whether a truncated message is ever reported whole, reduced to the cut-off bytes of its fields one by one |
| `ThriftMessage.LeafTruncationNoticed` | utils/serializer.h:932-937 | for a body of scalars and strings below 16 MB: never iff all fields are scalars and none is misread |
| `ThriftMessage.TruncatedReadWhole` | utils/serializer.h:932-937 | cut off inside a scalar that starts with a zero byte, a message is reported whole with a body that ends there |
| `ThriftMessage.ReadMessageBegin` | utils/serializer.h:903-938 | the parser over the cursor is the function `ReadMessage`, in the strict and the old form |
| `ThriftMessage.Build` | utils/serializer.h:951-962 | the message of `BuiltMessageRead`, or an exception iff it exceeds the 64 MB of the serializer's buffer |
| `Packet.UnpackPack` | utils/packet.h:483-595 | unpacking a packed value of any nesting, in either byte order, followed by anything, gives the value and exactly the rest |
| `PacketBytes.PackedBytes` | utils/packet.h:301-582 | for every type and byte order, what is written is exactly the wire form of the value, and nothing is written iff it has none: integers byte by byte in two's complement, Booleans 1 or 0, strings behind their length, a pair's first component before its second, a count in four bytes before the elements |
| `PacketBytes.UnpackIff` | utils/packet.h:393-595 | on any input, `>>` returns a value and leaves a rest iff the bytes before the rest read as that value, a set or map being ordered with the first element of each key |
| `PacketBytes.OrderIs` | utils/packet.h:541-567 | the element order is that of `operator<`: numbers by value, false before true, strings, pairs and containers lexicographically |
| `PacketBytes.CollectedMore` | utils/packet.h:585-595 | one more element read is one more inserted: ordered, with the first element of each key |
| `Packet.PackSucceeds` | utils/packet.h:110-120 | packing into a buffer succeeds iff every string fits its length field and the packed size fits the limit |
| `Packet.StringsPack` | utils/packet.h:110-120 | a PackError is thrown iff some string is too long for its length field |
| `Packet.PackSize` | utils/packet.h:576-582 | the packed size as a sum over the value |
| `Packet.LimitWithoutStrings` | utils/bytebuffer.h:300-305 | 20 million integers meet the limit |
| `Packet.PacketToString` | utils/packet.h:682-687 | the packed bytes of a fresh serializer, or an exception exactly then |
| `Packet.PrefixRejected` | utils/packet.h:182-206 | every strict prefix of a packed value is rejected |
| `Packet.UnpackExtends` | utils/packet.h:182-206 | more input changes only what is left over, for any input |
| `Packet.PackInjective` | utils/packet.h:483-595 | packed values of one type cannot be confused, whatever follows |
| `Packet.UnpackTyped` | utils/packet.h:541-595 | whatever the input, an accepted value is in range, and its sets and maps are ordered without duplicate keys |
| `Packet.CompareEq` | utils/packet.h:541-567 | the element order is total: zero exactly on equality, antisymmetric |
| `Packet.CompareTrans` | utils/packet.h:541-567 | and transitive, through strings, pairs and containers |
| `Packet.InsertAdds` | utils/packet.h:541-567 | insertion adds an element iff its key is new |
| `Packet.InsertKeepsOrder` | utils/packet.h:541-567 | insertion keeps a set or map ordered |
| `Packet.Serializer.Push` | utils/packet.h:301-370 | `<<` appends exactly the packed bytes, or throws iff a string is too long or the whole exceeds the limit |
| `Packet.Serializer.PushContainer` | utils/packet.h:576-582 | `marshal_container` appends the count and every element in order, or throws under the same condition |
| `Packet.Pop` | utils/packet.h:393-467 | `>>` is the function `Unpack`, including the cursor it leaves |
| `Packet.PopContainer` | utils/packet.h:585-595 | `unmarshal_container` inserts count elements in order into an empty container, or throws when the input ends |
| `Md5.MD5.Update` | utils/md5.h:99-137 | appends the input to the message the object stands for |
| `Md5.MD5.Final` | utils/md5.h:142-171 | the digest is padding plus the fold of the block function over the whole message; afterwards the object stands for a message of the same length whose tail is what the padding left |
| `Md5.MD5.GetDigest` | utils/md5.h:38-46 | the digest of the message the object stands for; the flag is false again afterwards and the message is as `Final` leaves it |
| `Md5.SplitDoesNotMatter` | utils/md5.h:99-137 | state, count and buffered tail depend only on the concatenation of the updates |
| `Md5.CountStep` | utils/md5.h:109-114 | the two-word bit count adds modulo 2^64 |
| `Md5.PaddingCut` | utils/md5.h:157-160 | the cut of the static padding is the padding of section 3.1 of RFC 1321 |
| `Md5.SecondDigest` | utils/md5.h:38-46 | a second digest equals the first for every block function iff fewer than 56 bytes wait or what the padding left equals them |
| `Md5.DigestTwice` | utils/md5.h:38-46 | an object, with a stand-in block function, whose two digests in a row differ |
| `Url.DecodeEncode` | utils/url_parser.h:30-75 | decoding undoes encoding for every byte string, NUL included |
| `Url.EncodedIsPlain` | utils/url_parser.h:30-52 | an encoded text holds no delimiter |
| `Url.EscapeIs` | utils/url_parser.h:14-52 | exactly letters, digits, the marks `-_.!~*'()` and NUL stay as they are; any other byte becomes `%` and its two hexadecimal digits |
| `Url.UnhexIs` | utils/url_parser.h:69-73 | the decoder reads digits of either case |
| `Url.EncodeURL` | utils/url_parser.h:30-52 | the loop yields the concatenation of the escapes of all bytes |
| `Url.DecodeURL` | utils/url_parser.h:56-75 | the loop yields the inverse of the escapes; a lone `%` at the end, which reads behind the terminator, is told apart |
| `Url.ParsePrinted` | utils/url_parser.cpp:41-256 | parsing a printed URL whose fields are free of NUL and their delimiters gives the fields back, with the path behind the added slash, on top of what the parser held |
| `Url.ParseBuilt` | utils/url_parser.cpp:7-39 | so a fresh parser reads a built URL back, for any iteration order of the parameters |
| `UrlParts.ParseSpelled` | utils/url_parser.cpp:41-256 | a URL written from scheme, optional user name and password, host, optional port, path and optional query, each free of what would end it, is accepted and taken apart into exactly these; what is not written stays as it was |
| `UrlParts.AcceptedIff` | utils/url_parser.cpp:41-256 | exactly the texts that start with scheme characters and `://` are accepted, and each of them is written from such parts, which are then the fields |
| `UrlParts.RejectedFields` | utils/url_parser.cpp:50-88 | a rejected text changes at most the protocol, which is stored before the slashes are looked for |
| `UrlParts.PrintedIs` | utils/url_parser.cpp:7-33 | the printed text is the one written from protocol, host, optional port, path behind a slash, and one definition per parameter or an empty query |
| `Url.UrlParser.Build` | utils/url_parser.cpp:7-33 | the escaped text of protocol, host, optional port, path and parameters with their delimiters |
| `Url.UrlParser.ParseString` | utils/url_parser.cpp:35-39 | verdict and fields are those of the decoded text up to its first NUL |
| `Url.UrlParser.ParseCString` | utils/url_parser.cpp:41-256 | the stages in order, with the verdict and every field written so far |
| `Url.UrlParser.ParseScheme` | utils/url_parser.cpp:50-88 | scheme characters, colon, two slashes |
| `Url.UrlParser.ParseUserInfo` | utils/url_parser.cpp:90-145 | user name and password when an `@` precedes the first slash |
| `Url.UrlParser.ParseQuery` | utils/url_parser.cpp:212-253 | the parameters, the last definition of a name winning |
| `Base64.DecodeEncode` | utils/base64.cpp:47-134 | the groups that the decoder reads stand for the data, for every byte sequence |
| `Base64.EncodedShape` | utils/base64.cpp:47-90 | length 4*ceil(n/3), alphabet then padding, as section 4 of RFC 4648 asks |
| `Base64.BytesOfSextets` | utils/base64.cpp:108-130 | the decoder's shifts undo the cut, and what stands in unused positions does not reach the output |
| `Base64.SextetsAre` | utils/base64.cpp:59-62 | the encoder's masks and shifts cut the 24-bit group |
| `Base64.AlphabetIs` | utils/base64.cpp:31-34 | the characters of Table 1 in RFC 4648 |
| `Base64.EncodeKeepsData` | utils/base64.cpp:42-134 | the data comes back iff there are fewer than 3 * 2^29 bytes of it |
| `Base64.TooLongToDecode` | utils/base64.cpp:97-103 | 3 * 2^29 bytes do not come back |
| `Base64.PrefixLength` | utils/base64.cpp:101-103 | how far the decoder's position gets in an encoding |
| `Base64.Encode` | utils/base64.cpp:47-90 | the byte-by-byte loop yields the 24-bit group encoding of the first `length mod 2^32` bytes, padding included |
| `Base64.Decode` | utils/base64.cpp:92-134 | the decoding of the longest prefix inside the alphabet, with an incomplete last group cut to its complete bytes; a prefix of 2^31 characters overflows the position |

## Left out

- Sockets, epoll, pipes, DNS, thread creation, clocks and log files: their results are parameters (the bytes a `send`
  takes, milliseconds elapsed) or steps (a pipe write either adds a byte or finds the pipe full).
- Coroutines (core/coroutine.h), which rest on `swapcontext`.
- `IFuture`, `Future` and `AsyncFuture`: their completion guard ends in a stray semicolon (core/future.h:267), so only
  `SyncFuture` is modelled.
- Varint, zigzag and the protobuf helpers built on them, floating-point numbers in containers (their order is not the
  order of their bits), and wide strings.
- UDP connections and sockets, `shareThread` managers on the main thread, reference counting, string and date helpers,
  `DiffNewOldMap`: they repeat a modelled structure or would only add easy members.
- Memory order: the atomic operations of log ring, queue and latch are taken as sequentially consistent, and
  `LogData::recycle` (log/src/logging.cpp:334-343), which clears its flag before the fields, as one step.
- Pool positions: which pooled chunk `BufferBucket::alloc` lands on is arbitrary in the model.
- `MessageQueue::pop`, which no worker calls, and what a task does when it is run.
- A callback's effect on timers is the list of its sets, cancels and destructions; what else it does is not modelled.
- TimerWheel.Countdown.SelectTimeout: timeouts are at most INT_MAX - 10240, so that adding a list's counter stays within an `int`.
- TimerWheel.Countdown.ClickElapse: a timer node is named by its handler, and lists hold names; pointers into `std::list` are not modelled.
- ConnectionIds.Manager.GetConnectionId: asks for a free id in the seed's class, because the source's loop does not end without one.
- TcpOutput.TcpConnection.Send: `data` is not null when `size > 0`; the size is a `uint32_t`, the counters are unbounded; a connection that closed is not sent on.
- SyncFuture.StepKeepsInv: promises are created before the first is completed or waited for, as the count is otherwise meaningless.
- Thrift.SkipTakesValue: values in which a void is a map entry or a struct field below the top, or a nested value is a
  multiple of 4 GB long, are outside the condition, since what the outer loop then reads depends on the bytes in between.
- ThriftCuts.CutNoticed: for a struct, asks for fields that a whole struct would be stepped over with; a condition on the
  bytes alone is given only for scalars and strings below 16 MB, because what is left of a container or of a longer
  string is read as fields at any depth.
- ThriftMessage.BuiltMessageRead: the body is a struct of less than 2 GB, the name less than 4 GB, as the `int` and the length field demand.
- Packet.UnpackPack: containers hold fewer than 2^32 elements, since a larger count is cut silently to 32 bits, and the destination is empty.
- Md5.MD5.Update: the 64 rounds of `transform` are a parameter, so everything holds for any block function; one update is at most 2^32 - 64 bytes.
- Url.EncodeURL: texts are shorter than 2^32 bytes, the range of the loop counter.
- Url.UrlParser.ParseCString: characters above 127 are taken as not alphabetic, and plain `char` as signed.
