# Chatroom: a verified model

A model, in Dafny 4.11, of the parts of the chatroom that hold state, branch or compute: the status
server's load balancer, the TLV wire format and its receivers, the sending half of a session, the two
routes of a chat message, the queue and pool protocols, the session tables, the id generator, the timer,
the online-status uploader and the password record. `dafny verify dfyconfig.toml` checks all of it.

How it is built:

- What an operation does is a function on values that follows the branches of the C++ code, and what a
  concurrent protocol does is a step function over its atomic sections. The theorems are about these.
- What the code changes in place is a class (`MinHeap`, `LoadBalancer`, `MsgNode`, `Receiver`, `Session`,
  `MsgHandler`, `AsyncClient`, `DBM`, `SessionManager`, `UIDGenerator`, `TimedTask`,
  `OnlineStatusUploader`). Its methods have the loops and assignments of the original and are proved to do
  to the object's values exactly what the function or step does, so the theorems hold of them. Thread
  positions and history are ghost.
- `Outcome` tells a normal return from an exception and from undefined behaviour.
- Clocks, random salts, token verification, whether a database connection can be made, the order in which
  a hash table is walked and which thread a condition variable wakes are parameters or events.

Modules: `HeapModel`, `BalancerModel`, `LoadBalancers` (status server); `NetField`, `Framing`,
`ReceiveModel`, `MsgNodes` (wire format); `SendPump`, `ChatRoutes`, `Decimal`, `HandlerQueue`, `Sessions`,
`OnlineStatus`, `Timers`, `StatusTimer` (chat server); `ClientQueue` (client); `ConnPool`, `PoolStop`, `Snowflake`,
`PasswordRecord` (gateway); `Runs` (runs of a step function and what holds along them), `Basics` (integer
ranges and result types).

## Where the code departs from its intent

The model follows the code. For each departure the intended property is proved to hold if and only if a
named guard event does not happen, and a concrete run shows that it does.

| intent | holds exactly when | theorem | witness |
|---|---|---|---|
| the balancer is a table with an argmin query | no id is registered that a removal from the last slot left in the index, and no load moves across 2^31 with an overflow or past a child or the parent | `RunRefinesPlainTable` | `ReturningServerEvictsAnother`, `HintWitness` |
| the update hint has the sign of the change | both loads are on the same side of 2^31 | `HintExact` | `HintWitness` |
| at most one `QueueSend` at any time (comment at src/server/session.cpp:24) | no `Send` finds the queue empty while a `QueueSend` chain is alive | `OneChainExactly` | `OverlapLosesMessage` |
| every message is sent once and in order | `QueueSend` never pops while another message waits in the slot for its write to start | `LossExactly` | `OverlapLosesMessage` |
| the buffer being written is owned | `QueueSend` never pops while a write is outstanding | `BufferOwnedExactly` | `OverlapFreesBuffer` |
| both chat routes give the target the same frame | the content holds a whole uid | `RoutesAgree` | the short contents in `RoutesAgree` |
| the message worker can always take another item | it never comes to close, for a rejected VERIFY, a session nobody has begun to close | `WorkerLostExactly` | `RejectedVerifyLosesWorker` |
| the client's `Close` wakes its worker | the notification does not fall between the worker's test and its wait | `CloseWakesExactly` | `CloseCanBeLost` |
| an idle connection is taken by a waiter | the pool holds at most one connection, or at most one thread more than connections uses it | `StrandingExactly` | `CanStrand` |
| a pool started again hands out open connections only | it held none when it was stopped | `ClosedHandedOutExactly` | every other pool, by the same theorem |
| the pool's `Stop` wakes every waiter | its notification does not fall between a waiter's test and its wait | `StopWakesExactly` | `StopCanBeMissed` |
| the verified table holds no closed session | `AddSession` never runs for a session that has finished closing while its uid is free, and never between a Close's reading of the flag and its removal | `ClosedListedExactly` | `LateVerifyListsClosed`, `RacingVerifyListsClosed` |
| an inserted session can be found by its uid until it is removed | no session closes while another open one holds its uid | `InsertedLostExactly` | `SecondLoginEvictsFirst` |
| every open session that was added can be found by its uid | besides, `AddSession` never finds the uid of an open session present | `OpenLostExactly` | `SecondLoginIsNotFound` |
| ids of one generator increase | no call first reads a time before the last stamp | `IncreasingExactly` | `StepBackRepeats` |
| a periodic task stays periodic | its automatic reset is still set, which `Cancel`, and so `UpdateNow`, clears for ever | `PeriodicExactly` | `UpdateNowEndsPeriod` |
| a stored record is met by its own password only | its key field is not empty, and the two derived keys differ | `AcceptsAllExactly`, `AcceptsExactly` | records with an empty key field, by `AcceptsAllExactly` |

## Model

| member | source | states |
|---|---|---|
| BalancerModel.RunRefinesPlainTable | src/status/load_balancer.cpp:9-96 | over every run of register, update, remove, query and sweep, with any loads, under a non-decreasing clock, every call ends normally, leaves heap, index and table in agreement and does to the table what a plain table with an argmin query does, if and only if no call registers an id the index still remembers or reports, for a known server, a load across 2^31 whose difference overflows, that goes up past a child's or down past the parent's |
| BalancerModel.RunKeepsServers | src/status/load_balancer.cpp:9-96 | over every run, with any loads and any clock, heap and table hold the same servers throughout and nothing throws, if and only if no server dropped from the last slot of a larger heap registers again and no hint overflows; the ids left in the index at its end are then exactly those at its start and the servers so dropped |
| BalancerModel.HeapNeverDangles | src/status/load_balancer.cpp:9-96 | over every run, whatever is registered and also after heap and table have parted, every server the heap points at is in the table and found at its own slot, so none is one that was freed |
| BalancerModel.CallIsSound | src/status/load_balancer.cpp:9-96 | one call on an agreeing state refines the plain table and keeps agreement exactly when it is not one of those |
| BalancerModel.CallMatches | src/status/load_balancer.cpp:9-96 | one call, with any load and clock: which calls part heap and table, and by which keys the stale part of the index grows |
| BalancerModel.CallPoints | src/status/load_balancer.cpp:9-96 | one call that ends normally keeps that, and a query always ends normally |
| BalancerModel.QueryIsSound | src/status/load_balancer.cpp:56-71 | the query ends, drops only servers whose last report is forty seconds old or older, answers with one that is more recent at its reading and whose load is least among those more recent then, answers none only when nothing is left, and sets the flag exactly when the table shrank |
| BalancerModel.SweepIsSound | src/status/load_balancer.cpp:83-96 | the TTL walk keeps exactly the servers that reported within the forty seconds before their turn, never throws, keeps agreement, and counts exactly the shrinkage |
| BalancerModel.SweepMatches | src/status/load_balancer.cpp:83-96 | the walk adds to the stale ids exactly the servers it drops from a last slot |
| BalancerModel.LiveExactly | src/include/status/load_balancer.hpp:19 | a server is live exactly when the 64-bit difference of reading and stamp is below 40000 ms; under a clock that has not stepped back, when it reported within forty seconds |
| BalancerModel.HintExact | src/status/load_balancer.cpp:19 | the signed difference does not overflow and has the sign of the change if and only if both loads lie on one side of 2^31 |
| BalancerModel.OverflowExactly | src/status/load_balancer.cpp:19 | the loads between which the signed difference overflows |
| BalancerModel.OutOfOrderExactly | src/include/status/load_balancer.hpp:202-256 | a new load in a slot breaks heap order exactly when a child has a smaller or the parent a greater one |
| BalancerModel.TouchMatches | src/status/load_balancer.cpp:34-40 | an update that does not overflow changes one row and, whatever its hint, only moves elements |
| BalancerModel.TouchRefines | src/status/load_balancer.cpp:34-40 | an update in place with loads on one side of 2^31 leaves a good heap and changes one row |
| BalancerModel.TouchAcross | src/status/load_balancer.cpp:15-19 | across 2^31 the hint overflows or the heap does not move, so agreement survives if and only if it does not overflow and the load goes neither up past a child's nor down past the parent's |
| BalancerModel.HintWitness | src/status/load_balancer.cpp:15-19 | a load of 0xC0000000 loses heap order and the query then answers with the busier server |
| BalancerModel.RegisterNewRefines | src/status/load_balancer.cpp:27-31 | a new id that the index does not remember is added to heap and table |
| BalancerModel.StaleRegistrationBreaks | src/status/load_balancer.cpp:27-31 | registering an id the index still remembers always writes out of range or drops another server from the heap while the table keeps it |
| BalancerModel.DropRefines | src/status/load_balancer.cpp:50-51 | removal by id never throws, takes out exactly that row, and leaves the id in the index exactly when it sat in the last slot of a larger heap |
| BalancerModel.ExpiredServerIsSwept | src/status/status_uploader.cpp:40 | a run from the empty balancer in which the TTL sweep drops a server from the last slot |
| BalancerModel.ReturningServerEvictsAnother | src/server/status_reporter.cpp:64-71 | going on from there: the server reports, is not found, registers again as its reporter does, and throws a third one out of the heap |
| BalancerModel.SweepCanThrow | src/include/status/load_balancer.hpp:187 | going on from there: a sweep that finds all three servers expired throws on the empty heap |
| HeapModel.RepairRestores | src/include/status/load_balancer.hpp:202-256 | from a heap with one slot changed to any value, up then down restores the order, keeps the multiset of elements, the index keys and the position of every stored element |
| HeapModel.HeapUpMoves | src/include/status/load_balancer.hpp:204-213 | the upward loop only permutes elements and keeps the index exact |
| HeapModel.HeapDownMoves | src/include/status/load_balancer.hpp:217-256 | the downward loop only permutes elements and keeps the index exact |
| HeapModel.HeapUpOrders | src/include/status/load_balancer.hpp:204-213 | when only the edge above a slot is out of order, the upward loop makes a heap although it does not stop early |
| HeapModel.HeapDownOrders | src/include/status/load_balancer.hpp:217-256 | when only edges below a slot are out of order, the downward loop makes a heap, tie swaps included |
| HeapModel.TopIsLeast | src/include/status/load_balancer.hpp:95 | in heap order the top is no greater than any element |
| HeapModel.InsertAdds | src/include/status/load_balancer.hpp:157-164 | inserting a new id adds exactly one element and keeps the order if there was one |
| HeapModel.UpdateMoves | src/include/status/load_balancer.hpp:145-156 | whatever the hint, an update only moves elements and keeps the index exact |
| HeapModel.UpdateRestores | src/include/status/load_balancer.hpp:145-156 | an update whose hint has the sign of the change restores the heap, in either direction or none |
| HeapModel.WrongHintMovesNothing | src/include/status/load_balancer.hpp:145-156 | an update whose hint has the opposite sign moves nothing |
| HeapModel.RemoveTakesTop | src/include/status/load_balancer.hpp:169-180 | removing the top of a non-empty array, in heap order or not, takes out exactly that element from array and index, and keeps the order if there was one |
| HeapModel.AnyRemoveTakesOne | src/include/status/load_balancer.hpp:184-200 | removal by id, in heap order or not, takes out exactly that element and keeps the order if there was one; its index key goes too, except for the last slot of a larger heap, where it stays |
| HeapModel.UpdateInPlace | src/status/load_balancer.cpp:15-19 | telling the heap after the shared object was changed in place is the same as storing the new value |
| HeapModel.PutKeeps | src/include/status/load_balancer.hpp:143-165 | an update that stays in range, whichever slot the index names, keeps every stored element found; the element of that slot gives way to the new one |
| HeapModel.AnyRemoveKeeps | src/include/status/load_balancer.hpp:184-200 | a removal that ends normally, whichever slot the index names, keeps every stored element found, adds none, and the id is gone |
| LoadBalancers.MinHeap.HeapUp | src/include/status/load_balancer.hpp:204-213 | the loop on the object array and index does what the recursive form does |
| LoadBalancers.MinHeap.HeapDown | src/include/status/load_balancer.hpp:217-256 | the loop with its three exits does what the recursive form does |
| LoadBalancers.MinHeap.InsertOrUpdate | src/include/status/load_balancer.hpp:143-165 | refines the function on values; false exactly where the write is out of range |
| LoadBalancers.MinHeap.Remove | src/include/status/load_balancer.hpp:169-180 | refines the function on values; throws exactly on an empty heap |
| LoadBalancers.MinHeap.AnyRemove | src/include/status/load_balancer.hpp:184-200 | refines the function on values, with its two exceptions and the write out of range |
| LoadBalancers.LoadBalancer.UpdateServerLoad | src/status/load_balancer.cpp:9-22 | the object owned by the table is changed in place, the heap seeing it only if it points at it, then the heap told; refines the function on values also after heap and table have parted |
| LoadBalancers.LoadBalancer.RegisterServerInfo | src/status/load_balancer.cpp:24-42 | refines the function on values, for new, known and returning ids |
| LoadBalancers.LoadBalancer.RemoveServer | src/status/load_balancer.cpp:44-54 | refines the function on values, with the exceptions of the heap, and the table owns what the heap points at |
| LoadBalancers.LoadBalancer.GetMinimalLoadServerInfo | src/status/load_balancer.cpp:56-71 | the loop gives the answer of the query on values, whether or not heap and table agree, and always ends normally |
| LoadBalancers.LoadBalancer.CheckTTL | src/status/load_balancer.cpp:83-96 | the erasing walk gives the outcome of the sweep on values: the count, or the exception |
| NetField.Write32IsNetworkOrder | src/include/utils/field_op.hpp:28-31 | on either kind of host the bytes written are most significant first (Appendix B of RFC 791) |
| NetField.Write64IsNetworkOrder | src/include/utils/field_op.hpp:9-15 | so are the eight bytes, through the exchange of two 32-bit halves |
| NetField.Read32IsNetworkOrder | src/include/utils/field_op.hpp:36-40 | on either kind of host the value read is that of the bytes, most significant first |
| NetField.Read64IsNetworkOrder | src/include/utils/field_op.hpp:70-74 | so is the 64-bit value |
| NetField.BeRoundTrip | src/include/utils/field_op.hpp:28-40 | a value that fits reads back from its bytes |
| NetField.FromBeRoundTrip | src/include/utils/field_op.hpp:28-40 | bytes are written back as they were read, and their value fits |
| NetField.BeBytes | src/include/utils/field_op.hpp:28-31 | a 32-bit value is on the wire as these four bytes |
| Framing.FrameLayout | src/include/common/msgnode.hpp:6-17 | the eight bytes in front of the content are those of tag and length, each most significant first |
| Framing.HeaderReadsBack | src/include/common/msgnode.hpp:198-230 | tag, length and content of an encoded frame read back whatever follows it |
| Framing.CompleteIsEncoded | src/include/common/msgnode.hpp:6-17 | bytes whose header announces their length are the encoding of the frame they hold |
| Framing.SplitIsUnique | src/include/common/msgnode.hpp:10-15 | a byte stream splits into accepted frames and an incomplete rest in one way only |
| ReceiveModel.StreamIsDelivered | src/server/session.cpp:84-176 | for every list of frames of at most 2^20 content bytes and every chopping of their bytes and a rest into reads, server and client deliver exactly that list in order, keep the rest in the buffer, and are closed exactly when the rest announces too much |
| ReceiveModel.EveryStreamIsDelivered | src/server/session.cpp:84-176 | such a run exists: for every list of acceptable frames, every incomplete rest and every bound on the size of each read, server and client read all the bytes, deliver the frames and come to wait for more |
| ReceiveModel.RunAccounts | src/server/session.cpp:94-176 | in every run positions and requested reads stay inside the buffer, across Reallocate, and the bytes read are the delivered frames plus what is in the buffer |
| ReceiveModel.BufferReuseIsUnobservable | src/client/client_class.cpp:179-249 | the client's never-wiped buffer delivers the same frames and waits for the same bytes as fresh buffers do, for every stream and any two choppings |
| ReceiveModel.NextIsSafe | src/server/session.cpp:111-125 | one completed read keeps position and next read inside the buffer |
| ReceiveModel.NextExists | src/server/session.cpp:94-176 | whatever bytes a requested read brings, the receiver has a next state |
| MsgNodes.MakeFrame | src/include/common/msgnode.hpp:85-103 | the bytes to be sent are the encoding of the frame; empty contents throw, lengths that wrap the buffer size are undefined |
| MsgNodes.MsgNode.Reallocate | src/include/common/msgnode.hpp:141-157 | the buffer never shrinks and keeps every old byte in front; positions are kept unless there was no buffer |
| MsgNodes.MsgNode.SetTagField | src/include/common/msgnode.hpp:226-230 | the first four bytes become the tag, most significant first, and no other byte changes |
| MsgNodes.MsgNode.SetContentLenField | src/include/common/msgnode.hpp:207-212 | the next four become the length, no other byte changes, and the member follows |
| MsgNodes.MsgNode.UpdateContentLenField | src/include/common/msgnode.hpp:198-202 | the member becomes the length in the header |
| MsgNodes.Receiver.OnHead | src/server/session.cpp:95-130 | the head completion on the real buffer: an error closes, an error or a session that is down changes nothing but the bytes that arrived and starts no read; otherwise it is a step of the receive machine, and an oversized length takes the session down |
| MsgNodes.Receiver.OnContent | src/server/session.cpp:84-176 | the content completion on the real buffer, fresh on the server and reused on the client: the same; a complete frame whose handler is gone is dropped and the session closed; otherwise it is a step of the receive machine |
| ChatRoutes.RoutesAgree | src/server/msg_handler.cpp:134-160 | the remote route gives the uid read from the content byte for byte the frame of the local rewrite if and only if the content holds at least eight bytes and its frame has a 32-bit size |
| ChatRoutes.ChatReachesTarget | src/server/msg_handler.cpp:134-160 | a content of a target uid, most significant byte first, and a text reaches that uid on both routes as a frame of tag 4 with the sender's uid and the same text |
| ChatRoutes.ReadTarget | src/server/msg_handler.cpp:134 | the uid read from the received buffer is the one the client put in front of its text |
| ChatRoutes.RouteLocal | src/server/msg_handler.cpp:155-160 | the rewrite in place of a received buffer gives the frame of the local route |
| ChatRoutes.RebuildRemote | src/server/mq_handler.cpp:56-71 | the buffer filled field by field is the frame of the remote route; it throws exactly when a uid does not parse and is undefined exactly when the buffer size wraps |
| Decimal.StoullRoundTrip | src/server/redis/server_redis.cpp:34-35 | a printed 64-bit uid parses back |
| Decimal.StoiRoundTrip | src/http/dbm/security.cpp:30 | a printed int, negative too, parses back, and has a sign exactly when it is negative |
| Decimal.StoullExactly | src/server/mq_handler.cpp:59-60 | white space, a sign, the digits of any number and a rest without a leading digit parse to the number, or with a minus to its negation modulo 2^64, if and only if it is below 2^64, and throw otherwise |
| Decimal.StoiExactly | src/http/dbm/security.cpp:30 | the same for the range of int |
| Decimal.NothingToRead | src/http/dbm/security.cpp:30 | without a digit after spaces and sign both throw |
| SendPump.EveryRunConserves | src/server/session.cpp:16-82 | in every interleaving the popped messages followed by the queue are the enqueued ones in order, every pop is written once or about to be, and a session that is up never leaves a message with nobody to send it |
| SendPump.OneChainExactly | src/server/session.cpp:16-82 | along a run there is at most one chain of QueueSend if and only if no Send finds the queue empty while one is alive |
| SendPump.LossExactly | src/server/session.cpp:52-82 | along a run no message is lost if and only if QueueSend never pops one while another waits in the slot for its write to start, whatever the number of chains |
| SendPump.OverwrittenForever | src/server/session.cpp:57-58 | a message overwritten in the slot before its write started is never written, in any continuation |
| SendPump.OrderExactly | src/server/session.cpp:76-81 | where none is lost the socket was given a prefix of the sent messages, each once and in order; when no write is still to start, only there |
| SendPump.OneChainKeepsOrder | src/server/session.cpp:52-82 | with one chain no message is lost, at most one write is outstanding, and the slot owns its buffer |
| SendPump.ChainsAreConserved | src/server/session.cpp:42-74 | in every run the chains alive are those before plus one for each Send to an empty queue, less one for each QueueSend that finds the queue empty and each completion with an error or after a close |
| SendPump.FailureTakesDown | src/server/session.cpp:64-68 | a failed write, like Close, takes the session down, starts no QueueSend and leaves the queue |
| SendPump.DownForever | src/server/session.cpp:62-74 | a session that is down stays so, and pops no more than the calls that already waited and later Sends to an empty queue pay for |
| SendPump.CompletionGoesOn | src/server/session.cpp:71-81 | a session that is up follows a completed write with the message at the front of the queue |
| SendPump.BufferOwnedExactly | src/server/session.cpp:57-81 | along a run the slot owns every buffer being written if and only if QueueSend never pops a message while a write is outstanding |
| SendPump.TwoChainsCollide | src/server/session.cpp:52-82 | from any state with two chains two writes can be made outstanding at once |
| SendPump.OverlapLosesMessage | src/server/session.cpp:57-58 | a run in which one message is written twice and the other never |
| SendPump.OverlapFreesBuffer | src/server/session.cpp:57-81 | a run in which the buffer being written loses its owner |
| SendPump.Session.Send | src/server/session.cpp:35-50 | the critical section is the Send step; it starts a chain exactly when the queue was empty |
| SendPump.Session.QueueSend | src/server/session.cpp:52-59 | the critical section is the Pop step |
| SendPump.Session.AsyncWrite | src/server/session.cpp:76-81 | the write is given what the shared slot holds when it starts |
| SendPump.Session.OnWritten | src/server/session.cpp:62-74 | the completion is the Done step: an error takes the session down, and QueueSend follows exactly when there was none and the session was up |
| HandlerQueue.NoLostWakeup | src/server/msg_handler.cpp:10-60 | in every interleaving the worker takes items in posting order, never sleeps on an item without the notification of a post on its way, nor through a stop without that of Stop, and leaves only after a stop |
| HandlerQueue.WorkerTakesNext | src/server/msg_handler.cpp:46-60 | from every reachable state in which the handler runs and the queue is not empty, the worker and the notifications on their way alone bring it to process the front item |
| HandlerQueue.WorkerStops | src/server/msg_handler.cpp:46-60 | after a stop they bring it to its exit, and the rest of the queue stays |
| HandlerQueue.StoppedForever | src/server/msg_handler.cpp:30-60 | after a stop no item is taken in any continuation, and a worker that left stays gone |
| HandlerQueue.BusyUntilFinish | src/server/msg_handler.cpp:46-60 | while the worker processes an item, with the lock, nothing is posted, taken or stopped |
| HandlerQueue.SpuriousIsHarmless | src/server/msg_handler.cpp:46-56 | a wait that ends by itself leads back to the same state |
| HandlerQueue.NotificationsAreConserved | src/server/msg_handler.cpp:10-37 | in every run the notifications owed and delivered are one for each post that found the queue empty, and one for the only stop |
| HandlerQueue.MsgHandler.PostMessage | src/server/msg_handler.cpp:10-18 | is the Post step; it notifies exactly when the queue became one long |
| HandlerQueue.MsgHandler.Stop | src/server/msg_handler.cpp:30-37 | is the Stop step while running and does nothing otherwise; the handler is stopped after it |
| HandlerQueue.MsgHandler.TakeNext | src/server/msg_handler.cpp:46-56 | the worker's pass: the front item while running and the queue is not empty, a wait exactly when it is empty, its exit exactly when stopped |
| ClientQueue.NeverSleepsOnMessage | src/client/client_class.cpp:252-310 | in every interleaving the worker never sleeps, or is about to, on a message, and takes them in sending order |
| ClientQueue.WorkerWritesNext | src/client/client_class.cpp:289-310 | from every reachable state in which the client runs and has a message, the worker alone comes to write the front one |
| ClientQueue.WorkerLeaves | src/client/client_class.cpp:282-310 | after a close it comes to its end, unless the notification was missed |
| ClientQueue.ClosedForever | src/client/client_class.cpp:282-310 | after a close no message is taken in any continuation, and a worker that left stays gone |
| ClientQueue.WriteFailureEnds | src/client/client_class.cpp:302-307 | a failed write closes the client and ends the worker, in every continuation |
| ClientQueue.SentExactly | src/client/client_class.cpp:252-260 | in every run the messages taken followed by the queue are those before and those sent, in order |
| ClientQueue.CloseWakesExactly | src/client/client_class.cpp:282-310 | along a run the worker is never left waiting after Close if and only if the notification never falls between its test and its wait |
| ClientQueue.LostUntilSend | src/client/client_class.cpp:289-294 | a worker so lost stays lost until somebody sends or the wait ends by itself |
| ClientQueue.LostCanLeave | src/client/client_class.cpp:289-299 | it leaves when its wait ends by itself |
| ClientQueue.CloseCanBeLost | src/client/client_class.cpp:282-294 | such a run |
| ClientQueue.AsyncClient.Send | src/client/client_class.cpp:255-260 | is the Send step |
| ClientQueue.AsyncClient.Close | src/client/client_class.cpp:282-287 | is the Close step; only the first call notifies |
| ClientQueue.AsyncClient.TakeNext | src/client/client_class.cpp:290-299 | is the Check step: the front message while running and there is one, a wait exactly when there is none, exit exactly when closed |
| ClientQueue.AsyncClient.OnWritten | src/client/client_class.cpp:302-307 | a failed write closes the client and ends the worker, another goes on while running |
| ConnPool.RunPartitions | src/http/dbm/gateway_dbm.cpp:82-127 | over every interleaving idle and borrowed connections partition the pool, its size is their number and at most the cap, and no connection has two borrowers |
| ConnPool.StartedPartitions | src/http/dbm/gateway_dbm.cpp:10-41 | the pool is so after Start |
| ConnPool.OpenedPartitionsExactly | src/http/dbm/gateway_dbm.cpp:10-41 | Start partitions the pool it opens if and only if nothing was in the idle queue or borrowed |
| ConnPool.RestartPartitionsExactly | src/http/dbm/gateway_dbm.cpp:43-60 | after Stop and Start the pool is partitioned if and only if it held no connection when it was stopped |
| ConnPool.ClosedHandedOutExactly | src/http/dbm/gateway_dbm.cpp:43-60 | after Stop and Start some borrower can be handed a connection that Stop has closed if and only if the pool held a connection when it was stopped |
| ConnPool.WaitersAreKept | src/http/dbm/gateway_dbm.cpp:93-127 | a thread that waits for a connection waits, asleep or about to test again, through every run until its own next pass, and Stop and Start wake it |
| ConnPool.SpuriousIsHarmless | src/http/dbm/gateway_dbm.cpp:93-110 | a wait that ends by itself while nothing is idle and the pool is full leads back to the same state |
| ConnPool.StrandingExactly | src/http/dbm/gateway_dbm.cpp:93-127 | for every start size, cap and number of threads, a state with an idle connection, a sleeper and nobody woken is reachable if and only if the cap is at least two and there are at least two threads more than the cap |
| ConnPool.CanStrand | src/http/dbm/gateway_dbm.cpp:118-127 | a run to such a state from every such start |
| ConnPool.NeverStrands | src/http/dbm/gateway_dbm.cpp:118-127 | otherwise no run reaches one |
| ConnPool.DBM.Start | src/http/dbm/gateway_dbm.cpp:10-41 | succeeds exactly when not running, the size fits the cap and every connection can be made; then the new connections join the idle queue, whatever is in it; otherwise nothing changed |
| ConnPool.DBM.Stop | src/http/dbm/gateway_dbm.cpp:43-60 | forgets every connection while running, leaves the idle queue, and notifies; does nothing otherwise |
| ConnPool.DBM.GetIdleConn | src/http/dbm/gateway_dbm.cpp:93-116 | a pass under the latch is the Get step while running and returns none otherwise; what it returns is what the thread holds |
| ConnPool.DBM.ReturnIdleConn | src/http/dbm/gateway_dbm.cpp:118-127 | is the Return step; it notifies exactly when nothing was idle |
| PoolStop.StopWakesExactly | src/http/dbm/gateway_dbm.cpp:53-54 | along a run Stop, which takes no latch, leaves no thread waiting if and only if its notification never falls between a thread's test and its wait |
| PoolStop.LostUntilWake | src/http/dbm/gateway_dbm.cpp:93-110 | once Stop has notified, in every run exactly the threads leave that a returned connection or their own wait wakes, and no other joins them |
| PoolStop.StopCanBeMissed | src/http/dbm/gateway_dbm.cpp:53-54 | such a run |
| Sessions.TablesAreSound | src/server/session_manager.cpp:17-47 | in every reachable state an open session is in the temporary table exactly as long as AddSession has not run for it, each entry of the verified one is a session verified under that uid, no session is in both tables or under two uids, each makes at most one offline post, and a verified or closed session is in the temporary table only between the worker's SetVerified and AddSession for it |
| Sessions.ItemsKeepOrder | src/server/msg_handler.cpp:10-56 | in every run the worker takes the messages and offline posts of all sessions in the order in which they were posted |
| Sessions.LeftForGood | src/server/session_manager.cpp:17-47 | a session that has left the temporary table never comes back to it, in any continuation |
| Sessions.RefusedIsGone | src/server/msg_handler.cpp:115-121 | a rejected VERIFY of a session that somebody has begun to close takes it out of the temporary table for good, and the worker goes on |
| Sessions.ErasedIsGone | src/server/session.cpp:189-196 | unless the removal is one that leaves the session listed, or AddSession is still to run for it, a session is in neither table when its Close is over |
| Sessions.ClosedListedExactly | src/server/session.cpp:178-198 | along a run no closed session is in the verified table if and only if AddSession never runs for one that has finished closing while its uid is free, and no Close that read the session as unverified removes after the session was added |
| Sessions.EarlyVerifyIsCleanedUp | src/server/session.cpp:189-196 | if AddSession never runs after its session's Close has read the verified flag, neither happens |
| Sessions.InsertedLostExactly | src/server/session.cpp:178-196 | along a run every inserted session stays findable until its own removal if and only if no session closes while another open one holds its uid |
| Sessions.OpenLostExactly | src/server/session_manager.cpp:29-42 | along a run every open session for which AddSession has run is findable if and only if, besides, AddSession never finds the uid of an open session present |
| Sessions.WorkerLostExactly | src/server/msg_handler.cpp:97-121 | along a run the worker is never lost, that is, can always still take an item, if and only if it never comes to close, for a rejected VERIFY, a session that nobody has begun to close |
| Sessions.LostExactly | src/server/session.cpp:181-187 | in a reachable state no continuation lets the worker take another item exactly when it waits, inside its own Close, for the lock it holds |
| Sessions.WedgedForever | src/server/session.cpp:187 | from there on, in every interleaving, nothing is posted, taken, verified or added any more |
| Sessions.RejectedVerifyLosesWorker | src/server/msg_handler.cpp:115-121 | a run from the empty server: one connection, one rejected VERIFY, and the worker is lost |
| Sessions.LateVerifyListsClosed | src/server/msg_handler.cpp:123-124 | from any quiet state, a VERIFY processed after Close leaves a closed session in the table |
| Sessions.RacingVerifyListsClosed | src/server/session.cpp:191-194 | from any quiet state, a VERIFY processed between Close's reading of the flag and its removal leaves a closed session in the table although AddSession ran before Close was over |
| Sessions.SecondLoginIsNotFound | src/server/session_manager.cpp:41 | from any quiet state, a second login of a user is open, verified and not findable although nobody was evicted |
| Sessions.SecondLoginEvictsFirst | src/server/session.cpp:191-192 | from any quiet state, a second login of a user makes the first, open session unfindable when it closes |
| Sessions.SessionManager.AddTempSession | src/server/session_manager.cpp:22-27 | does to the tables what accepting a session does: the session joins the temporary ones and nothing else changes |
| Sessions.SessionManager.AddSession | src/server/session_manager.cpp:29-42 | does to the tables what the Add step does; an entry that exists stays |
| Sessions.SessionManager.RemoveSession | src/server/session_manager.cpp:17-20 | does to the tables what the removal of a Close that read the session as verified does |
| Sessions.SessionManager.RemoveTempSession | src/server/session_manager.cpp:44-47 | does to the tables what the removal of a Close that read the session as unverified does, verified by now or not, and what the worker does after a Close that was not the first |
| Snowflake.Pack | src/include/utils/snowflake_id.hpp:37 | the three fields decode back from the id |
| Snowflake.GeneratesExactly | src/include/utils/snowflake_id.hpp:14-38 | for stamps below 2^42: a new millisecond starts at sequence 0, the same one gives the next number without another reading, and after 4095 the first later reading, or none, decides |
| Snowflake.IncreasingExactly | src/include/utils/snowflake_id.hpp:14-38 | for stamps below 2^42 the ids of a run are strictly increasing, across sequence wrap and the spin loop, if and only if no call first reads a time before the last stamp |
| Snowflake.MonotoneClockIncreases | src/include/utils/snowflake_id.hpp:14-38 | under every non-decreasing clock any two ids of a new generator are in order and distinct |
| Snowflake.WorkersNeverCollide | src/include/utils/snowflake_id.hpp:11-12 | generators whose worker ids differ modulo 1024 never give the same id, under any clocks |
| Snowflake.StepBackRepeats | src/include/utils/snowflake_id.hpp:19-22 | a clock that steps back repeats an id |
| Snowflake.UIDGenerator.Next | src/include/utils/snowflake_id.hpp:14-38 | the method with its spin loop computes the id and the new state of the function |
| Timers.QuietWhileCancelled | src/common/timer.cpp:25-29 | no callback runs between Cancel and the next Activate, not even of a completion already queued |
| Timers.CancelledForGood | src/common/timer.cpp:12-29 | after any Cancel the callbacks are at most the completions already queued plus later Activate calls |
| Timers.UpdateNowEndsPeriod | src/include/server/online_status_upload.hpp:41-46 | after the cancel and activate of UpdateNow a periodic task has one callback left beyond those already queued, and that one does come |
| Timers.PeriodicExactly | src/common/timer.cpp:12-29 | an armed task can run any number of times by itself if and only if its automatic reset is set |
| Timers.TimedTask.Activate | src/common/timer.cpp:12-15 | is the Activate step: a new wait replaces the outstanding one |
| Timers.TimedTask.Cancel | src/common/timer.cpp:25-29 | is the Cancel step |
| Timers.TimedTask.OnExpired | src/common/timer.cpp:15-22 | the completion is the Fire step: callback, then re-arm |
| OnlineStatus.RemovalsAreConserved | src/include/server/online_status_upload.hpp:29-84 | over every interleaving every removal request is pending or in the one batch it was assigned to, and every removal in a batch was asked for |
| OnlineStatus.FateIsFinal | src/include/server/online_status_upload.hpp:49-60 | once in a batch, a request never moves to another |
| OnlineStatus.AddsAreConserved | src/include/server/online_status_upload.hpp:29-60 | over every interleaving every add is waiting, dropped by a later removal of its uid, or in the one batch it was assigned to, and every uid sent was added |
| OnlineStatus.AddFateIsFinal | src/include/server/online_status_upload.hpp:29-60 | once dropped or in a batch, an add stays so |
| OnlineStatus.PendingUntilLoad | src/include/server/online_status_upload.hpp:50-60 | a pending request stays pending through every run exactly until an upload moves the sets out |
| OnlineStatus.SkippedUploadsLoseNothing | src/include/server/online_status_upload.hpp:50-83 | whatever uploads were skipped as in progress, once a run has passed a moving out and an execution after it, every request pending before is in an issued batch |
| OnlineStatus.FillPipeline | src/include/server/online_status_upload.hpp:62-80 | on every store the commands refresh the sent keys and leave no erased one, also for uids in both lists, in any order of the sets |
| OnlineStatus.ReturningUserIsErased | src/include/server/online_status_upload.hpp:29-39 | a user who leaves and returns before an upload is in both lists and ends erased |
| OnlineStatus.OnlineStatusUploader.AddSession | src/include/server/online_status_upload.hpp:29-32 | is the AddSession step |
| OnlineStatus.OnlineStatusUploader.RemoveSession | src/include/server/online_status_upload.hpp:34-39 | is the RemoveSession step |
| OnlineStatus.OnlineStatusUploader.MoveOut | src/include/server/online_status_upload.hpp:54-59 | both sets are moved into the batch and left empty |
| OnlineStatus.OnlineStatusUploader.Execute | src/include/server/online_status_upload.hpp:61-83 | the batch is issued, its effect on any store is the intended one, and the flag is released |
| StatusTimer.NoRequestIsLeft | src/include/server/online_status_upload.hpp:41-84 | uploader, timer thread and worker together, in every reachable state: a pending removal has an upload, the rest of an UpdateNow or a callback of the active task still to take it, so when none of these is under way every request has been issued |
| StatusTimer.SkippedRequestIsIssued | src/include/server/online_status_upload.hpp:41-46 | a request that UpdateNow had to skip is in an issued batch once the callback left has run and no upload is in progress, whatever further requests and calls of UpdateNow come in between |
| StatusTimer.UploadsStayPeriodic | src/include/server/online_status_upload.hpp:15-25 | in every run without a removal request, whenever the timer thread waits, a callback of the active task is to come |
| StatusTimer.PeriodGoesOn | src/common/timer.cpp:12-22 | while the automatic reset is set, the timer thread alone issues the pending sets as one batch and arms the task again |
| StatusTimer.UpdateNowIssues | src/include/server/online_status_upload.hpp:34-46 | an UpdateNow that finds no upload in progress issues its request at once with all that is pending and leaves one callback of a task without automatic reset |
| StatusTimer.CompletionsAreConserved | src/common/timer.cpp:15-22 | every expired wait is a completion the timer thread handles once, with one callback at most |
| StatusTimer.CallsArePaidFor | src/common/timer.cpp:12-29 | without the automatic reset every later callback was to come already or is paid for by an UpdateNow |
| StatusTimer.CallbackIsNeverInVain | src/common/timer.cpp:53-55 | the one timer thread never starts a callback while a request is pending that an upload in progress would not take |
| StatusTimer.UpdateNowCanSkip | src/include/server/online_status_upload.hpp:50-53 | a run in which UpdateNow skips a request and leaves it one callback of a task that is no longer periodic |
| PasswordRecord.AcceptsExactly | src/http/dbm/security.cpp:9-48 | for every password, salt and positive iteration count, Verify on a record accepts an attempt exactly when the two derived keys agree (section 5.2 of RFC 8018, left open) |
| PasswordRecord.AcceptsAllExactly | src/http/dbm/security.cpp:36-47 | a parsed record is accepted for every password under every derivation if and only if its key field is empty; any other is refused to every password under some derivation |
| PasswordRecord.RecordParsesBack | src/http/dbm/security.cpp:22-36 | a record parses back to its iteration count, key and salt |
| PasswordRecord.HexRoundTrip | src/http/dbm/security.cpp:50-62 | Base16 (section 8 of RFC 4648) decodes to the bytes it encodes and never contains the separator |
| PasswordRecord.HexDecodesExactly | src/http/dbm/security.cpp:57-62 | a text decodes to some bytes if and only if it is their encoding, in capital or small letters |
| PasswordRecord.MalformedExactly | src/http/dbm/security.cpp:24-29 | a record is refused without throwing exactly when it has fewer than two separators |

## Left out

- Locks and threads: a call under one lock is atomic, and the steps of `SendPump`, `HandlerQueue`, `ClientQueue`, `ConnPool`, `PoolStop`, `Sessions`, `OnlineStatus`, `StatusTimer` and `Timers` are the atomic sections between which other threads may run. Memory ordering, also of the plain `verified_` flag, is not modelled.
- Shared pointers: sessions, connections, queued messages and timer tasks are named by numbers or values, so object lifetimes, aliasing of queued buffers and expired weak pointers are not modelled.
- LoadBalancers.LoadBalancer.UpdateServerLoad: promises nothing of calls made after one whose behaviour is undefined; the same holds for the other methods of that class.
- ChatRoutes.RebuildRemote: a queue entry without its fields and the lookup of the target session are not modelled.
- ConnPool.DBM.Stop: of the races of a Stop that takes no latch only the missed notification is modelled, in PoolStop; here it is one step. The pool size is unbounded.
- Snowflake.IncreasingExactly: is for stamps below 2^42, which the format reserves; the id is composed with sums instead of bit operations.
- PasswordRecord.AcceptsExactly: iteration counts that are not positive make PBKDF2 fail and are not modelled; the derivation itself and the random salt are open.
- StatusTimer.NoRequestIsLeft: the destruction of the uploader, which cancels the task, and an exception out of an upload are not modelled.
- OnlineStatus.FillPipeline: HEXPIRE is taken to refresh an existing key and to ignore a missing one; a pipeline that fails is not modelled.
- Sessions.TablesAreSound: StopSession and the session counts would only add easy members; a kick message is a Close like any other.
- HTTP server, JSON, gRPC services and clients, Redis and MySQL calls, the Redis lock helper, logging and the main files: plumbing around code that is not part of this repository.
- TimedUploader, IOContextPool, IOThreadPool, TimerTaskManager's list, CopyServerInfoList, MsgNode's deprecated constructors and Clear, the 16-bit fields: only easy members.
