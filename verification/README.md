# Verified model of the Cassandra driver core

The driver in `cpp-driver-master` keeps requests, connections, histograms, queues, replicas, names, digests,
pools, types, collections and query plans consistent under callbacks and threads that can come in any order.
This project models those components in Dafny, branch by branch, and proves what they keep.

| file | component |
|---|---|
| `RequestLifecycle.dfy`, `Connection.dfy` | requests on a connection: a state machine over the callbacks, and the class whose methods compute its steps |
| `RequestCallbacks.dfy`, `PendingRetries.dfy` | which callback a request gets and why, and the requests that a connection forgets when it closes |
| `ConnectionStates.dfy` | the state of a connection, its queue and its byte counter, by what each callback makes of them |
| `Phaser.dfy` | the writer/reader phaser behind the latency histograms, one atomic operation per step |
| `MpmcQueue.dfy` | the bounded multi-producer multi-consumer queue, one atomic operation per step |
| `ReplicationStrategy.dfy` | replica placement on the token ring |
| `HashTable.dfy`, `Strings.dfy` | the case-insensitive index of names, against a linear scan |
| `Md5.dfy` | MD5 over a message in pieces, against RFC 1321 |
| `PoolSpec.dfy`, `Pool.dfy` | the connection pool: a state machine and its class |
| `PoolGrowth.dfy` | when a pool gets connections, shuts down and serves the requests that wait |
| `PoolConnection.dfy` | the two state machines together: what connections do is what the pool allows |
| `CqlTypeSpec.dfy`, `CqlTypeParser.dfy` | the parser of CQL type names, its grammar and its class |
| `CollectionSpec.dfy`, `Collection.dfy` | collection bytes, the encoder and the iterators |
| `DcAwarePolicy.dfy`, `DcAwareHosts.dfy`, `LatencyAwarePolicy.dfy` | the query plans of two load balancing policies, and the lists of hosts that the first keeps |
| `Options.dfy` | a value that can be missing |

Where the source updates objects step by step, a class has its fields and every method is proved to compute a
function of the old state; the results are lemmas about these functions and about whole runs. Protocols of
threads are state machines whose steps are single loads, stores and compare-and-swaps under sequential
consistency. What comes from outside (sockets, the peer, timers, other threads, clocks) is chosen freely by
the steps' arguments. An assertion of the source is recorded when it fails instead of being assumed.

## Where the code falls short

Each of these is proved, with the condition under which the code does what it is for.

- The name table keeps its chain links when it grows, although its entries move. Growth is right exactly if no
  two names are equal up to case (`HashTable.CaseInsensitiveHashTable.Resize`).
- An assertion about the state of a connection can fail in two ways, and in no other: start-up completes on a
  connection that is already closing, or a request exceeds the high mark on one that is closing or not ready yet
  (`RequestLifecycle.AssertsExactlyOnFault`).
- Start-up that completes on a closing connection lowers the pool's counter of available connections, which is exact
  if and only if that never happens (`PoolSpec.AvailableWhenItShouldBe`). The counter can become negative
  (`PoolSpec.CounterAsserts`), and a pool with a ready connection can be unavailable (`PoolSpec.LateReadyHidesReady`).
- A connection can be ready with more than the high mark queued, exactly if its start-up completes with so much queued
  (`RequestLifecycle.BackPressure`).
- A prepare handler resets its request without looking whether the write callback is still to come; an assertion about
  a handler fails exactly then (`RequestLifecycle.ExactlyOnce`).
- A connection that closes forgets two kinds of requests that are not finished. One that waits for its write callback
  to be retried is forgotten exactly if the socket was never given that write, so none is as long as the peer answers
  only what it was sent (`PendingRetries.RetryDroppedIffUnsent`, `PendingRetries.AnsweredWhenSentIsNotDropped`). One
  that waits for its statement is left exactly if its prepare handler does not reset it, which happens when the answer
  to the preparation is neither a result nor an error (`PendingRetries.PreparationLeftIffNotReset`,
  prepare_handler.cpp:67-68).
- The histograms behind the latency metrics are added to the total at every snapshot and never cleared. The total is
  right exactly if no histogram is added again after it held something (`Phaser.TotalCountsOnce`); from the third
  snapshot on, values are counted more than once (`Phaser.ThirdSnapshotRepeats`).
- With several tokens per host, replicas are counted by token, so a quota can be filled by one host
  (`ReplicationStrategy.HostsChosenOnceExactly`). `SimpleStrategy` returns one replica for a factor of 0.
- Lengths and counts of collections are cut to their field without a check, an odd item of a map is not
  counted, and up to protocol version 2 a nested collection reads as empty (`CollectionSpec.CollectionRoundTrip`,
  `CollectionSpec.NestedReadsEmpty`).
- A quoted CQL type name keeps its quotes, and its case exactly if it was in lower case
  (`CqlTypeSpec.QuotesDoNotKeepCase`).
- A plan of the data-center policy can return remote hosts that `distance` says to ignore
  (`DcAwarePolicy.PlanAgreesWithDistances`). The policy pushes local hosts unseen: plans return a host twice exactly if
  an event adds a host that is in the local list to that list again or, if remote hosts are used, to the remote ones
  (`DcAwareHosts.PlansStayDistinct`), and a host can stay listed after its removal (`DcAwareHosts.RemovalForgets`).
  That such events do not come is left to the callers; the control connection does not report a host that it takes to
  be up (control_connection.cpp:915).
- A pool can refuse to lend a ready connection because a less busy one is closing (`PoolSpec.LendsUnlessPassedOver`).

## Model

| member | source | states |
|---|---|---|
| `RequestLifecycle.ExactlyOnce` | cpp-driver-master/src/connection.cpp:928-997 | In every interleaving of writes, write completions, frames with any stream id, timers, resets by prepare handlers, bad input and close: a request gets at most one of `on_set`, `on_error`, `on_timeout`, and an assertion about it fires iff it is reset before its write callback; after `on_close` it has had exactly one and its timer is stopped, and its reference is dropped unless it was reset so early |
| `RequestLifecycle.StateSaysWhere` | cpp-driver-master/src/handler.cpp:70-143 | In every reachable state of an open connection: in a pending write's list iff WRITING, TIMEOUT_WRITE_OUTSTANDING, READ_BEFORE_WRITE or RETRY_WRITE_OUTSTANDING, unless it was reset before its write callback; in the read list iff READING or TIMEOUT; timer runs iff WRITING or READING; some stream is reserved for it iff it can still get a response |
| `RequestLifecycle.HandlerAssertsOnEarlyReset` | cpp-driver-master/src/request_handler.cpp:72-77 | A single step makes an assertion about a handler fire iff it resets the handler in READ_BEFORE_WRITE |
| `RequestLifecycle.EarlyResetAsserts` | cpp-driver-master/src/prepare_handler.cpp:50-71 | Witness, from a new connection that is ready: the error that a statement is not prepared, whereupon the preparation is written, and the answer to the preparation both come before the write callbacks. (The reset at once of `request_handler.cpp:216-219` is for a preparation that finds no free stream; it asks for one just behind the release of the stream of the answered request.) |
| `RequestLifecycle.StreamsAreNotShared` | cpp-driver-master/src/connection.cpp:448-488 | Two different requests that can still get a response never have the same stream id, in any run |
| `RequestLifecycle.AssertsExactlyOnFault` | cpp-driver-master/src/connection.cpp:349-416 | In every run an assertion about the state of the connection fires iff start-up completes on a closing connection or a write takes the queued bytes over the high mark outside READY and OVERWHELMED |
| `RequestLifecycle.StartUpAfterErrorAsserts` | cpp-driver-master/src/connection.cpp:773-778 | Witness, from a new connection: a response for an unknown stream and then the one that completes start-up make an assertion fire and tell the listener of a loss of availability that it never had |
| `RequestLifecycle.LargeStartUpRequestAsserts` | cpp-driver-master/src/connection.cpp:275-283 | Witness, from a new connection: a first request over the high mark makes an assertion fire, and the connection is READY with more than the high mark queued |
| `RequestLifecycle.BackPressure` | cpp-driver-master/src/connection.cpp:986-996 | In every run, given low mark <= high mark: OVERWHELMED means at least the low mark queued and READY at most the high mark in all its states, iff start-up is never completed while more than the high mark is queued |
| `RequestLifecycle.SmallStartUpKeepsPressure` | cpp-driver-master/src/connection.cpp:275-283 | So the marks hold in all states of a run without a write over the high mark outside READY and OVERWHELMED |
| `RequestLifecycle.BytesAreQueued` | cpp-driver-master/src/connection.cpp:928-997 | In every run the byte counter is the sum of the queued writes and only the last write can be unflushed |
| `RequestLifecycle.NoticesBalance` | cpp-driver-master/src/connection.cpp:411-415 | In every run the listener has heard once more of availability than of its loss iff the connection is READY, and else as often, less one notice if start-up was completed on a closing connection |
| `RequestLifecycle.OnCloseFinal` | cpp-driver-master/src/connection.cpp:545-572 | `on_close` leaves every handler with exactly one callback and no timer, and without reference unless it was reset too early |
| `RequestLifecycle.OnCloseHandlers` | cpp-driver-master/src/connection.cpp:56-66 | `on_close` cleans exactly the handlers that are still in a list, each once, and leaves the others as they are |
| `PendingRetries.RetryDroppedIffUnsent` | cpp-driver-master/src/connection.cpp:545-572 | In every run up to the close callback: a request is left waiting for its write callback to be retried iff it had decided to be retried behind that callback and its write was never given to the socket |
| `PendingRetries.AnsweredWhenSentIsNotDropped` | cpp-driver-master/src/connection.cpp:974-978 | So no retry is dropped in a run whose frames answer a request only when its write has been given to the socket |
| `PendingRetries.UnsentRetryIsDropped` | cpp-driver-master/src/request_handler.cpp:249-253 | Witness, from a new connection that is ready: a request that is queued without a flush is answered all the same, decides to be retried, and the connection closes |
| `PendingRetries.PreparationLeftIffNotReset` | cpp-driver-master/src/prepare_handler.cpp:50-71 | In every run, closed or not: a request is left waiting for its statement iff it was told that the statement is not prepared and its prepare handler has not reset it, which it does for all answers but one of an opcode other than RESULT and ERROR |
| `RequestCallbacks.RightCallback` | cpp-driver-master/src/connection.cpp:418-493 | In every run and for every request: `on_set` has come iff a frame answered it while it waited for its write or its answer, `on_timeout` iff its timer fired or the close found it so waiting, `on_error` iff it could not be encoded or its write callback failed while it waited for that; at most one has come in all |
| `RequestCallbacks.HandlerTable` | cpp-driver-master/src/connection.cpp:418-493 | Each callback but the last: what the record of a handler is afterwards, state by state, if a frame answers it, its timer fires, it is reset or the write callback comes to it; all other handlers stay as they are |
| `RequestCallbacks.WrittenTable` | cpp-driver-master/src/connection.cpp:237-304 | A written request waits for its write with its stream, its timer and one reference; one that cannot be encoded has had `on_error` and is given up |
| `RequestCallbacks.ClosedTable` | cpp-driver-master/src/connection.cpp:56-66 | The close callback tells exactly the handlers in WRITING or READING that they have timed out, and leaves the states and the other counts as they are |
| `ConnectionStates.StepMoves` | cpp-driver-master/src/connection.cpp:349-416 | Each callback: closing is entered iff the user closes, input has no use or a write fails on a waiting request; OVERWHELMED iff a write goes over the high mark, and left for READY iff a completed write leaves less than the low mark or start-up completes; the counter changes by the bytes queued or completed |
| `ConnectionStates.ClosesExactlyForCause` | cpp-driver-master/src/connection.cpp:321-347 | In every run the connection is closing iff there was one of these causes |
| `ConnectionStates.JoinsQueue` | cpp-driver-master/src/connection.cpp:246-262 | A written request joins the queue of handlers behind all others |
| `ConnectionStates.FlushSends` | cpp-driver-master/src/connection.cpp:999-1014 | A flush hands over exactly the open write that has a request, and it is taken unless the connection is closing |
| `ConnectionStates.NothingWaits` | cpp-driver-master/src/connection.cpp:983-996 | Behind a flush, a completed write or a write that flushes, no request waits for a flush |
| `PendingRetries.RetryStep` | cpp-driver-master/src/connection.cpp:928-976 | A request starts to wait for its write callback or its statement only by an answer, and stops only by the write callback or the reset |
| `PendingRetries.SafeStep` | cpp-driver-master/src/connection.cpp:928-981 | A handler whose write the socket has taken, or that is past its write, stays so through every callback but the last |
| `RequestLifecycle.RunKeepsInv` | cpp-driver-master/src/connection.cpp:237-304 | The invariant about lists, timers, references, callbacks, streams and byte counts holds along every run up to close, and the final condition after it |
| `RequestLifecycle.StepKeepsInv` | cpp-driver-master/src/connection.cpp:418-493 | Each single callback keeps the invariant |
| `RequestLifecycle.WriteKeepsInv` | cpp-driver-master/src/connection.cpp:237-304 | `internal_write` keeps the invariant, also when encoding fails |
| `RequestLifecycle.ResponseKeepsInv` | cpp-driver-master/src/connection.cpp:437-489 | A frame keeps the invariant, an event with a negative stream id too; its stream is released once |
| `RequestLifecycle.TimerKeepsInv` | cpp-driver-master/src/connection.cpp:697-708 | The request timer keeps the invariant |
| `RequestLifecycle.ResetKeepsInv` | cpp-driver-master/src/request_handler.cpp:72-77 | A reset by a prepare handler keeps the invariant, also an early one |
| `RequestLifecycle.WriteRoundKeepsInv` | cpp-driver-master/src/connection.cpp:936-976 | One round of the loop in `on_write` keeps the invariant, for a good and for a failed write |
| `RequestLifecycle.WriteEndKeepsInv` | cpp-driver-master/src/connection.cpp:983-996 | The end of `on_write` keeps the invariant |
| `ConnectionObject.OnWriteIsRun` | cpp-driver-master/src/connection.cpp:928-997 | The whole `on_write` is a run of rounds followed by its end, so the results about runs cover it |
| `ConnectionObject.OnWriteKeepsInv` | cpp-driver-master/src/connection.cpp:928-997 | The whole `on_write` keeps the invariant |
| `ConnectionObject.Connection.InternalWrite` | cpp-driver-master/src/connection.cpp:237-304 | The whole new state after a write, for both results of encoding, and false without a change if no stream is free |
| `ConnectionObject.Connection.Consume` | cpp-driver-master/src/connection.cpp:437-489 | The whole new state after a frame, for each state of the handler, for an unknown stream and for a negative one; what that state is, callbacks included, say `RequestCallbacks.HandlerTable` and `ConnectionStates.StepMoves` |
| `ConnectionObject.Connection.OnWritten` | cpp-driver-master/src/connection.cpp:936-976 | The whole new state after one handler of a completed write |
| `ConnectionObject.Connection.WriteHandlers` | cpp-driver-master/src/connection.cpp:934-976 | The loop over the handlers of a completed write |
| `ConnectionObject.Connection.OnWrite` | cpp-driver-master/src/connection.cpp:928-997 | The whole new state after a completed write |
| `ConnectionObject.Connection.CleanupHandlers` | cpp-driver-master/src/connection.cpp:56-66 | The loop over the handlers of a list on close |
| `ConnectionObject.Connection.OnClosed` | cpp-driver-master/src/connection.cpp:545-572 | The whole new state after the close callback |
| `Phaser.ReaderIsAlone` | cpp-driver-master/src/metrics.hpp:425-430 | For any number of writers and any interleaving of single atomic steps: when the flip has returned, every writer that entered before it has left, and no writer records into the histogram that is read |
| `Phaser.SnapshotIsStable` | cpp-driver-master/src/metrics.hpp:425-430 | While the reader adds a histogram up, no step of any thread changes it |
| `Phaser.SpinEndsExactlyWhenDrained` | cpp-driver-master/src/metrics.hpp:382-397 | The test of the spin loop holds iff no writer of the old phase is left |
| `Phaser.RunKeepsInv` | cpp-driver-master/src/metrics.hpp:354-397 | Entered = ended + inside, per phase, along every run |
| `Phaser.StepKeepsInv` | cpp-driver-master/src/metrics.hpp:418-430 | Each atomic step of a writer or of the reader keeps the invariant |
| `Phaser.NothingIsLost` | cpp-driver-master/src/metrics.hpp:418-423 | In every run the two histograms together hold exactly the values that have been recorded |
| `Phaser.AddTakesRecorded` | cpp-driver-master/src/metrics.hpp:425-430 | In every run, when the flip has returned: the histogram to be read holds exactly the values recorded by writers that found it active, none of these has its value still to record, and `hdr_add` adds just these values |
| `Phaser.TotalCountsOnce` | cpp-driver-master/src/metrics.hpp:304-321 | In every run the total of the snapshots holds each value of the histograms as they were last added once, iff no histogram is added again that held something before; nothing is ever cleared |
| `Phaser.ThirdSnapshotRepeats` | cpp-driver-master/src/metrics.hpp:304-321 | Witness: one value is recorded, and after three snapshots the total holds it twice |
| `MpmcQueue.Delivery` | cpp-driver-master/src/mpmc_queue.hpp:52-125 | For any number of threads and any interleaving of single loads, stores and CASs: the dequeue with ticket p returns the value of the enqueue with ticket p |
| `MpmcQueue.Buffered` | cpp-driver-master/src/mpmc_queue.hpp:52-125 | The value of a ticket that nobody dequeues or writes is in its slot with its sequence number |
| `MpmcQueue.SlotExclusive` | cpp-driver-master/src/mpmc_queue.hpp:64-76 | Between claim and sequence store no other thread has the right to the same slot |
| `MpmcQueue.MatchSurvives` | cpp-driver-master/src/mpmc_queue.hpp:64-76 | A sequence number that matched when it was loaded still matches when the CAS succeeds |
| `MpmcQueue.Quiescent` | cpp-driver-master/src/mpmc_queue.hpp:52-125 | When no call is running: the values returned are those of the tickets below head, the rest are in the slots; nothing is lost, doubled or reordered |
| `MpmcQueue.ReturnsExactly` | cpp-driver-master/src/mpmc_queue.hpp:52-125 | In every run a call returns with its next step iff it has written or read its slot, or looks at the sequence number of a full or an empty one; a failed CAS never ends a call |
| `MpmcQueue.FullExactly` | cpp-driver-master/src/mpmc_queue.hpp:59-80 | In every run `enqueue` without a ticket gives up with its next step iff it looks at the slot of its position and the value of the round before has not been returned; a failed CAS goes on |
| `MpmcQueue.EmptyExactly` | cpp-driver-master/src/mpmc_queue.hpp:91-117 | In every run `dequeue` without a ticket gives up with its next step iff it looks at the slot of its position and that value has not been published |
| `MpmcQueue.EnqueueAlone` | cpp-driver-master/src/mpmc_queue.hpp:52-89 | After every run, whatever other threads have left undone: a thread that goes on alone through `enqueue` returns, and has queued its value iff there was room for its ticket |
| `MpmcQueue.DequeueAlone` | cpp-driver-master/src/mpmc_queue.hpp:91-125 | Likewise one that goes on alone through `dequeue` returns, with the next value iff that is published |
| `MpmcQueue.SameSlot` | cpp-driver-master/src/mpmc_queue.hpp:60-62 | Tickets less than a round apart that share a slot are equal |
| `MpmcQueue.RunKeepsInv` | cpp-driver-master/src/mpmc_queue.hpp:38-48 | The invariant, with head <= tail <= head + size and one owner per ticket, holds along every run |
| `MpmcQueue.StepKeepsInv` | cpp-driver-master/src/mpmc_queue.hpp:52-125 | Each single step of a thread keeps the invariant |
| `ReplicationStrategy.RacksInDcs` | cpp-driver-master/src/replication_strategy.cpp:84-95 | The racks of each data center, without empty names |
| `ReplicationStrategy.VisitHost` | cpp-driver-master/src/replication_strategy.cpp:119-153 | The body of the walk for one host, with the loop that drains the deferred hosts |
| `ReplicationStrategy.RotateAt` | cpp-driver-master/src/replication_strategy.cpp:108-118 | The walk begins at the token itself and goes once around: its k-th host is that of position (i + k) mod n |
| `ReplicationStrategy.ReplicasFrom` | cpp-driver-master/src/replication_strategy.cpp:104-154 | The walk with its early exit chooses what the walk around the whole ring chooses, beginning with the token's own host if that is wanted |
| `ReplicationStrategy.FirstReplica` | cpp-driver-master/src/replication_strategy.cpp:104-133 | For every ring and start: the first replica is the token's own host, if its data center has a positive factor |
| `ReplicationStrategy.ReplicasGrow` | cpp-driver-master/src/replication_strategy.cpp:130-152 | What the first positions of the walk give stays the beginning of the result, across data centers |
| `ReplicationStrategy.RacksAre` | cpp-driver-master/src/replication_strategy.cpp:84-95 | A rack counts for a data center iff one of its hosts names it |
| `ReplicationStrategy.PartsInOrder` | cpp-driver-master/src/replication_strategy.cpp:132-152 | First hosts of racks and deferred hosts keep the order of the ring among themselves |
| `ReplicationStrategy.TokensToReplicas` | cpp-driver-master/src/replication_strategy.cpp:97-158 | Every token gets the replicas of the walk from its own position, its own host first if that is wanted, and no other key is there |
| `ReplicationStrategy.SatisfiedStops` | cpp-driver-master/src/replication_strategy.cpp:109-109 | Once every count is at its factor, the rest of the ring adds nothing |
| `ReplicationStrategy.ChosenIsPrefixOfOrder` | cpp-driver-master/src/replication_strategy.cpp:109-154 | In each data center the walk chooses the first `rf` hosts of an order that is defined without quotas, early exit and other data centers |
| `ReplicationStrategy.OrderClosedForm` | cpp-driver-master/src/replication_strategy.cpp:132-152 | That order in closed form: up to the host that shows the last rack, the first host of each rack and then the deferred ones; then every host as it comes |
| `ReplicationStrategy.OrderIsPermutation` | cpp-driver-master/src/replication_strategy.cpp:132-152 | The order holds every host of the data center as often as the ring does |
| `ReplicationStrategy.OrderSpreads` | cpp-driver-master/src/replication_strategy.cpp:135-152 | When every host has a rack, the order shows an unseen rack each time until all have been seen |
| `ReplicationStrategy.ExactQuota` | cpp-driver-master/src/replication_strategy.cpp:97-158 | For every ring, start and data center: exactly min(rf, positions) replicas, from distinct positions; none without a factor |
| `ReplicationStrategy.RacksSpread` | cpp-driver-master/src/replication_strategy.cpp:129-152 | When every host has a rack, the replicas cover min(rf, racks) racks, and none comes twice before all have come |
| `ReplicationStrategy.HostsChosenOnce` | cpp-driver-master/src/replication_strategy.cpp:129-152 | A host with one token is chosen at most once; when rf takes the whole data center, no host is chosen twice iff none has two tokens |
| `ReplicationStrategy.HostsChosenOnceExactly` | cpp-driver-master/src/replication_strategy.cpp:129-152 | For every ring, start and factor: no host is chosen twice iff, among the hosts taken, those without a rack do not repeat and those taken behind the first hosts of the racks neither repeat nor are among these |
| `ReplicationStrategy.RackedHostsChosenOnce` | cpp-driver-master/src/replication_strategy.cpp:129-152 | When every host has a rack, a factor up to the number of racks takes no host twice, however many tokens it has |
| `ReplicationStrategy.OneHostFillsQuota` | cpp-driver-master/src/replication_strategy.cpp:129-131 | Witness: with two tokens a host fills a quota of two although there is a second host |
| `ReplicationStrategy.SimpleReplicasFrom` | cpp-driver-master/src/replication_strategy.cpp:170-180 | `SimpleStrategy` takes min(rf, positions) hosts, but one for a factor of 0: the k-th is that of position (i + k) mod n |
| `Strings.CaseTable` | cpp-driver-master/src/string_ref.hpp:60-64 | The 26 capitals go to their small letters and back, and all other characters stay |
| `Strings.IEquals` | cpp-driver-master/src/string_ref.hpp:60-64 | Comparing in upper case agrees with comparing in lower case, which is what is hashed, and means: equal lengths, and each two characters equal or one letter in its two cases |
| `HashTable.ScanFindsMatches` | cpp-driver-master/src/hash_table.hpp:146-160 | The linear scan that is the specification finds every match once, in order of insertion |
| `HashTable.NextPow2` | cpp-driver-master/src/utils.hpp:68-75 | A power of two from 2 on, not below the argument, and half of it is |
| `HashTable.ProbeStops` | cpp-driver-master/src/hash_table.hpp:195-208 | A probe meets an empty slot or its name before it comes round, because the index is larger than the number of entries |
| `HashTable.MissIsAbsent` | cpp-driver-master/src/hash_table.hpp:132-144 | A probe that ends at an empty slot has shown that the name is not there |
| `HashTable.StopAtFirst` | cpp-driver-master/src/hash_table.hpp:132-140 | A probe ends at the first entry of its name if there is one |
| `HashTable.FillKeepsIndexed` | cpp-driver-master/src/hash_table.hpp:193-208 | Filling the empty slot where the probe ended keeps every entry findable and adds the new one |
| `HashTable.LinkKeepsChained` | cpp-driver-master/src/hash_table.hpp:206-212 | Appending to a chain keeps every chain linking exactly the entries of one name, in order |
| `HashTable.ScanAlongChain` | cpp-driver-master/src/hash_table.hpp:146-160 | Following a chain link skips no match of the linear scan |
| `HashTable.NothingDangles` | cpp-driver-master/src/hash_table.hpp:234-241 | Without repeated names there are no links to be left dangling by growth |
| `HashTable.CaseInsensitiveHashTable.Reset` | cpp-driver-master/src/hash_table.hpp:216-226 | An empty index larger than the capacity; entries move iff the capacity grows |
| `HashTable.CaseInsensitiveHashTable.Probe` | cpp-driver-master/src/hash_table.hpp:195-203 | Ends where the specification of the probe says, or reports that it came round |
| `HashTable.CaseInsensitiveHashTable.Link` | cpp-driver-master/src/hash_table.hpp:209-213 | Links an entry behind its chain; a dangling link is noticed |
| `HashTable.CaseInsensitiveHashTable.AddIndex` | cpp-driver-master/src/hash_table.hpp:189-214 | Indexes one entry more; follows a dangling link if the first entry of the name has one |
| `HashTable.CaseInsensitiveHashTable.Reindex` | cpp-driver-master/src/hash_table.hpp:234-241 | Succeeds iff the names are pairwise different up to case |
| `HashTable.CaseInsensitiveHashTable.Resize` | cpp-driver-master/src/hash_table.hpp:228-232 | Growth keeps the table valid iff the names are pairwise different up to case; otherwise it follows a dangling link |
| `HashTable.CaseInsensitiveHashTable.Add` | cpp-driver-master/src/hash_table.hpp:165-178 | The name is appended and its index returned; it goes wrong iff the table is full and two names are equal up to case |
| `HashTable.CaseInsensitiveHashTable.SetEntries` | cpp-driver-master/src/hash_table.hpp:180-187 | All names are there, repeated ones too, because space is reserved first |
| `HashTable.LookupFinds` | cpp-driver-master/src/hash_table.hpp:122-163 | The linear scan that is the specification finds, once and in order, the names that are the same up to case, or for a name in quotes exactly those written between them |
| `HashTable.DistinctMeans` | cpp-driver-master/src/hash_table.hpp:234-241 | Distinct keys are names of which no two are the same up to case |
| `HashTable.CaseInsensitiveHashTable.GetIndices` | cpp-driver-master/src/hash_table.hpp:122-163 | Exactly what a linear scan finds: an index is in the result iff its name has the same length and letters up to case, or is what the quotes enclose; each once and in order |
| `HashTable.RepeatsThenGrow` | cpp-driver-master/src/hash_table.hpp:234-241 | Witness: 17 equal names in a table for 16 follow a dangling link |
| `Md5.F` | cpp-driver-master/src/md5.cpp:31-31 | The rewritten F is F of section 3.4 of RFC 1321 |
| `Md5.G` | cpp-driver-master/src/md5.cpp:32-32 | The rewritten G is G of section 3.4 of RFC 1321 |
| `Md5.PadFillsBlocks` | cpp-driver-master/src/md5.cpp:107-130 | The padding of sections 3.1 and 3.2 fills whole blocks with 9 to 72 bytes |
| `Md5.CounterAdds` | cpp-driver-master/src/md5.cpp:75-77 | The 29-bit counter with carry keeps the length modulo 2^61 for any added size |
| `Md5.BitCount` | cpp-driver-master/src/md5.cpp:122-130 | The eight bytes made from the two counters are the low-order 64 bits of the length in bits, low-order byte first |
| `Md5.PadInBlocks` | cpp-driver-master/src/md5.cpp:107-130 | What `final` puts into one or two blocks is the padding of the RFC |
| `Md5.OneBlock` | cpp-driver-master/src/md5.cpp:154-258 | One block is one call of the block function, and less than a block none |
| `Md5.PadBytes` | cpp-driver-master/src/md5.cpp:107-130 | Behind the message comes 0x80, then zeros, then the length in bits modulo 2^64, low-order byte first |
| `Md5.OutputSpells` | cpp-driver-master/src/md5.cpp:134-149 | The sixteen bytes of the result spell the four words, low-order bytes first (section 3.5 of RFC 1321) |
| `Md5.InitialBytes` | cpp-driver-master/src/md5.cpp:66-69 | The four words at the start are those of section 3.3 of RFC 1321 |
| `Md5.BlocksAppend` | cpp-driver-master/src/md5.cpp:154-251 | Hashing blocks in pieces is hashing them at once |
| `Md5.Md5.Body` | cpp-driver-master/src/md5.cpp:154-258 | The do-while loop applies the block function to every block in turn |
| `Md5.Md5.Update` | cpp-driver-master/src/md5.cpp:71-102 | The message grows by the data; counter, buffer and registers describe it again |
| `Md5.Md5.Absorb` | cpp-driver-master/src/md5.cpp:79-101 | The buffer holds the unprocessed tail and the registers the rest, whatever the sizes |
| `Md5.Md5.Finish` | cpp-driver-master/src/md5.cpp:105-132 | The registers hold the digest of the whole message |
| `Md5.Md5.Final` | cpp-driver-master/src/md5.cpp:104-152 | The one-shot digest of the message by sections 3.1 to 3.5 of RFC 1321; the object is cleared |
| `Md5.HashPieces` | cpp-driver-master/src/md5.cpp:71-152 | Chunk invariance: however a message is split into updates, the result is the digest of the whole |
| `PoolSpec.NotifiedOnce` | cpp-driver-master/src/pool.cpp:228-243 | In every run: one ready notice once the pool has entered and left CONNECTING, one closed notice once it is CLOSED, none otherwise |
| `PoolSpec.ClosesWithLastConnection` | cpp-driver-master/src/pool.cpp:237-243 | In every run: a closing pool is CLOSED iff it has no connection left; a connecting pool has one that is connecting |
| `PoolSpec.ConnectionsBounded` | cpp-driver-master/src/pool.cpp:245-276 | In every run connections and pending connections are at most max(core, max per host) |
| `PoolSpec.AvailableWhenItShouldBe` | cpp-driver-master/src/pool.cpp:155-195 | In every run: the counter is the number of READY connections less the number of connections that completed start-up when they were closing, so it is exact iff there was none; available implies a ready connection and no more waiting requests than the high mark; more ready connections than late ones and fewer requests than the low mark imply available |
| `PoolSpec.CounterAsserts` | cpp-driver-master/src/pool.cpp:336-338 | In every run the assertion that the counter is not negative fails iff at some time more connections had completed start-up when they were closing than were ready |
| `PoolSpec.OnTimeNeverAsserts` | cpp-driver-master/src/pool.cpp:336-338 | So it never fails in a run without such a connection |
| `PoolSpec.LateReadyAsserts` | cpp-driver-master/src/pool.cpp:336-338 | Witness, for a new pool of one connection: the counter becomes -1 and the assertion fails |
| `PoolSpec.LateReadyHidesReady` | cpp-driver-master/src/pool.cpp:329-344 | Witness, for a new pool of two connections: one is READY, no request waits and the pool is not available |
| `PoolSpec.ToldEveryChange` | cpp-driver-master/src/pool.cpp:181-195 | The worker is told of changes only, and what it was told last holds |
| `PoolSpec.EnabledBelowLowMark` | cpp-driver-master/src/pool.cpp:176-186 | Every step that makes a pool available leaves fewer requests waiting than the low mark |
| `PoolSpec.ClosingIsFinal` | cpp-driver-master/src/pool.cpp:245-259 | A closing pool stays so and gets no connection more |
| `PoolSpec.RunKeepsInv` | cpp-driver-master/src/pool.cpp:66-388 | The invariant holds along every run of calls, callbacks and timers |
| `PoolSpec.StepKeepsInv` | cpp-driver-master/src/pool.cpp:66-388 | Each call, callback and timer keeps the invariant |
| `PoolSpec.CloseKeepsInv` | cpp-driver-master/src/pool.cpp:91-122 | `close` keeps the invariant from every state |
| `PoolSpec.OnReadyKeepsInv` | cpp-driver-master/src/pool.cpp:287-295 | A connection that completes its start-up keeps the invariant, also one that is closing, which then counts as one late; whatever comes of writing the first waiting request |
| `PoolSpec.OnClosedKeepsInv` | cpp-driver-master/src/pool.cpp:297-327 | A connection that has closed keeps the invariant, for every cause |
| `PoolGrowth.GrowsExactly` | cpp-driver-master/src/pool.cpp:245-276 | Each step opens exactly: the core connections to connect, the missing core ones to reconnect, and on demand one, or as many as the core number if there is none, within the limits for creation and size; only close callbacks take connections |
| `PoolGrowth.ShutsExactly` | cpp-driver-master/src/pool.cpp:297-327 | Each step shuts the pool down iff it is `close` or a connection that closed for an error, unless that only took too long and there are others; then the reconnect timer is started. Critical failures and the timer are as described for every step |
| `PoolGrowth.PlacesExactly` | cpp-driver-master/src/pool.cpp:287-327 | Each step that opens nothing: where every connection is and in which state, and the flag against reconnecting |
| `PoolGrowth.RequestsInOrder` | cpp-driver-master/src/pool.cpp:143-179 | Waiting requests are served in order: a new one is the last, a ready connection takes the first, a timeout takes its own, and no other step changes them |
| `PoolGrowth.ShutsAndGrows` | cpp-driver-master/src/pool.cpp:66-388 | In every run a pool is closing iff something has shut it down, and it has all the connections opened but those closed |
| `PoolConnection.RunJoins` | cpp-driver-master/src/connection.cpp:349-416 | Whatever a new connection goes through up to its close callback is a run of its pool, by the steps that the pool allows; at its end the pool sees the connection as it is and its counter has changed by the notices of the connection |
| `PoolConnection.StepJoins` | cpp-driver-master/src/connection.cpp:388-415 | Each callback of a connection but the last is no step of its pool or one that the pool allows, after which the pool sees what the connection has become, and the counter has changed by its notice |
| `PoolConnection.ClosedJoins` | cpp-driver-master/src/pool.cpp:297-327 | The close callback of a connection comes when the pool allows it, and brings no notice |
| `PoolConnection.NoneStartsAgain` | cpp-driver-master/src/connection.cpp:773-778 | In every run a connection whose start-up is complete is not starting any more |
| `PoolSpec.LendsUnlessPassedOver` | cpp-driver-master/src/pool.cpp:278-285 | Nothing is lent iff every usable connection has one before it, in the order of pending requests and places, that is not usable |
| `PoolSpec.ReadyPassedOver` | cpp-driver-master/src/pool.cpp:278-285 | Witness, from a new pool of two connections: a ready one with a free stream is passed over because the less busy one is closing |
| `PoolObject.Pool.SpawnConnections` | cpp-driver-master/src/pool.cpp:72-74 | The loop that opens several connections |
| `PoolObject.Pool.CloseConnections` | cpp-driver-master/src/pool.cpp:109-113 | The loop over the connections lowers the counter by the ready ones, fails its assertion iff that makes it negative, and tells the worker nothing |
| `PoolObject.Pool.ClosePending` | cpp-driver-master/src/pool.cpp:114-118 | The same for the pending connections, which can be ready after an overwhelmed start-up |
| `PoolObject.Pool.FindLeastBusy` | cpp-driver-master/src/pool.cpp:278-285 | The first least busy connection, if it is ready and has a stream |
| `PoolObject.Pool.BorrowConnection` | cpp-driver-master/src/pool.cpp:124-141 | The loop that spawns, or the connection if the least busy one can be used |
| `CqlTypeSpec.ParseGivesMeaning` | cpp-driver-master/src/data_type_parser.cpp:67-146 | Every written type name, with any blanks, any case, plain or quoted names with any characters, and any number of parameters, is parsed to its meaning, or to null where its number of parameters is wrong |
| `CqlTypeSpec.RoundTrip` | cpp-driver-master/src/data_type_parser.cpp:67-146 | Printing any tree of native, list, set, map, non-empty tuple and user types with comma separators and parsing it gives the tree back |
| `CqlTypeSpec.BlanksAndCaseAreIgnored` | cpp-driver-master/src/data_type_parser.hpp:40-66 | Two ways to write a type that differ in blanks and case are parsed alike |
| `CqlTypeSpec.FrozenIsTransparent` | cpp-driver-master/src/data_type_parser.cpp:122-129 | Wrapping any parts in `frozen<>` does not change the result |
| `CqlTypeSpec.DriverNativesApart` | cpp-driver-master/src/data_type.cpp:408-430 | The driver's native type names meet what the round trip asks of them |
| `CqlTypeSpec.QuotesDoNotKeepCase` | cpp-driver-master/src/data_type_parser.cpp:75-76 | For every name: in quotes it is taken for a user type, its quotes never go, and its case survives iff it was in lower case |
| `CqlTypeSpec.NameTable` | cpp-driver-master/src/data_type_parser.cpp:79-146 | Every written type name by its first name: what it makes of its parameters, each parsed by itself, and null for every wrong number of them |
| `CqlTypeSpec.CharTable` | cpp-driver-master/src/data_type_parser.hpp:68-76 | The blanks are space, tab and line feed, and plain names have letters, digits and five more characters |
| `CqlTypeSpec.BlankIsNull` | cpp-driver-master/src/data_type_parser.cpp:141-143 | A string of blanks gives null |
| `CqlTypeSpec.LoopReads` | cpp-driver-master/src/data_type_parser.cpp:166-179 | The loop over parameters finds exactly the parameters of the grammar |
| `CqlTypeSpec.ScansText` | cpp-driver-master/src/data_type_parser.cpp:220-240 | The bracket scan passes over every written type name as a whole |
| `CqlTypeSpec.ScansName` | cpp-driver-master/src/data_type_parser.cpp:227-238 | The bracket scan passes over a quoted name, whatever brackets and commas it holds |
| `CqlTypeSpec.SkipBlankAndComma` | cpp-driver-master/src/data_type_parser.hpp:46-62 | It moves forward unless a character stops it, and stops at a comma only after one |
| `CqlTypeParser.Parser.SkipBlank` | cpp-driver-master/src/data_type_parser.hpp:40-44 | Cursor loop against its function |
| `CqlTypeParser.Parser.SkipBlankAndComma` | cpp-driver-master/src/data_type_parser.hpp:46-62 | Cursor loop against its function, with the flag for the comma |
| `CqlTypeParser.Parser.ReadQuoted` | cpp-driver-master/src/data_type_parser.cpp:184-196 | The loop over a quoted name, where two quotes stand for one |
| `CqlTypeParser.Parser.ReadNextIdentifier` | cpp-driver-master/src/data_type_parser.cpp:182-203 | The name and what is left |
| `CqlTypeParser.Parser.ReadBracketed` | cpp-driver-master/src/data_type_parser.cpp:217-239 | The bracket scan with quotes |
| `CqlTypeParser.Parser.ReadRawTypeParameters` | cpp-driver-master/src/data_type_parser.cpp:205-245 | The unparsed parameters of a parameter and what is left, or failure |
| `CqlTypeParser.Parser.ParseParameter` | cpp-driver-master/src/data_type_parser.cpp:166-179 | One round of the loop |
| `CqlTypeParser.Parser.ParseTypeParameters` | cpp-driver-master/src/data_type_parser.cpp:153-180 | All parameters |
| `CqlTypeParser.ParseType` | cpp-driver-master/src/data_type_parser.cpp:67-146 | The parser computes the function `Parse`, which is total, so it ends on every string |
| `CqlTypeParser.ParseTypes` | cpp-driver-master/src/data_type_parser.cpp:113-118 | The parameters are parsed in order |
| `CollectionSpec.FieldBytes` | cpp-driver-master/src/serialization.hpp:63-98 | The bytes on the wire: from version 3 on four, below it two, high-order byte first, with the number modulo 2^32 or 2^16 |
| `CollectionSpec.FieldReads` | cpp-driver-master/src/serialization.hpp:63-98 | What is read from any such bytes: a signed number from version 3 on, an unsigned one below it |
| `CollectionSpec.FieldsAreProper` | cpp-driver-master/src/serialization.hpp:63-98 | A number comes back from a field iff it is below 2^16 (16-bit) or 2^31 (32-bit) |
| `CollectionSpec.ItemRoundTrip` | cpp-driver-master/src/collection_iterator.cpp:30-47 | An item comes back iff its length fits the field |
| `CollectionSpec.ItemsRoundTrip` | cpp-driver-master/src/collection.cpp:189-207 | Items come back in order, up to the end of their bytes, iff the length of each fits |
| `CollectionSpec.CollectionRoundTrip` | cpp-driver-master/src/collection.cpp:147-177 | Encoding and iterating gives the items back and consumes exactly their bytes iff the count and all lengths fit and a map has no key without a value, for every protocol version |
| `CollectionSpec.ColumnRoundTrip` | cpp-driver-master/src/collection.cpp:155-177 | With the length in front, as a column is read, the items come back iff they are representable and the 32-bit length is read as positive, for every size |
| `CollectionSpec.NestedReadsEmpty` | cpp-driver-master/src/collection.cpp:147-153 | Up to version 2 a collection inside a collection comes back iff it is empty, for every size; with fewer than 2^16 items it reads as empty |
| `CollectionSpec.PairsAreValues` | cpp-driver-master/src/map_iterator.cpp:21-42 | The map iterator returns in pairs what the collection iterator returns one by one |
| `CollectionSpec.PairsRoundTrip` | cpp-driver-master/src/map_iterator.cpp:21-42 | Keys and values come back as pairs iff the length of each fits |
| `CollectionSpec.TupleRoundTrip` | cpp-driver-master/src/collection_iterator.cpp:49-65 | Elements of a tuple come back, null ones as null, iff the length of each of the others fits |
| `Collection.Collection.GetItemsSize` | cpp-driver-master/src/collection.cpp:179-187 | Exactly the number of bytes that are written |
| `Collection.Collection.EncodeItemsTo` | cpp-driver-master/src/collection.cpp:189-207 | Writes exactly the encoded items and nothing else, up to the end of the buffer |
| `Collection.Collection.EncodeInner` | cpp-driver-master/src/collection.cpp:147-153 | The bytes of the specification, always with wide fields |
| `Collection.Collection.EncodeWithLength` | cpp-driver-master/src/collection.cpp:155-177 | The bytes of the specification in a buffer of exactly that size |
| `Collection.CollectionIterator.Next` | cpp-driver-master/src/collection_iterator.cpp:21-47 | The next value and position, or false at the end |
| `Collection.CollectionIterator.Drain` | cpp-driver-master/src/collection_iterator.cpp:21-47 | Iterating to the end returns all values and stops behind them |
| `Collection.MapIterator.Next` | cpp-driver-master/src/map_iterator.cpp:21-42 | The next value and position, or false at the end |
| `Collection.MapIterator.Drain` | cpp-driver-master/src/map_iterator.cpp:21-42 | Iterating to the end returns all values and stops behind them |
| `Collection.TupleIterator.Next` | cpp-driver-master/src/collection_iterator.cpp:49-65 | The next value and position, or false at the end |
| `Collection.TupleIterator.Drain` | cpp-driver-master/src/collection_iterator.cpp:49-65 | Iterating to the end returns all values and stops behind them |
| `Collection.MapIterator.DecodePair` | cpp-driver-master/src/map_iterator.cpp:21-33 | A key and a value, one after the other |
| `Collection.EncodeThenIterate` | cpp-driver-master/src/collection_iterator.cpp:21-47 | Encoding and iterating a representable collection returns its items and ends at the end of the buffer |
| `DcAwarePolicy.QueryPlan.constructor` | cpp-driver-master/src/dc_aware_policy.cpp:144-152 | A new plan has not asked any host of the described order |
| `DcAwarePolicy.QueryPlan.NextHere` | cpp-driver-master/src/dc_aware_policy.cpp:155-161 | The loop over the hosts at hand: the first that is up when it is asked, and the hosts behind it are left |
| `DcAwarePolicy.QueryPlan.ComputeNext` | cpp-driver-master/src/dc_aware_policy.cpp:154-192 | Of the hosts that are left, in order, the first that is up when it is asked; the hosts behind it are left; none iff all were down, and then none is left. Each question is answered freely, so hosts can go up and down between and during the calls |
| `DcAwarePolicy.QueryPlan.NextRemote` | cpp-driver-master/src/dc_aware_policy.cpp:172-191 | The loop over the remote data centers |
| `DcAwarePolicy.DrainPlan` | cpp-driver-master/src/dc_aware_policy.cpp:154-192 | Asking until there is no host gives exactly the hosts of the described order that are up when they are asked |
| `DcAwarePolicy.LocalHostsFirst` | cpp-driver-master/src/dc_aware_policy.cpp:155-165 | Whatever the hosts answer: every local host is asked, as often as it is listed, before any remote one, so one that stays up is returned as often; a local consistency level can end the plan there |
| `DcAwarePolicy.NoHostTwice` | cpp-driver-master/src/dc_aware_policy.cpp:154-192 | No plan returns a host twice, wherever it starts, for every consistency level and all answers, iff the local list has no host twice and, if remote hosts are used, none that a remote data center has too |
| `DcAwarePolicy.RemoteQuota` | cpp-driver-master/src/dc_aware_policy.cpp:186-188 | No plan returns more hosts of a data center than are allowed of a remote one iff its hosts in the local list and those taken from its own list do not exceed that number |
| `DcAwarePolicy.AgreesWithDistances` | cpp-driver-master/src/dc_aware_policy.cpp:42-56 | For all answers: what a plan returns of a remote data center has no ignored host iff every host that it asked behind the first ones of the list was down |
| `DcAwarePolicy.PlanAgreesWithDistances` | cpp-driver-master/src/dc_aware_policy.cpp:42-56 | It has no ignored host whatever the hosts answer, and likewise if all are up, iff it takes nothing or everything or starts at the front of the list |
| `DcAwarePolicy.IgnoredIsReturned` | cpp-driver-master/src/dc_aware_policy.cpp:42-56 | Witness: with two remote hosts and one of them used, the second plan returns the ignored one |
| `DcAwarePolicy.DistanceMeans` | cpp-driver-master/src/dc_aware_policy.cpp:42-56 | A host is local iff there is no local data center or it has it, and remote iff its address is among the first hosts of its list |
| `DcAwarePolicy.AroundAt` | cpp-driver-master/src/dc_aware_policy.cpp:134-137 | The k-th host around a list is that of position (index + k) mod n |
| `DcAwarePolicy.AddHostIs` | cpp-driver-master/src/host.cpp:29-40 | The first host with the address is replaced in its place, or the host is appended |
| `DcAwarePolicy.RemoveHostIs` | cpp-driver-master/src/host.cpp:42-50 | The first host with the address goes, and nothing else |
| `DcAwarePolicy.AddToHosts` | cpp-driver-master/src/host.cpp:29-40 | Replaces the host with the same address or appends |
| `DcAwarePolicy.RemoveFromHosts` | cpp-driver-master/src/host.cpp:42-50 | Removes the first host with the address |
| `DcAwarePolicy.AddHostKeepsDistinct` | cpp-driver-master/src/host.cpp:29-40 | The list of a remote data center never holds an address twice |
| `DcAwarePolicy.RemoveUndoesAdd` | cpp-driver-master/src/host.cpp:42-50 | Adding a host and removing it changes nothing iff its address was not there |
| `DcAwarePolicy.LocalAddRepeats` | cpp-driver-master/src/dc_aware_policy.cpp:74-76 | The local list stays without repetition iff the host was not there, because it is pushed unseen |
| `DcAwareHosts.PlansStayDistinct` | cpp-driver-master/src/dc_aware_policy.cpp:65-95 | For every sequence of `on_add`, `on_remove`, `on_up` and `on_down`: no plan made at any time of it returns a host twice iff no event adds a host that is in the local list to the local list again or, if remote hosts are used, to the remote ones |
| `DcAwareHosts.PlansAreDistinct` | cpp-driver-master/src/dc_aware_policy.cpp:154-192 | After every sequence: no plan returns a host twice iff the local list has no host twice and, if remote hosts are used, none that a remote data center has too |
| `DcAwareHosts.QuotaIsKept` | cpp-driver-master/src/dc_aware_policy.cpp:186-188 | After every sequence: plans keep to the quota of every remote data center with a name, and to that of the hosts without data center iff those in the local list leave room for it |
| `DcAwareHosts.ReturnedTwice` | cpp-driver-master/src/dc_aware_policy.cpp:74-76 | Witness: `on_add` and then `on_up` of a host of the local data center, and every plan returns it twice |
| `DcAwareHosts.StepKeepsInv` | cpp-driver-master/src/dc_aware_policy.cpp:65-95 | Each event keeps the remote data centers sorted, apart and without repeated addresses, and the local list to hosts of the local data center or of none |
| `DcAwareHosts.AddedIsListed` | cpp-driver-master/src/dc_aware_policy.cpp:66-80 | An added host is listed where its data center belongs, and takes the place of no host but one with its address and data center |
| `DcAwareHosts.OthersStayListed` | cpp-driver-master/src/dc_aware_policy.cpp:82-89 | A removal brings no host and takes none with another address |
| `DcAwareHosts.LocalDcIsFirst` | cpp-driver-master/src/dc_aware_policy.cpp:66-73 | In every run the local data center is the configured one, or else the first that comes with a host |
| `DcAwareHosts.RemovalForgets` | cpp-driver-master/src/dc_aware_policy.cpp:80-87 | In every run a host is still listed after its removal iff it is in the local list and its data center is not the local one, or it stands there behind one with its address |
| `DcAwareHosts.NeverForgotten` | cpp-driver-master/src/dc_aware_policy.cpp:80-87 | Witness: a host without data center, added before any other, is still listed after its removal |
| `LatencyAwarePolicy.MinAverage` | cpp-driver-master/src/latency_aware_policy.cpp:107-130 | The least average among the hosts with enough recent measurements, if there is one |
| `LatencyAwarePolicy.FastestIsFast` | cpp-driver-master/src/latency_aware_policy.cpp:86-95 | Against the least average over the hosts: a host that has it is fast iff the threshold is at least one or it is zero, and otherwise no host with a known average is fast |
| `LatencyAwarePolicy.FastestComesFirst` | cpp-driver-master/src/latency_aware_policy.cpp:83-102 | In the plan of a child policy the hosts with the least average are in the fast part if the threshold is at least one or it is zero, and otherwise they and all others with a known average are in the deferred part |
| `LatencyAwarePolicy.DeferredExactly` | cpp-driver-master/src/latency_aware_policy.cpp:77-98 | A host of the child plan is deferred iff there is a minimum, its average is known, from enough measurements and recent, and exceeds the threshold times the minimum after the cast |
| `LatencyAwarePolicy.KeptIsPartition` | cpp-driver-master/src/latency_aware_policy.cpp:83-98 | Fast and deferred hosts together are the hosts of the child plan |
| `LatencyAwarePolicy.QueryPlan.ComputeNext` | cpp-driver-master/src/latency_aware_policy.cpp:77-105 | The next host of fast ones first, deferred ones last; whatever the verdicts of the calls, no host is lost or doubled, and at the end all have been returned |
| `LatencyAwarePolicy.DrainPlan` | cpp-driver-master/src/latency_aware_policy.cpp:77-105 | With unchanged verdicts the plan is the fast hosts and then the others, each in the child's order |

## Left out

- Phaser.ReaderIsAlone: assumes that fewer than 2^63 writers enter during one phase, so that an epoch does not change its sign by counting; the 64-bit overflow beyond that is not modelled.
- Phaser.AddTakesRecorded: a histogram is the multiset of its values; the buckets of hdr_histogram, the values that it does not take, and the histograms of the other threads are not modelled.
- MpmcQueue.Delivery: tickets are unbounded and memory is sequentially consistent; wrap-around of `size_t` and the relaxed orderings are not modelled.
- RequestLifecycle.ExactlyOnce: a frame is consumed as one step and a write made from inside a callback is a later step; re-entrance between them is not modelled. A prepare handler is a handler like any other and the reset it makes a step of its own, before the close callback if that is what ends it. What becomes of a request that is sent again while it is still in a write list, behind the failed assertion, is not modelled.
- PendingRetries.RetryDroppedIffUnsent: the event loop is taken to complete every write that the socket took, at the latest with an error before the close callback, as connection.cpp:545-572 relies on, and to refuse a write on a handle that is closing; the event loop itself is not modelled.
- PoolConnection.RunJoins: the completion of start-up is joined with the pool's step that writes no waiting request; a write that the pool makes at once is a step of its own behind it.
- Md5.HashPieces: holds for every block function; of the one in section 3.4 of RFC 1321 only F and G are modelled, not the 64 steps and their constants.
- HashTable.CaseInsensitiveHashTable.GetIndices: holds for every hash of the lower-case name; FNV-1a itself is not modelled. For a name that is one quote the release build's behaviour is modelled.
- HashTable.CaseInsensitiveHashTable.Add: an entry comes with no link, as all callers build it; what happens after a dangling link has been followed is not modelled.
- CollectionSpec.CollectionRoundTrip: reading outside of the buffer counts as failure; the overflow of twice the count of a map in 32 bits is not modelled.
- CqlTypeSpec.RoundTrip: uses a printer with ", " between parameters; the driver's own `to_string` writes no separator, so its output is no type name of the grammar from two parameters on.
- DcAwarePolicy.QueryPlan.ComputeNext: the lists of hosts are those at the start of the plan; changes of the remote lists during a plan and the wrap-around of its index are not modelled.
- The intrusive list, reference-counted pointers and copy-on-write wrappers are sequences, maps and counts.
- The stream manager is a partial map of streams to handlers; its bitmap is not modelled.
- A retried request counts as a new one. That a response finishes a request, makes it retry or makes it prepare its statement again is a free choice; retry policies, the order of hosts and `SetKeyspaceHandler` are not modelled.
- DcAwareHosts.PlansStayDistinct: a host is its address and data center; that a host changes its data center between two events is not modelled.
- Sockets, SSL, DNS, heartbeats, schema agreement, logging and metrics other than the phaser.
- The decay of latency averages is floating point; a latency is an argument of the plan.
- `DataTypeClassNameParser`, the creation of user-defined types and the decoding of schema metadata.
- `cluster.cpp`, the C interface and the web service on top of the driver: setters and handlers without an invariant of their own, apart from the order of the water marks that is assumed of the settings.
