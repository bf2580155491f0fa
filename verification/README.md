# libsel4osapi: the servers of the root task

A Dafny model of the four connected parts of libsel4osapi that change shared state, and proofs of
what they promise. Check the whole project with `dafny verify dfyconfig.toml`.

| part | files |
|---|---|
| list and object pool, on the heap and as two sequences | `List.dfy`, `Pool.dfy`, `PoolModel.dfy` |
| machine integers | `Words.dfy` |
| system clock: heap methods, values, runs, timing of one request, laws | `SysClock.dfy`, `ClockModel.dfy`, `ClockRun.dfy`, `ClockTiming.dfy`, `ClockLaws.dfy` |
| UDP receive: step system, invariants, laws, heap methods | `UdpModel.dfy`, `UdpData.dfy`, `UdpBuffer.dfy`, `UdpWake.dfy`, `UdpLaws.dfy`, `UdpTickets.dfy`, `UdpProgress.dfy`, `UdpCalls.dfy`, `UdpOversize.dfy`, `SocketServer.dfy` |
| UDP transmit: step system, invariants, calls, progress | `UdpTransmit.dfy`, `UdpTransmitLaws.dfy`, `UdpTransmitCalls.dfy`, `UdpTransmitProgress.dfy` |
| untyped memory: values, runs, loops over the root task's arrays | `UntypedModel.dfy`, `UntypedRun.dfy`, `RootTask.dfy` |

**List and pool.** `List.Node` and `Pool.Pool` are the intrusive doubly linked lists of the
original, with nullable links. Their methods are proved against two sequences of elements:
allocation moves the free head to the active tail, release moves an active element to the free tail.

**Clock.** The methods of `SysClock.SysClock` run on the heap pool and are tied to functions on the
sequence of timeouts (`AfterSet`, `AfterCancel`, `AfterTick`, `AfterSweep`). `ClockRun` interleaves
those functions freely, with the time increment (outside the mutex) and the sweep (inside it) as two
events, and keeps a history of requests and signals. Time is 32-bit and wraps. `ClockRun.Expected`
is the 32-bit law of a single request, and every run gives each request exactly its signals, with no
bound on the run. `ClockTiming` compares that law with the time that was asked for: a signal is on
time if and only if the clock does not wrap between the next sweep, the time due and the sweep that
should signal; otherwise it is early or missed. The closed forms follow where the clock has not
wrapped since the request.

**UDP receive.** `UdpModel` has one process with any number of sockets and client threads. Each
event is one step of the network callback (queue, then signal), of a receive thread (nine program
points; one segment of a packet is copied per step), or of a client (signal, semaphore, call, copy,
give back). A notification is one flag, so signals coalesce. A run is any sequence of events.
`SocketServer.SocketServer` does the critical sections on the heap pool, and each of its methods is
proved to take the socket from `k` to exactly what the step system says.

**UDP transmit.** The smaller sibling, with both memory copies split into steps of one byte.

**Untypeds.** Bytes are bytes: the number of untypeds and the pids in the table are stored modulo 256,
and sums of sizes are kept modulo 2^32. (The record stores indices in bytes too, but with the number
of untypeds in a byte no index is ever cut.) Where a property of ownership or arithmetic fails of the
code, the exact condition is proved.

Results that say something unexpected about the code:

- `UntypedRun.DeleteKeepsOwnership`, `UntypedRun.ExhaustionBreaksOwnership`: a process that got no
  untyped still returns one on deletion, untyped 0, under its owner.
- `UntypedModel.ReservationIsBounded`: with a limit of 511 blocks or more the reservation is not
  bounded by its limit once 512 blocks can be had, because the 32-bit sum wraps. Blocks are 8 MiB, so
  this takes an allocator with 4 GiB of untyped memory; below that it cannot occur.
- `UntypedModel.AllAreListedIff`: the number of reserved blocks is kept in a byte
  (`include/sel4osapi/system.h:113`), so from 256 blocks (2 GiB) on only its remainder is listed.
- `ClockTiming.NextSignal`, `ClockLaws.WrapExample`, `ClockLaws.MissedExample`: around a wrap of the
  clock a timeout can fire at the very next sweep, or not at all in that round, even where its sum
  stays below 2^32. `ClockLaws.LastMillisecond`: with an even clock period, one that waits for the
  last millisecond is never signalled.
- `UdpOversize.OversizeBlocks`, `UdpOversize.StoppedExample`: a datagram larger than the receive buffer
  stops its receive thread for good, and nothing accepted after it is delivered.
- `SysClock.SysClock.CancelTimeout`: the reply is always 1, because the flag `done` is never set
  (`src/clock.c:165`). `docs/design.md:456` says that it tells success from failure; the model
  follows the code.
- `UdpLaws.ClientGetsItsReply`: an empty datagram is delivered as an error, like no datagram.

## Model

| member | source | states |
|---|---|---|
| List.InsertNode | src/list.c:14-52 | the walk to the tail of a well-formed list terminates and gives the list with the node appended, both link directions intact |
| List.Unlink | src/list.c:64-94 | taking out any node, head, middle or tail, leaves the rest in order and well formed, and the node without links |
| List.ToArray | src/list.c:96-112 | the array gets the elements in list order up to its capacity, the rest of it is untouched |
| Pool.Pool.constructor | src/pool.c:14-47 | a new pool has no active element and exactly `size` free ones, each initialised, on a well-formed list |
| Pool.Pool.Alloc | src/pool.c:50-92 | fails exactly when all elements are active; otherwise the free head, initialised, becomes the active tail and nothing else moves |
| Pool.Pool.Free | src/pool.c:94-130 | releases exactly the first element the comparison matches, to the free tail, initialised; -1 and no change when none matches; with address comparison this is the release by identity of the value model |
| Pool.Pool.FindNode | src/pool.c:133-160 | the first active node that matches, or null when none does |
| Pool.Pool.GetCurrentSize | src/pool.c:162-166 | the counter always equals the length of the active list |
| PoolModel.RunConserves | src/pool.c:61-130 | after any sequence of allocations and releases the two lists partition exactly the original elements, without repetition, and their lengths add up to the size |
| PoolModel.TakeThenGive | src/pool.c:61-130 | releasing what was just allocated restores the active list and rotates the free list |
| SysClock.SysClock.InsertTimeout | src/clock.c:225-247 | the locked part of a set request appends the new timeout with 32-bit next event and replies its id and the current time, or fails when the pool is full, on the heap list |
| SysClock.SysClock.SetTimeout | src/clock.c:211-274 | a set request consumes the reserved slot whether or not it succeeds, keeps ids unique, and replies the id and the time, or the null id |
| ClockModel.SetRepliesTheId | src/clock.c:227-255 | an accepted caller is told a new non-null id and the insert time; the new timeout has its arguments and waits for that time plus the delay; cancelling that id undoes exactly this request |
| SysClock.SysClock.CancelLoop | src/clock.c:175-196 | the walk that goes on from a node that has just moved to the free list terminates and removes only the timeout with that id |
| SysClock.SysClock.CancelTimeout | src/clock.c:162-209 | a cancel request does to the schedule what `AfterCancel` says; the reply is always 1 |
| SysClock.SysClock.Release | src/pool.c:94-107 | the search by id finds the very element it was given, because ids are unique |
| SysClock.SysClock.SweepLoop | src/clock.c:315-345 | the sweep over the linked list, unlinking while it walks, equals one pass over the sequence of timeouts, and sends exactly the signals of that pass in scheduling order |
| SysClock.SysClock.Sweep | src/clock.c:311-349 | a locked sweep refines `AfterSweep` and keeps the clock well formed |
| SysClock.SysClock.Tick | src/clock.c:309 | the increment outside the mutex changes the 32-bit time and nothing else |
| ClockModel.CancelIsExact | src/clock.c:175-196 | cancel removes precisely the timeout with the id, or nothing if there is none, and keeps the others in order |
| ClockModel.SetKeepsWellFormed | src/clock.c:225-247 | a set request keeps ids distinct and non-null and its reserved slot unused |
| ClockModel.SweepKeepsWellFormed | src/clock.c:315-345 | a sweep invents no id, repeats none and never grows the schedule |
| ClockRun.SweepSignals | src/clock.c:322-326 | a sweep signals each id exactly once if its timeout is due, and not otherwise |
| ClockRun.SweepKeeps | src/clock.c:328-341 | per id: a due one-shot is gone, a due periodic is re-armed from now, all others are unchanged |
| ClockRun.RunKeeps | src/clock.c:149-354 | every reachable state of server and timer thread keeps the invariant of ids, places and schedules |
| ClockLaws.IdsStayUnique | src/clock.c:240-274 | in every reachable state active timeouts have distinct non-null ids, at most 100 of them, and the reserved slot is none of them |
| ClockLaws.SetIsRecorded | src/clock.c:211-256 | in any reachable state a set request is accepted exactly when fewer than 100 are live, recorded with the caller's arguments under the id replied, and can be cancelled by that id |
| ClockLaws.CancelTakesEffect | src/clock.c:175-196 | in any reachable state a cancel takes out the live request with that id, and changes nothing if there is none |
| ClockLaws.ClockGoesOn | src/clock.c:305-348 | the timer thread is never stuck: an increment moves the 32-bit clock by one period, and a sweep follows |
| ClockLaws.SignalsAreExpected | src/clock.c:239-345 | in every run, however often the clock wraps, an uncancelled request is signalled at exactly the moments the 32-bit law gives for it alone; a cancelled one at the first of them |
| ClockTiming.NextSignal | src/clock.c:309-331 | the next signal, first or re-armed, comes with the first sweep that has reached the time asked for if and only if the clock does not wrap in between; otherwise it is early, at the next sweep, or missed up to the sweep it should come with |
| ClockTiming.SumFits | src/clock.c:244-322 | when insert time plus timeout stays below 2^32, the request is on time if and only if the clock does not wrap before the sweep that should signal it, and missed otherwise |
| ClockTiming.EverSignalledIff | src/clock.c:322 | a request left alone is signalled some day if and only if it waits for at most 2^32 less the largest power of two in the clock period |
| ClockLaws.OneShotTiming | src/clock.c:239-342 | in every run an uncancelled one-shot is signalled at most once: by the first sweep after the request whose time reaches insert time plus timeout if the clock does not wrap in between, at the next sweep or not up to that one if it does; also for a request between increment and sweep |
| ClockLaws.OneShotLateness | src/clock.c:239-342 | that sweep is the first to reach the time asked for, late by [0, P) for a positive timeout, by 0 or exactly P for a zero one |
| ClockLaws.NeverSignalled | src/clock.c:322 | a request that waits for a time above what the clock shows is never signalled, in any run |
| ClockLaws.LastMillisecond | src/clock.c:322 | with any even clock period that happens to one that waits for 2^32 - 1 |
| ClockTiming.NoWrapClosedForm | src/clock.c:309-331 | while the clock and the next sum have not wrapped since the request, the 32-bit law is the closed form, none missing |
| ClockLaws.PeriodicTiming | src/clock.c:305-345 | under that condition an uncancelled periodic timeout has been signalled at first + k * gap and at no other time, none missed up to the last sweep, gap = P * max(1, ceil(period / P)) |
| ClockLaws.MetronomeGaps | src/clock.c:328-331 | any two of its signals are exactly as many gaps apart as there are signals between them |
| ClockLaws.EarlyIffWraps | src/clock.c:244 | a new timeout is due before its time at a sweep before the clock wraps if and only if insert time plus timeout reaches 2^32 |
| ClockLaws.RearmedEarlyIffWraps | src/clock.c:330 | the same for a periodic timeout that is re-armed |
| ClockLaws.WrapExample | src/clock.c:244 | a concrete clock at which a 10 ms timeout fires after 5 ms |
| ClockLaws.MissedExample | src/clock.c:322 | a concrete clock and a timeout whose sum is below 2^32 that neither the sweep before the wrap nor the one after it signals |
| ClockLaws.RequestsAreConserved | src/clock.c:175-341 | over any run every successful request is in exactly one of active, fired one-shot, cancelled |
| ClockLaws.SetFailsIffFull | src/clock.c:227-236 | a set request is refused exactly when 100 requests are active; otherwise its id is new |
| ClockLaws.NeverSignalledAgain | src/clock.c:317-345 | after a one-shot has fired or a timeout was cancelled its id is never signalled again, in any continuation |
| UdpLaws.RunKeeps | src/udp.c:24-698 | every reachable state of callback, receive threads and clients keeps the five invariants of data, exclusion, buffer, wakeups and tokens |
| UdpLaws.FifoExactlyOnce | src/udp.c:143-194 | the datagrams in a socket's replies, bytes, address and port, are a prefix of those accepted in arrival order, and what is missing is still queued |
| UdpLaws.AcceptedIffRoom | src/udp.c:31-43 | a datagram is accepted, at the end, exactly when a message is free; no other event changes what has been accepted, and replies are only ever added |
| UdpLaws.ClientGetsItsReply | src/udp.c:658-702 | what a receive call returned is what its own reply stood for: the bytes when they fit and are not empty, the error otherwise, with length, address and port |
| UdpCalls.BeginAsks | src/udp.c:631-658 | a thread outside a call can begin one on any socket for any positive length, and is then in that call with nothing received |
| UdpCalls.AsksWhatItBegan | src/udp.c:631-671 | over any run a client's socket and length are those of the last call it has begun |
| UdpCalls.DeliveredToACaller | src/udp.c:165-171 | whenever the replies of a socket grow, a client that was in a call on that socket is the one that holds the new reply |
| UdpCalls.CallIsAnswered | src/udp.c:165-171 | a call that leaves its receive thread has been given the next reply of its socket, or has been answered without data, which the socket counts |
| UdpCalls.ReplyStays | src/udp.c:665-702 | a client that holds a reply keeps it, through the copy and after, until it begins its own next call |
| UdpCalls.CallsReturn | src/udp.c:631-702 | every receive call that is over has a result, and none has one before |
| UdpCalls.ArrivalSignals | src/udp.c:31-47 | every arrival is followed by a signal, also when its packet is dropped |
| UdpCalls.SpuriousRepliesPerArrival | src/udp.c:137-142 | over any run a socket answers no more calls without data than arrival events it has had |
| UdpTickets.RepliesAreNotShared | src/udp.c:665-671 | two clients of a socket never hold the same reply |
| UdpTickets.EachReplyToOneCall | src/udp.c:665-671 | over any run each reply goes to one receive call: whoever holds it later is the same client in the same call |
| UdpLaws.OneWriter | src/udp.c:153-158 | while a receive thread writes the shared buffer no other thread writes it and no client reads it |
| UdpLaws.PacketsAreConserved | src/udp.c:36-43 | every packet handed over is queued in exactly one message and not freed, or queued nowhere and freed exactly once |
| UdpLaws.NoUseAfterFree | src/udp.c:143-195 | the receive thread reads and frees only a packet that has not been freed |
| UdpLaws.NoLostWakeup | src/udp.c:125-147 | as long as an accepted datagram is undelivered, the socket is signalled, a callback or the receive thread is committed to signal, or an awake client has yet to be served; or the thread was stopped by an oversized datagram |
| UdpLaws.EmptyReplyIsQuiet | src/udp.c:125-145 | at the top of the loop the stale count is at most the queue length; it is 0 whenever a call finds no message, so no signal follows |
| UdpLaws.SpuriousRepliesAreBounded | src/udp.c:137-142 | over any run a socket gives no more replies without data than datagrams arrived |
| UdpLaws.StopsOnlyOnOversize | src/udp.c:154-159 | the assertion on the packet length stops a thread only at a datagram larger than the buffer, and no such datagram is delivered |
| UdpProgress.StepProgress | src/udp.c:119-199 | every step the threads take by themselves reduces the work left, for any number of threads |
| UdpProgress.SchedulesEnd | src/udp.c:119-199 | without new packets and calls every schedule ends within a bound, whatever the interleaving |
| UdpProgress.ComesToRest | src/udp.c:119-199 | from every such state some schedule leads to rest |
| UdpProgress.NobodyWaitsInVain | src/udp.c:658-665 | where the threads rest and none was stopped, a client that still waits on a socket finds everything accepted there delivered |
| UdpProgress.ServedInTheEnd | src/udp.c:119-199 | from every reachable state whose accepted datagrams fit the buffer, whatever the schedule, at rest every socket on which a client still waits has delivered all that had been accepted |
| UdpOversize.ServedIffAllFit | src/udp.c:119-199 | the exact condition: where in the end a client waits on every socket, all sockets have delivered all they had accepted if and only if all of it fits the buffer |
| UdpOversize.OversizeBlocks | src/udp.c:154-159 | no continuation delivers a datagram larger than the buffer, nor anything accepted after it |
| UdpOversize.DeliveredFits | src/udp.c:154-171 | in every reachable state all that has been delivered fits the buffer |
| UdpOversize.WaitingBehindOversize | src/udp.c:159 | a client that waits in the end on a socket with such a datagram does so because a receive thread is stopped |
| UdpOversize.StoppedExample | src/udp.c:159 | a reachable state with a stopped thread: two bytes meet a buffer of one |
| UdpProgress.FittingDatagramsStopNobody | src/udp.c:159 | no thread is stopped if every accepted datagram fits the buffer |
| SocketServer.SocketServer.Receive | src/udp.c:31-44 | the locked part of the callback, on the heap pool, is the queueing step, dropping exactly when no message is free |
| SocketServer.SocketServer.LookForMessage | src/udp.c:135-147 | the locked snapshot of head and count is the step at program point `Called` |
| SocketServer.SocketServer.ReadMessage | src/udp.c:151-152 | reading the message outside the lock is the step at `Header` |
| SocketServer.SocketServer.ReturnMessage | src/udp.c:187-195 | freeing the message by its address releases the head of the queue, the step at `FreeMsg` |
| SocketServer.CopyChain | src/udp.c:153-159 | the copy loop leaves the concatenated segments at the start of the memory that begins with the buffer, also past its end, and the rest unchanged; the assertion behind it holds exactly when they fit the buffer |
| UdpData.StepKeepsData | src/udp.c:24-199 | queue, packets, stale count, registers and deliveries of all sockets agree after every step |
| UdpBuffer.StepKeepsExclusive | src/udp.c:661-696 | at most one client holds the semaphore, and a busy receive thread serves exactly the client that waits for it |
| UdpBuffer.StepKeepsBuffer | src/udp.c:153-158 | between take and give the buffer holds the packet of the call being served |
| UdpWake.StepKeepsWake | src/udp.c:125-147 | a queued message the receive thread does not answer for has prompted somebody, after every step |
| UdpTransmitLaws.RunKeeps | src/udp.c:50-103 | every reachable state of senders and transmit threads keeps exclusion, buffer contents and history |
| UdpTransmitLaws.SendsWhatWasAsked | src/udp.c:68-87 | payload, address, port and socket passed to the network stack are those of the sender being served |
| UdpTransmitLaws.PacketsAreTheSends | src/udp.c:82-92 | over any run the packets sent are, in order, those of the sends recorded as sent; no send has two outcomes |
| UdpTransmitLaws.SenderLearnsItsOutcome | src/udp.c:608-627 | a sender is told the outcome of its own send; one that was not sent reports memory exhaustion |
| UdpTransmitCalls.BeginAsks | src/udp.c:608-615 | a thread that is not sending can begin to send any message smaller than the buffer on any socket, and then asks for exactly that |
| UdpTransmitCalls.AsksWhatItBegan | src/udp.c:600-621 | over any run what a thread asks for is what it gave to the last send it has begun |
| UdpTransmitCalls.AllocateGoesOn | src/udp.c:83-84 | where a packet buffer is obtained nothing is decided and the thread goes on to copy |
| UdpTransmitCalls.SendTransmits | src/udp.c:86-97 | handing over appends exactly the caller's packet and records its send as sent, with the stack's own result |
| UdpTransmitCalls.OutcomesAreTheDecisions | src/udp.c:83-97 | over any run as many sends fail for want of a buffer as the stack had none, and as many are sent as it was given packets |
| UdpTransmitCalls.ServiceSends | src/udp.c:82-101 | a call that has been taken, given a buffer, copied and handed over appends exactly one packet, what its caller asked for |
| UdpTransmitCalls.ServiceSendsWhatWasGiven | src/udp.c:68-101 | from the start: that packet has the message, address, port and socket of the caller's last send event |
| UdpTransmitCalls.AnswerTells | src/udp.c:97-101 | the caller is answered with the result recorded for its send |
| UdpTransmitProgress.SchedulesEnd | src/udp.c:55-102 | without new sends every schedule ends within a bound |
| UdpTransmitProgress.EverySendIsAnswered | src/udp.c:613-627 | where the threads rest every sender is outside and has been told how its last send ended |
| UdpTransmitLaws.NeverTruncated | src/udp.c:74-78 | no call reaches the truncating branch, and the thread works with the sender's full length |
| UntypedModel.FittingIsShortest | src/process.c:48-72 | with unbounded sums the first-fit loop takes the shortest index-ordered prefix of the free untypeds that reaches the quota, or all; without its last it has less than the quota |
| UntypedModel.TakesShortestPrefix | src/process.c:48-72 | the 32-bit loop takes that prefix if and only if it amounts to less than 2^32 or nothing is left; in particular when quota plus one block fits 32 bits |
| UntypedModel.SizeDoubles | src/process.c:70 | sizes are in bytes: 1 for no bits, doubled by every bit, 0x80_0000 for a block |
| UntypedModel.TakesAsManyAsNeeded | src/process.c:48-72 | of 8 MiB blocks create takes the lesser of the number that are free and the quota divided by 0x80_0000, rounded up |
| UntypedModel.RecordReturnsWhatWasTaken | src/process.c:62-70 | end - start + 1 is the number taken, and the record gives back those indices, if and only if some were taken |
| UntypedModel.HandOverIsExact | src/system.c:183-196 | the child pairs slot start + i with the size of the i-th untyped taken, if and only if it got one; otherwise it adds the null capability |
| UntypedModel.DeleteUndoesCreate | src/process.c:341-347 | deleting right after creating restores the table if and only if an untyped was taken or untyped 0 was free |
| UntypedModel.ReservationIsBounded | src/util.c:34-43 | n * 2^23 <= bytes if and only if min(max, what the allocator has) < 512 or bytes < 511 * 2^23 |
| UntypedModel.ReservationIsMaximal | src/util.c:34-43 | n <= max, and the loop ends early only when the next block would exceed the limit or the allocator refuses |
| UntypedModel.AllAreListedIff | src/system.c:336-350 | all blocks reserved for user processes are counted if and only if there are fewer than 256, and the initialisation goes on if and only if their number is no multiple of 256 |
| UntypedModel.ListedExample | src/system.c:336 | with 300 blocks 44 are counted, with 256 none |
| UntypedRun.StepShape | src/process.c:194-199 | creation is possible exactly while there are process structures, deletion while the process lives; neither touches other records or the settings |
| UntypedRun.CreateKeepsOwnership | src/process.c:48-72 | create keeps table and records in agreement if and only if nothing was taken or the pid fits a byte |
| UntypedRun.DeleteKeepsOwnership | src/process.c:341-347 | delete keeps them in agreement if and only if the process got an untyped or untyped 0 is free |
| UntypedRun.RunKeepsOwnership | src/process.c:48-347 | any run of creates and deletes that meet these two conditions keeps table and records in agreement |
| UntypedRun.TableIsExact | src/process.c:48-347 | in every state so reached from the initialised root task the table names pid p at i exactly when p is alive and has i in its record, and i is free exactly when no live process has it |
| UntypedRun.OneOwner | src/process.c:56-66 | in every such state no untyped has two live owners |
| UntypedRun.DeleteReturnsWhatCreateTook | src/process.c:341-347 | delete clears exactly the cells that the same process's create took, whatever was created and deleted in between |
| UntypedRun.ExhaustionBreaksOwnership | src/process.c:341-347 | from every exhausted state, create, delete, create leaves untyped 0 with two live owners |
| RootTask.AllocateUntypeds | src/util.c:30-44 | the loop with its 32-bit sum fills the array with exactly `Reserved` objects, the i-th being the i-th the allocator gives, each of 2^23 bytes, and leaves the rest |
| RootTask.ObjectsAreDistinct | src/util.c:37-41 | an allocator that gives no object twice has each listed once |
| RootTask.RootTask.constructor | src/system.c:336-355 | after initialisation as many untypeds as the byte counts, the first ones reserved, are free and listed, each with its own capability and its size of 2^23 bytes |
| RootTask.RootTask.AssignUntypeds | src/process.c:48-71 | the loop over table and record, in place, marks and records exactly the untypeds that first fit takes, and puts the capability of each into its slot |
| RootTask.RootTask.ReleaseUntypeds | src/process.c:341-347 | the loop of delete clears exactly the cells that the record returns |
| RootTask.ProcessEnv.Bootstrap | src/system.c:183-196 | the child's loop adds exactly the slots and sizes of the hand-over |

## Left out

- The kernel, vka, vspace, allocman, sel4utils and lwIP: only fresh slots, consecutive slots minted into a process, a coalescing notification, call and reply as a rendezvous, packets as chains of byte sequences, and "the allocator still has these objects" are used; they are parameters or events.
- Mutexes and semaphores are atomic lock/unlock and wait/post; a locked section is one step. The mutex of a network interface is not modelled: the packet is freed in one step, and the transmit path of one process does not contend with itself.
- A word is 32 bits, as on the platforms the repository is configured for.
- ClockLaws.PeriodicTiming: the closed form is stated while neither the clock nor the next sum has wrapped since the request; `SignalsAreExpected` and `NextSignal` say what happens otherwise, signal by signal.
- The revocation of capabilities in cancel, sweep and process delete, and the callback object a client allocates before a set request.
- The time returned by `sel4osapi_sysclock_wait_for_timeout` and the status of a cancel: neither supports a guarantee.
- In the step system a receive thread stops at the first segment that does not fit; the original writes past the buffer first, as `CopyChain` shows, and what that does to the memory behind it is not modelled.
- The initialisation stops when the byte that counts the untypeds is 0; `RootTask.RootTask.constructor` then describes empty tables, and runs start from one untyped or more.
- UdpLaws.NoLostWakeup: one process at a time, as the receive buffer and its semaphore are per process; a socket whose thread was stopped by the assertion is named in the statement.
- UntypedRun.RunKeepsOwnership: a process is deleted once, while alive; a second delete reads freed memory in the original.
- Creation and binding of sockets in the UDP stack thread: one thread serves these requests one after the other, its lookups keep the value of an earlier request when they fail, and CONNECT stores nothing. The receive and transmit paths begin with sockets that are bound.
- Network bring-up, serial I/O, logging, memory wrappers, threads and fault handlers.
- The first-in last-out variant of the list, which is not compiled.
