# dwhbll: verified models

Dafny models of the parts of the dwhbll library whose correctness is not seen
from one function alone, and proofs about them. `dafny verify dfyconfig.toml`
checks everything.

- **Lock-free structures.** `MpscModel`, `SpscModel` and `RecyclingStack` are
  transition systems: each atomic load, store, compare-and-swap and plain data
  access is one step, and every thread has its own program counter and locals.
  `BoundedMpscQueue`, `BoundedSpscQueue` and `RecyclingConcurrentStack` are the
  objects themselves, their fields changed in place. `RecyclingStackLimits`
  proves for which numbers of threads the stack is safe.
- **Coroutine reactor.** `JobForest`, `SortedList`, `ReactorModel`,
  `ReactorRuns` and `ReactorObject`. A resumed coroutine is an arbitrary finite list of the calls
  it makes before it suspends again; a step is one turn of a loop of `run`.
- **JSON.** `JsonText` holds printer and parser as functions. `JsonRoundTrip`
  and `JsonReparse` join them, `JsonGrammar` proves which texts the parser takes
  and with what value, `JsonEscapes` what escapes stand for, `JsonLayout` what
  the printed lines look like, and `JsonTrailing` what becomes of text behind a
  value. `JsonParser` is the object with its index and the loops, `JsonIntegers`
  a number format that meets the assumptions about the standard library's
  conversions.
- **Streams.** `StreamModel`, `StreamMeaning` and `Streams`: what the calls of a
  reader hand over, and the cached reader against the plain one.
- **DNS wire format** (RFC 1035 sections 4.1.1, 4.1.2 and 4.1.4). `DnsModel`,
  `DnsRoundTrip`, `DnsWire` and `Dns`.
- **Pool and ring.** `PoolModel`, `MemoryPool` and `Ring`.
- **SHA-1 and ARC4.** `Sha1Spec` is FIPS 180-4 (sections 4.1.1, 4.2.1, 5.1.1,
  5.3.1 and 6.1.2), `Sha1Example` its digest of "abc", `Sha1` the class;
  `Arc4Model` and `Arc4`.
- **C tokenizer.** `TokenizeModel`, `TokenizeRebuild`, `TokenizeOperators`,
  `KeywordTable`, `TokenizeWords`, `TokenizeKinds`, `TokenizeEnds` and
  `Tokenize`.
- **Matrix product.** `MatmulModel` and `Matmul`.

In each part the object or the loops are proved equal to functions, or to the
steps of a transition system, and the laws are proved about those.

Where the code does not do what its own documentation or names promise, the
model follows the code. There is then a lemma with a concrete input, and the
exact condition under which the promise is kept:

- a failed `put` of the MPSC queue uses up its ticket, so a later `put` that
  returns true can be lost (`FailedPutLosesLaterPut`, `DeliverableIffNoneBurnedBefore`);
- the first N puts of either queue construct over the objects that its array
  was built with, and the array's destructor meets objects that a get has
  destroyed (`FirstPutConstructsOverLive`, `CellsAreExclusive`,
  `SlotsAreExclusive`, `DestructorFindsObjectsIff`);
- the recycling stack is safe with one pusher and one popper and no more
  (`SafeExactlyWhen`);
- a cached reader that ran into the end can read bytes that are not there
  (`ReadsPastTheEnd`, `AgreementSurvivesEndIff`);
- a full ring whose head is away from the start is copied from beyond its array
  (`ReachesWrapped`, `CopyInBoundsIff`; `StrictTestKeepsOrder` is the repair);
- SHA-1 adds a block when the length is 55 modulo 64 (`PaddingIsFipsIff`);
- a compression pointer to itself keeps `Domain::unpack` going for ever
  (`SelfPointerNeverEnds`, `EndsIffFragmentsDiffer`), and the reserved lengths
  64 to 191 are read as labels (`ReservedLengthReads`, `ZeroEndedNameReads`);
- a `skip` whose sum with the position leaves 64 bits goes back
  (`SkipGoesBack`, `SkipIff`);
- the pool grows while slots are free, and counts each growth as a whole block
  in use (`FirstAcquireGrows`, `GrowsWithSlotsFree`, `UsedSizeIsLiveIff`);
- the tokenizer drops the character after a lone `#` (`SecondHashDropped`,
  `TokensRebuildIff`);
- it reads `]=`, `]}`, `=>` and 24 more pairs as operators, because comparing
  hashes is not comparing strings (`BracketEqualsIsOneOperator`,
  `TwoOperatorIff`, `OperatorsAreOperatorsIff`), and `Hg`, `Hot` and 8 more
  short words as keywords (`ShortWordIff`);
- its comments and literals can run on past their end, or end too early
  (`LineBreakHidesClose`, `EscapeBeforeQuotePassesIt`, `EscapedQuoteCloses`,
  `CommentEndsIff`, `LiteralEndsIff`, `OpenLiteralRunsOutIff`);
- the JSON parser takes texts that RFC 8259 does not have: any text behind a
  value, a leading zero behind a minus sign, raw control characters
  (`TextAfterValueIgnored`, `RestIsIgnored`, `LeadingZeroAfterMinus`,
  `RawControlAccepted`; `ReadIffTree` says exactly which it takes), and an
  escaped surrogate pair does not become UTF-8 (`SurrogateIsNotUtf8`,
  `Utf8Iff`).

## Model

| member | source | states |
|---|---|---|
| `MpscModel.StepInv` | include/dwhbll/concurrency/queues/bounded_mpsc_queue.h:43-113 | every step of any producer or of the consumer keeps the per-cell sequence protocol: each ticket of the current lap is free, being written by its own holder, or published with that holder's value |
| `MpscModel.RunInv` | include/dwhbll/concurrency/queues/bounded_mpsc_queue.h:33-113 | the protocol holds after every interleaving of any number of producers with the consumer |
| `MpscModel.StepRefinesFifo` | include/dwhbll/concurrency/queues/bounded_mpsc_queue.h:43-113 | each step is nothing, an enqueue at the back or a dequeue of the front of an abstract FIFO |
| `MpscModel.RunTakesInTicketOrder` | include/dwhbll/concurrency/queues/bounded_mpsc_queue.h:43-113 | in every interleaving the k-th value taken is the value put by the holder of ticket k: nothing is lost, doubled, reordered or overwritten |
| `MpscModel.QuietQueueHoldsPending` | include/dwhbll/concurrency/queues/bounded_mpsc_queue.h:43-89 | when every put has returned, the cells hold exactly the values put and not yet taken, in order |
| `MpscModel.CellsAreExclusive` | include/dwhbll/concurrency/queues/bounded_mpsc_queue.h:22-86 | no two threads are inside one cell at once; a get moves out of and destroys only its own ticket's object; a put constructs over a live object if and only if its ticket is below N, and then over the array's default object, never over a value |
| `MpscModel.FirstPutConstructsOverLive` | include/dwhbll/concurrency/queues/bounded_mpsc_queue.h:30-66 | a concrete run: the first put on a queue of two constructs over the cell's default-constructed object |
| `MpscModel.DestructorFindsObjectsIff` | include/dwhbll/concurrency/queues/bounded_mpsc_queue.h:22-30 | on a queue at rest, every cell still holds an object for the array's destructor if and only if each ticket of the lap from head on is of the first lap, or was put and not given up; where no put gave up a ticket, if and only if nothing was taken or the queue is full |
| `MpscModel.HeadProgressesIffNotBurned` | include/dwhbll/concurrency/queues/bounded_mpsc_queue.h:51-64 | while head < tail the ticket the consumer waits for is published, or its holder is past its wait or finds its turn, if and only if that ticket was not given up: without FailOnFull some step always moves the head ticket on |
| `MpscModel.DeliverableIffNoneBurnedBefore` | include/dwhbll/concurrency/queues/bounded_mpsc_queue.h:44-89 | a ticket's value can still be taken by some run if and only if neither that ticket nor an earlier one was given up; so without FailOnFull every value can be, and otherwise a put that returned true is lost exactly behind a ticket given up |
| `MpscModel.BlockedIffLapAhead` | include/dwhbll/concurrency/queues/bounded_mpsc_queue.h:52-63 | a waiting put is blocked exactly when its ticket is a whole lap or more ahead of the consumer |
| `MpscModel.FailsIffLapAhead` | include/dwhbll/concurrency/queues/bounded_mpsc_queue.h:59-61 | with FailOnFull a put returns false exactly when its probe finds it a whole lap or more ahead |
| `MpscModel.BurnedTicketStopsTheQueue` | include/dwhbll/concurrency/queues/bounded_mpsc_queue.h:45-61 | once a ticket was drawn and given up, no run ever takes that ticket or a later one |
| `MpscModel.FailedPutLosesLaterPut` | include/dwhbll/concurrency/queues/bounded_mpsc_queue.h:44-71 | a concrete run: with FailOnFull a later put returns true and its value is never taken |
| `MpscModel.WholePut` | include/dwhbll/concurrency/queues/bounded_mpsc_queue.h:44-71 | a put with room in the buffer runs to its end without waiting and publishes its value |
| `MpscModel.WholeGet` | include/dwhbll/concurrency/queues/bounded_mpsc_queue.h:73-89 | a get that finds its cell published returns that value and frees the cell for the ticket a lap later |
| `Bits.MaskIsMod` | include/dwhbll/concurrency/queues/bounded_mpsc_queue.h:47-74 | masking with N - 1 is reduction modulo N for every power of two N |
| `Bits.SlotsDistinct` | include/dwhbll/concurrency/queues/bounded_mpsc_queue.h:47-47 | two tickets less than a lap apart never share a cell |
| `Bits.SlotNextLap` | include/dwhbll/concurrency/queues/bounded_mpsc_queue.h:84-84 | a ticket one lap later has the same cell |
| `BoundedMpscQueue.BoundedMPSCQueue.constructor` | include/dwhbll/concurrency/queues/bounded_mpsc_queue.h:30-41 | the object starts in the model's initial state: cell i expects ticket i and holds the array's default object |
| `BoundedMpscQueue.BoundedMPSCQueue.FetchAddTail` | include/dwhbll/concurrency/queues/bounded_mpsc_queue.h:45-45 | the object's step is the model's: a ticket is drawn |
| `BoundedMpscQueue.BoundedMPSCQueue.ProbeCell` | include/dwhbll/concurrency/queues/bounded_mpsc_queue.h:52-63 | one turn of the wait loop: go on, wait or fail, as in the model |
| `BoundedMpscQueue.BoundedMPSCQueue.ConstructData` | include/dwhbll/concurrency/queues/bounded_mpsc_queue.h:66-66 | constructs in the ticket's cell, over the array's default object on the first lap and in free memory later |
| `BoundedMpscQueue.BoundedMPSCQueue.StorePublished` | include/dwhbll/concurrency/queues/bounded_mpsc_queue.h:68-68 | publishes the cell to the consumer |
| `BoundedMpscQueue.BoundedMPSCQueue.ProbeHead` | include/dwhbll/concurrency/queues/bounded_mpsc_queue.h:76-79 | whether the head cell is published |
| `BoundedMpscQueue.BoundedMPSCQueue.MoveData` | include/dwhbll/concurrency/queues/bounded_mpsc_queue.h:81-81 | moves out of a live object |
| `BoundedMpscQueue.BoundedMPSCQueue.DestroyData` | include/dwhbll/concurrency/queues/bounded_mpsc_queue.h:82-82 | ends that object's life |
| `BoundedMpscQueue.BoundedMPSCQueue.StoreReleased` | include/dwhbll/concurrency/queues/bounded_mpsc_queue.h:84-84 | gives the cell to the ticket one lap later |
| `BoundedMpscQueue.BoundedMPSCQueue.AdvanceHead` | include/dwhbll/concurrency/queues/bounded_mpsc_queue.h:86-86 | moves to the next ticket |
| `BoundedMpscQueue.BoundedMPSCQueue.Get` | include/dwhbll/concurrency/queues/bounded_mpsc_queue.h:73-89 | a whole get while the producers rest: the oldest pending value, or nothing exactly when its cell is not published |
| `SpscModel.RunConserves` | include/dwhbll/concurrency/queues/bounded_spsc_queue.h:29-85 | in every interleaving the values put are the values taken followed by the buffered ones, at most N - 1 are buffered, and they stand in the slots from head up to tail |
| `SpscModel.StepRefinesFifo` | include/dwhbll/concurrency/queues/bounded_spsc_queue.h:34-85 | each step stutters, enqueues the value being put or dequeues the oldest |
| `SpscModel.SlotsAreExclusive` | include/dwhbll/concurrency/queues/bounded_spsc_queue.h:26-65 | however stale the head it compared with, the producer constructs only in a slot the consumer cannot reach; over a live object if and only if it is one of the first N puts, and then over the array's default one; the consumer touches only the oldest value |
| `SpscModel.FirstPutConstructsOverLive` | include/dwhbll/concurrency/queues/bounded_spsc_queue.h:26-49 | a concrete run: the first put on a queue of two constructs over the slot's default-constructed object |
| `SpscModel.DestructorFindsObjectsIff` | include/dwhbll/concurrency/queues/bounded_spsc_queue.h:26-26 | on a queue at rest, every slot still holds an object for the array's destructor if and only if nothing was ever taken |
| `SpscModel.PutRefusedIffFull` | include/dwhbll/concurrency/queues/bounded_spsc_queue.h:39-47 | put fails or waits on exactly when N - 1 values were buffered when it loaded head |
| `SpscModel.GetRefusedIffEmpty` | include/dwhbll/concurrency/queues/bounded_spsc_queue.h:59-77 | get returns nothing or waits on exactly when nothing was buffered when it loaded tail |
| `BoundedSpscQueue.BoundedSPSCQueue.ConstructAt` | include/dwhbll/concurrency/queues/bounded_spsc_queue.h:49-49 | the object's step is the model's: construction at the producer's own tail, over the array's default object on the first lap and in free memory later |
| `BoundedSpscQueue.BoundedSPSCQueue.PublishTail` | include/dwhbll/concurrency/queues/bounded_spsc_queue.h:51-51 | publishes the value |
| `BoundedSpscQueue.BoundedSPSCQueue.MoveData` | include/dwhbll/concurrency/queues/bounded_spsc_queue.h:62-62 | moves the oldest value out |
| `BoundedSpscQueue.BoundedSPSCQueue.DestroyData` | include/dwhbll/concurrency/queues/bounded_spsc_queue.h:63-63 | ends the moved-from object's life |
| `BoundedSpscQueue.BoundedSPSCQueue.ReleaseHead` | include/dwhbll/concurrency/queues/bounded_spsc_queue.h:65-65 | gives the slot back to the producer |
| `BoundedSpscQueue.BoundedSPSCQueue.Put` | include/dwhbll/concurrency/queues/bounded_spsc_queue.h:34-54 | a whole non-blocking put while the consumer rests: refused exactly when N - 1 values are buffered, else one value more at the end |
| `BoundedSpscQueue.BoundedSPSCQueue.Get` | include/dwhbll/concurrency/queues/bounded_spsc_queue.h:56-68 | a whole get while the producer rests: the oldest buffered value, or nothing exactly when none is |
| `RecyclingStack.StepInv` | include/dwhbll/concurrency/recycling_concurrent_stack.h:42-87 | with one pusher and one popper, each load, link write and compare-and-swap keeps the partition of the nodes, both chains and the values along _head |
| `RecyclingStack.RunSafe` | include/dwhbll/concurrency/recycling_concurrent_stack.h:42-87 | every interleaving keeps every node in exactly one of the _head chain, the _free chain, the pusher or the popper, both chains acyclic, and the values along _head equal to the abstract stack |
| `RecyclingStack.StepRefinesStack` | include/dwhbll/concurrency/recycling_concurrent_stack.h:61-80 | the abstract stack changes only at the compare-and-swap of _head; a pop carries away the current top and returns it, and returns nothing only on an empty stack |
| `RecyclingStackLimits.TwoPushersBreak` | include/dwhbll/concurrency/recycling_concurrent_stack.h:47-54 | a concrete run: with two pushers a node is on the _free chain and with a pusher at once, because nothing tells a recycled node from the one that was read |
| `RecyclingStackLimits.TwoPoppersBreak` | include/dwhbll/concurrency/recycling_concurrent_stack.h:71-76 | a concrete run: with two poppers a node is on the _head chain and with a popper at once |
| `RecyclingStackLimits.SafeExactlyWhen` | include/dwhbll/concurrency/recycling_concurrent_stack.h:42-87 | for all thread counts: every run is safe if and only if at most one push and one pop run at a time, or one of the two is never used |
| `RecyclingConcurrentStack.RecyclingConcurrentStack.constructor` | include/dwhbll/concurrency/recycling_concurrent_stack.h:28-35 | an empty stack with the given number of free nodes, linked and all different |
| `RecyclingConcurrentStack.RecyclingConcurrentStack.Push` | include/dwhbll/concurrency/recycling_concurrent_stack.h:42-65 | on real nodes: the value on top of the old contents; the node is the top of the free list if there is one and a new one otherwise, and no other node changes list |
| `RecyclingConcurrentStack.RecyclingConcurrentStack.Pop` | include/dwhbll/concurrency/recycling_concurrent_stack.h:67-87 | on real nodes: the top value leaves, or nothing on an empty stack, and the node goes to the free list |
| `JobForest.EndedLinked` | src/dwhbll/concurrency/coroutine/reactor.cpp:120-134 | ending an idle job leaves a forest with matching parent and child links and no other idle job |
| `JobForest.EndedCount` | src/dwhbll/concurrency/coroutine/reactor.cpp:120-134 | job_lifetime_end ends exactly the chain of ancestors left with nothing, and inflight_jobs goes down by its length |
| `JobForest.BusyDescendant` | src/dwhbll/concurrency/coroutine/reactor.cpp:96-106 | below every live job there is a job with a pending completion |
| `SortedList.InsertSorted` | include/dwhbll/collections/sorted_linked_list.h:85-93 | inserting at the lower bound keeps the list sorted and adds exactly the element |
| `SortedList.InsertPlace` | include/dwhbll/collections/sorted_linked_list.h:85-93 | a new entry stands behind all of earlier times and in front of those of its own; the others stay as they were |
| `SortedList.SortedLinkedList.FindLowerBound` | include/dwhbll/collections/sorted_linked_list.h:86-91 | the binary search finds the first place not before the value |
| `SortedList.SortedLinkedList.InsertTimer` | include/dwhbll/collections/sorted_linked_list.h:85-93 | the list becomes the sorted insertion |
| `ReactorModel.SpawnAddsOneJob` | src/dwhbll/concurrency/coroutine/reactor.cpp:256-280 | a spawn adds one job under the current one, whose one record is ready, and nothing else |
| `ReactorModel.ExpireMovesExactly` | src/dwhbll/concurrency/coroutine/reactor.cpp:35-52 | update_timer_tasks moves exactly the entries before now in time order, then exactly those of cancelled jobs in time order, and keeps the rest sorted |
| `ReactorModel.StepInv` | src/dwhbll/concurrency/coroutine/reactor.cpp:35-335 | every step of the loops of run, with arbitrary finite coroutine bodies, keeps the invariant |
| `ReactorModel.RunInv` | src/dwhbll/concurrency/coroutine/reactor.cpp:214-254 | the invariant holds after every run, in whatever order the loops of run take their turns |
| `ReactorModel.CompletionRunsIff` | src/dwhbll/concurrency/coroutine/reactor.cpp:309-323 | between turns a completed in-flight record is live and can be resumed if and only if its coroutine's calls use free addresses for what they start and live ones for what they cancel |
| `ReactorModel.ReadyRunsIff` | src/dwhbll/concurrency/coroutine/reactor.cpp:240-244 | the same for the front of the ready queue |
| `ReactorModel.WaiterRunsIff` | src/dwhbll/concurrency/coroutine/reactor.cpp:246-252 | the same for the first waiter |
| `ReactorModel.RunHasATurn` | src/dwhbll/concurrency/coroutine/reactor.cpp:214-254 | timers can always be updated, and while empty() is false the loop has a record to resume or only timers to wait for |
| `ReactorModel.OnePlace` | src/dwhbll/concurrency/coroutine/reactor.cpp:69-106 | every live record is in exactly one of ready queue, timers, waiters, in flight or being resumed, once, and pending with exactly its own job; inflight_completions counts the in-flight ones |
| `ReactorModel.LiveIffHasWork` | src/dwhbll/concurrency/coroutine/reactor.cpp:96-106 | a job is live if and only if a completion is pending at it or below it |
| `ReactorModel.EndFreesExactlyTheWorkless` | src/dwhbll/concurrency/coroutine/reactor.cpp:96-134 | ending a record frees exactly the jobs below which no other completion is pending |
| `ReactorModel.EmptyMeansDone` | src/dwhbll/concurrency/coroutine/reactor.cpp:188-190 | when empty() is true no record and no job is live and inflight_jobs is 0 |
| `ReactorModel.RunLeaksNothing` | src/dwhbll/concurrency/coroutine/reactor.cpp:188-254 | over every run from the start, when the loop of run ends no job is live |
| `ReactorRuns.CallGains` | src/dwhbll/concurrency/coroutine/reactor.cpp:192-335 | each call of a coroutine puts its new record in one place: enqueue, spawn and a sleep whose time has passed at the end of the ready queue, a later sleep among the timers, a waiter at the end of the waiters or, under a cancelled job, of the ready queue, a ring entry in flight; its promise starts cancelled exactly with its job, a ring entry's never; nothing else moves |
| `ReactorRuns.SleepIsKept` | src/dwhbll/concurrency/coroutine/reactor.cpp:35-52 | in every run, a coroutine that goes to sleep until a time not yet passed is not resumed before a turn of the timers at a later time, or one at which its job is cancelled |
| `ReactorRuns.SleepsOn` | src/dwhbll/concurrency/coroutine/reactor.cpp:35-52 | until such a turn its entry stays among the timers |
| `ReactorRuns.WokenIsReady` | src/dwhbll/concurrency/coroutine/reactor.cpp:35-52 | at such a turn it joins the ready queue behind all that was there, and is cancelled if it was before or if its time has not come |
| `ReactorRuns.ReadyInOrder` | src/dwhbll/concurrency/coroutine/reactor.cpp:240-244 | the ready queue is first in, first out: the record at place k is not resumed in any run that resumes k ready records or fewer, and is then that much nearer the front |
| `ReactorRuns.WaitersInOrder` | src/dwhbll/concurrency/coroutine/reactor.cpp:246-252 | the same of the coroutines that wait for a ring entry |
| `ReactorObject.EventReactor.UserDataLifetimeBegin` | src/dwhbll/concurrency/coroutine/reactor.cpp:88-94 | a new record pending with the current job |
| `ReactorObject.EventReactor.UserDataLifetimeEnd` | src/dwhbll/concurrency/coroutine/reactor.cpp:96-106 | the record is gone and its job ended if nothing is left, as in the model |
| `ReactorObject.EventReactor.JobLifetimeBegin` | src/dwhbll/concurrency/coroutine/reactor.cpp:108-118 | a new job under the current one, counted in flight |
| `ReactorObject.EventReactor.JobLifetimeEnd` | src/dwhbll/concurrency/coroutine/reactor.cpp:120-134 | the recursion over parents ends and frees exactly the chain the model names |
| `ReactorObject.EventReactor.EnqueueRecord` | src/dwhbll/concurrency/coroutine/reactor.cpp:192-199 | the record is ready, its promise cancelled if the job is |
| `ReactorObject.EventReactor.AddSleepTask` | src/dwhbll/concurrency/coroutine/reactor.cpp:201-212 | the record is ready if the time has passed and among the sorted timers otherwise |
| `ReactorObject.EventReactor.EnqueueSqeWaiter` | src/dwhbll/concurrency/coroutine/reactor.cpp:325-335 | the record waits for an entry, or is ready and cancelled if the job is cancelled |
| `ReactorObject.EventReactor.GetEntryFor` | src/dwhbll/concurrency/coroutine/reactor.cpp:288-303 | with space in the ring the record is in flight and counted, and otherwise nothing changes |
| `ReactorObject.EventReactor.SpawnJob` | src/dwhbll/concurrency/coroutine/reactor.cpp:256-280 | a job under the current one with one ready record, the current job restored |
| `ReactorObject.EventReactor.ResumeStallCheck` | src/dwhbll/concurrency/coroutine/reactor.cpp:69-86 | the coroutine's calls run under the record's job, then the record ends, as in the model |
| `ReactorObject.EventReactor.ProcessCqe` | src/dwhbll/concurrency/coroutine/reactor.cpp:309-323 | a completed in-flight record leaves the count and is resumed |
| `ReactorObject.EventReactor.ResumeFront` | src/dwhbll/concurrency/coroutine/reactor.cpp:240-244 | the front of the ready queue is resumed |
| `ReactorObject.EventReactor.ResumeFirstWaiter` | src/dwhbll/concurrency/coroutine/reactor.cpp:246-252 | the first waiter is resumed |
| `ReactorObject.EventReactor.UpdateTimerTasks` | src/dwhbll/concurrency/coroutine/reactor.cpp:35-52 | both loops together are the model's expiry |
| `ReactorObject.EventReactor.IsDone` | src/dwhbll/concurrency/coroutine/reactor.cpp:188-190 | empty(), and its truth means that nothing is live |
| `JsonRoundTrip.StringRead` | src/dwhbll/utils/string.cpp:53-75 | every string, whatever its characters, survives escaping, quoting and parsing |
| `JsonRoundTrip.AssignLast` | src/dwhbll/utils/json.cpp:194-194 | assigning a key above all present ones adds it last, so printed members come back in order |
| `JsonRoundTrip.FormatRoundTrip` | src/dwhbll/utils/json.cpp:59-119 | for every well-formed value and every indentation the printed text is read back completely, with infinities and NaN as null |
| `JsonRoundTrip.NulledIsSameIffFinite` | src/dwhbll/utils/json.cpp:47-52 | printing loses something exactly when some number is not finite |
| `JsonRoundTrip.ParseUndoesPrint` | src/dwhbll/utils/json.cpp:59-343 | parse(dump(v)) and parse(format(v, n)) give v if and only if all its numbers are finite |
| `JsonRoundTrip.PrintIsInjective` | src/dwhbll/utils/json.cpp:121-127 | different finite values print differently at the same indentation |
| `JsonReparse.AssignIsMapUpdate` | src/dwhbll/utils/json.cpp:194-194 | j[id] = val keeps key order, binds the key and leaves every other key as it was |
| `JsonReparse.ReparseIsStable` | src/dwhbll/utils/json.cpp:129-343 | whatever text was accepted, its value is well formed, and printing and parsing it again gives it again (infinities as null) |
| `JsonReparse.LastMemberWins` | src/dwhbll/utils/json.cpp:184-204 | of members with the same key the last one wins, and the members stand in key order |
| `JsonGrammar.ReadIffTree` | src/dwhbll/utils/json.cpp:131-343 | the parser's language and meaning: a text is read as a value, with rest left, if and only if it is whitespace, the text of a tree of RFC 8259's grammar with that value (with any character in strings, and numbers as the scanner takes them), and rest |
| `JsonGrammar.TreeReads` | src/dwhbll/utils/json.cpp:131-343 | the text of every tree is read as its value, whatever follows |
| `JsonGrammar.TreeOf` | src/dwhbll/utils/json.cpp:131-343 | every text that is read is that of a tree with the value read |
| `JsonEscapes.UnicodeEscapeIff` | src/dwhbll/utils/json.cpp:260-281 | a string of one escape with four hex digits, in either case, parses to exactly the bytes that a UTF-8 decoder takes for that code point |
| `JsonEscapes.Utf8Iff` | src/dwhbll/utils/json.cpp:270-279 | the bytes of an escape are UTF-8 if and only if the code point is not of a surrogate pair, which is not put together |
| `JsonEscapes.SurrogateIsNotUtf8` | src/dwhbll/utils/json.cpp:260-279 | the escape \ud83d yields three bytes that are not UTF-8 |
| `JsonEscapes.ShortEscapeReads` | src/dwhbll/utils/json.cpp:236-284 | each escape of two characters yields the character section 7 of RFC 8259 names, the slash included, and any other letter is an error |
| `JsonGrammar.EscapedCharacter` | src/dwhbll/utils/string.cpp:53-75 | each character is printed as itself, as an escape of two characters or with lower-case hex digits, and reads back |
| `JsonGrammar.EscapeIsShortest` | src/dwhbll/utils/string.cpp:53-75 | no shorter text in RFC 8259 stands for the character |
| `JsonLayout.FormatIsLaid` | src/dwhbll/utils/json.cpp:59-127 | format(v, n) is the value's lines, each member and element on a line of its own, led by n spaces for each level of its depth |
| `JsonLayout.DumpIsFlat` | src/dwhbll/utils/json.cpp:59-127 | dump() is the same lines without line breaks, leading spaces, and the space behind a colon |
| `JsonTrailing.RestIsIgnored` | src/dwhbll/utils/json.cpp:129-343 | a text read as a value with something behind it is read as that value whatever else stands behind it, and that is left unread; a number must end at a separator, a bracket, whitespace or the end |
| `JsonTrailing.AcceptedIff` | src/dwhbll/utils/json.cpp:308-343 | a text is accepted with a value if and only if it starts, behind whitespace, with that value |
| `JsonTrailing.IntegersAreLocal` | src/dwhbll/utils/json.cpp:293-306 | the whole-number scanner keeps the assumption that scanning stops at separators, brackets and whitespace |
| `JsonTrailing.TextAfterValueIgnored` | src/dwhbll/utils/json.cpp:341-343 | "null" with any text behind it is accepted as null |
| `JsonTrailing.LeadingZeroAfterMinus` | src/dwhbll/utils/json.cpp:301-302 | "01" is refused and "-01" is read as -1 |
| `JsonTrailing.RawControlAccepted` | src/dwhbll/utils/json.cpp:231-288 | a raw control character in a string is accepted as itself |
| `JsonIntegers.IntegersAreFaithful` | src/dwhbll/utils/json.cpp:293-306 | a decimal printer and scanner for whole numbers that keeps what the round trip needs of the number conversions |
| `JsonIntegers.IntegerDocumentsRoundTrip` | src/dwhbll/utils/json.cpp:59-343 | every document with whole numbers survives printing at any indentation and parsing, with no assumption left |
| `JsonParser.JsonParser.Consume` | src/dwhbll/utils/json.cpp:146-150 | takes the next character, or reports the end |
| `JsonParser.JsonParser.MatchChar` | src/dwhbll/utils/json.cpp:152-157 | the next character is the expected one, or the error says which stood there |
| `JsonParser.JsonParser.MatchText` | src/dwhbll/utils/json.cpp:159-163 | the loop matches a whole word |
| `JsonParser.JsonParser.Ws` | src/dwhbll/utils/json.cpp:165-174 | the loop passes all whitespace and nothing else |
| `JsonParser.JsonParser.Hex` | src/dwhbll/utils/json.cpp:262-268 | the four digits of a \u escape, most significant first |
| `JsonParser.JsonParser.Escaped` | src/dwhbll/utils/json.cpp:236-286 | what stands after a backslash, with a code point in UTF-8 |
| `JsonParser.JsonParser.String` | src/dwhbll/utils/json.cpp:228-291 | the loop reads a string literal as the parsing function does, on every input |
| `JsonParser.JsonParser.Num` | src/dwhbll/utils/json.cpp:293-306 | a number, refused with a leading zero |
| `JsonParser.JsonParser.ReadMember` | src/dwhbll/utils/json.cpp:176-182 | a key, a colon and a value |
| `JsonParser.JsonParser.ReadObject` | src/dwhbll/utils/json.cpp:184-204 | the loop reads an object as the parsing function does, errors included |
| `JsonParser.JsonParser.ReadArray` | src/dwhbll/utils/json.cpp:206-226 | the loop reads an array as the parsing function does, errors included |
| `JsonParser.JsonParser.ReadElement` | src/dwhbll/utils/json.cpp:308-339 | a value with the whitespace around it |
| `JsonParser.ParseText` | src/dwhbll/utils/json.cpp:129-132 | parsing a text is the function the round trip is proved for |
| `JsonParser.EscapeString` | src/dwhbll/utils/string.cpp:53-75 | the loop gives the escaped text that the round trip is proved for |
| `JsonParser.FormatInternal` | src/dwhbll/utils/json.cpp:59-119 | the printing loops give the text that the round trip is proved for |
| `JsonParser.FormatMembers` | src/dwhbll/utils/json.cpp:75-97 | an object's members, separators and indentation |
| `JsonParser.FormatElements` | src/dwhbll/utils/json.cpp:98-116 | an array's elements, separators and indentation |
| `StreamAgreement.StepAgrees` | include/dwhbll/collections/streams.hpp:476-681 | from a coherent cache every call replies and moves as on the plain reader; afterwards the cache is coherent if and only if the call did not run into the end or EndsOnChunk held before |
| `StreamAgreement.RunsAgreeUpToEnd` | include/dwhbll/collections/streams.hpp:314-681 | for every data, chunk size above 0 and run of calls, both readers reply alike up to and including the first call that runs into the end |
| `StreamAgreement.RunsAgreeFrom` | include/dwhbll/collections/streams.hpp:476-681 | and beyond it, as long as each such call but the last met EndsOnChunk |
| `StreamAgreement.AgreementSurvivesEndIff` | include/dwhbll/collections/streams.hpp:484-507 | after a call into the end the readers keep agreeing if and only if the last piece fetched was a whole chunk: otherwise a seek and a read_byte tell them apart |
| `StreamAgreement.ReadsPastTheEnd` | include/dwhbll/collections/streams.hpp:493-503 | three bytes, chunk size four: the second read_byte at the end succeeds with a byte that is not in the data |
| `StreamAgreement.ReadAllAgreesIffAtStart` | include/dwhbll/collections/streams.hpp:657-667 | read_all agrees with the plain reader exactly from position 0 |
| `StreamAgreement.PeekBytesAgreesIffBeforeEnd` | include/dwhbll/collections/streams.hpp:676-681 | peek_bytes of something agrees with the plain reader exactly before the end |
| `StreamMeaning.ReadsAreConsecutive` | include/dwhbll/collections/streams.hpp:314-410 | whatever calls of read_byte, read_bytes and read_until follow one another, they hand over the data from the first position to the last |
| `StreamMeaning.UntilMeans` | include/dwhbll/collections/streams.hpp:359-410 | read_until gives the bytes up to the first delimiter and stops behind or before it, or gives the rest |
| `StreamMeaning.SeekIff` | include/dwhbll/collections/streams.hpp:99-106 | seek succeeds exactly within the data and its end, and otherwise stays |
| `StreamMeaning.SkipIff` | include/dwhbll/collections/streams.hpp:108-116 | skip moves on by its count if that stays within the data; otherwise it succeeds only if the sum leaves 64 bits, and then moves back; a failed call stays |
| `StreamMeaning.SkipGoesBack` | include/dwhbll/collections/streams.hpp:108-116 | skipping 2 to the 64 less one from position 2 ends at position 1 |
| `StreamMeaning.RemainingIsRead` | include/dwhbll/collections/streams.hpp:414-439 | position and remaining add up to the size, and read_all hands over what remains and ends at the end |
| `StreamMeaning.PeeksAreReads` | include/dwhbll/collections/streams.hpp:446-474 | a peek replies as the read would and stays, but for an empty peek_bytes at the end |
| `Streams.MemoryBuffer.ReadRawBytes` | include/dwhbll/collections/streams.hpp:66-81 | fills the front of the destination with what is left, and moves by as much; an empty destination is an error |
| `Streams.MemoryBuffer.PeekRawBytes` | include/dwhbll/collections/streams.hpp:83-97 | the same without moving |
| `Streams.MemoryBuffer.Seek` | include/dwhbll/collections/streams.hpp:99-106 | moves within the data, its end included, or is an error |
| `Streams.MemoryBuffer.Skip` | include/dwhbll/collections/streams.hpp:108-116 | moves by a count whose sum with the position is a size_t, or is an error |
| `Streams.StreamReader.ReadByte` | include/dwhbll/collections/streams.hpp:326-338 | one byte, or the end |
| `Streams.StreamReader.ReadBytes` | include/dwhbll/collections/streams.hpp:340-357 | as many bytes as asked and left |
| `Streams.StreamReader.ReadUntil` | include/dwhbll/collections/streams.hpp:359-389 | the loop up to the delimiter or the end |
| `Streams.StreamReader.Perform` | include/dwhbll/collections/streams.hpp:314-472 | every call is the function that the agreement is proved about |
| `Streams.CachedReader.UpdateCache` | include/dwhbll/collections/streams.hpp:484-507 | the resizes and the fill of the cache, failures included |
| `Streams.CachedReader.ReadByte` | include/dwhbll/collections/streams.hpp:515-528 | a byte from the cache |
| `Streams.CachedReader.ReadBytes` | include/dwhbll/collections/streams.hpp:530-566 | the loop that copies from the cache piece by piece |
| `Streams.CachedReader.ReadUntil` | include/dwhbll/collections/streams.hpp:568-591 | the loop up to the delimiter or the end |
| `Streams.CachedReader.Perform` | include/dwhbll/collections/streams.hpp:476-681 | every call is the function that the agreement is proved about |
| `DnsTermination.EndsIffFragmentsDiffer` | src/dwhbll/network/dns/dns.cpp:106-146 | the loop of Domain::unpack ends if and only if no fragment of the name starts where an earlier one did |
| `DnsTermination.QueryEndsIff` | src/dwhbll/network/dns/dns.cpp:525-539 | unpacking a message goes on for ever if and only if a name of a question that it comes to has such a fragment |
| `DnsTermination.EndsIffWithinLength` | src/dwhbll/network/dns/dns.cpp:106-146 | the loop of Domain::unpack ends if and only if it ends within as many turns as there are bytes, and one |
| `DnsTermination.PriorPointersEnd` | src/dwhbll/network/dns/dns.cpp:106-146 | on a name each of whose pointers targets a place before its own fragment the loop ends |
| `DnsTermination.SelfPointerNeverEnds` | src/dwhbll/network/dns/dns.cpp:112-131 | a pointer to itself keeps the loop going for ever |
| `DnsTermination.EnoughFuel` | src/dwhbll/network/dns/dns.cpp:106-146 | the expansion is the same however much fuel it is given, once it is enough |
| `DnsRoundTrip.HeaderRoundTripIff` | src/dwhbll/network/dns/dns.cpp:419-457 | a packed header reads back the same if and only if opcode and rcode are below 16 and z below 8 |
| `DnsRoundTrip.WideZSpills` | src/dwhbll/network/dns/dns.cpp:449-450 | a z of 8 turns up as the recursion-available flag |
| `DnsRoundTrip.U16SameIff` | src/dwhbll/network/dns/dns.cpp:517-518 | casting an enum value to 16 bits keeps it if and only if it is from 0 to 65535 |
| `DnsRoundTrip.NameRoundTripIff` | src/dwhbll/network/dns/dns.cpp:106-173 | wherever a name was packed, unpacking gives it back if and only if it is labels of 1 to 63 bytes and one final empty label, and then stops behind it |
| `DnsRoundTrip.NameReadsFully` | src/dwhbll/network/dns/dns.cpp:106-173 | any name with an empty label comes back as its labels up to that one, each cut to 63 bytes |
| `DnsRoundTrip.QueryRoundTripIff` | src/dwhbll/network/dns/dns.cpp:419-551 | a packed query unpacks to itself if and only if its header fits, counts exactly its questions and no records, its names are well formed and its types and classes have 16 bits; then its bytes are consumed to the last |
| `DnsWire.CompressedNameReads` | src/dwhbll/network/dns/dns.cpp:106-146 | labels followed by the two bytes 0xC0 + t / 256 and t modulo 256 are read as these labels and then the name at t, whatever stands there, and fail as that does; reading goes on behind the two bytes |
| `DnsWire.CompressionRoundTrip` | src/dwhbll/network/dns/dns.cpp:106-173 | so a well-formed name packed at t comes back behind any packed labels that point to it |
| `DnsWire.ZeroEndedNameReads` | src/dwhbll/network/dns/dns.cpp:106-146 | labels up to a zero byte are a name, of lengths 64 to 191 too, which RFC 1035 reserves |
| `DnsWire.ReservedLengthReads` | src/dwhbll/network/dns/dns.cpp:106-146 | a length byte of 64 is read as a label of 64 bytes |
| `DnsWire.NameOnWire` | src/dwhbll/network/dns/dns.cpp:148-173 | a packed name is its labels in order, each behind a byte with its length, the last of length 0 |
| `DnsWire.HeaderOnWire` | src/dwhbll/network/dns/dns.cpp:439-457 | a packed header is the six words of section 4.1.1, most significant byte first, the flags in the order drawn there |
| `DnsWire.HeaderReadsWire` | src/dwhbll/network/dns/dns.cpp:419-437 | any twelve bytes are read as a header that fits, and are its six words |
| `DnsWire.QuestionOnWire` | src/dwhbll/network/dns/dns.cpp:515-519 | a packed question is its name and the words of its type and class |
| `DnsWire.QuestionReadsWire` | src/dwhbll/network/dns/dns.cpp:509-513 | the type and class of a question are the two words behind its name, wherever that ends |
| `Dns.MemoryStream.GetUint8` | src/dwhbll/network/dns/dns.cpp:17-19 | the next byte |
| `Dns.MemoryStream.GetUint16` | src/dwhbll/network/dns/dns.cpp:21-25 | two bytes, the high one first |
| `Dns.MemoryStream.WriteUint8` | src/dwhbll/network/dns/dns.cpp:33-35 | one byte at the end |
| `Dns.MemoryStream.WriteUint16` | src/dwhbll/network/dns/dns.cpp:37-40 | two bytes, the high one first |
| `Dns.MemoryStream.PackDomain` | src/dwhbll/network/dns/dns.cpp:148-173 | the loop writes each label with its length, cut to 63, up to the first empty one |
| `Dns.MemoryStream.UnpackDomain` | src/dwhbll/network/dns/dns.cpp:106-146 | where no fragment starts where an earlier one did, it yields exactly the labels of the expansion and leaves the head behind the zero byte or the first pointer |
| `Dns.MemoryStream.PackMessageHeader` | src/dwhbll/network/dns/dns.cpp:439-457 | the six words |
| `Dns.MemoryStream.UnpackMessageHeader` | src/dwhbll/network/dns/dns.cpp:419-437 | the header the six words stand for |
| `Dns.MemoryStream.UnpackMessageQuestion` | src/dwhbll/network/dns/dns.cpp:509-513 | a name, a type and a class |
| `Dns.MemoryStream.PackMessage` | src/dwhbll/network/dns/dns.cpp:541-551 | the header and as many questions as it counts |
| `Dns.MemoryStream.UnpackMessage` | src/dwhbll/network/dns/dns.cpp:525-539 | the header and as many questions as it counts |
| `PoolModel.BuiltInv` | include/dwhbll/memory/pool.h:108-115 | a new pool has one block more than it counts |
| `PoolModel.AcquireKeeps` | include/dwhbll/memory/pool.h:122-157 | acquire never throws and hands out a slot that no live object has; the live objects are the old ones and the new one |
| `PoolModel.OfferKeeps` | include/dwhbll/memory/pool.h:174-188 | offer accepts exactly the live slots and takes exactly that one away |
| `PoolModel.StepKeeps` | include/dwhbll/memory/pool.h:122-188 | every call keeps the table, the flags and the counters, and acts on the live objects as on a map |
| `PoolModel.Accounting` | include/dwhbll/memory/pool.h:33-196 | after any run with g growths: free slots = available + blockSize + g (blockSize - 1), and used_size = live + g (blockSize - 1) |
| `PoolModel.GrowsWithSlotsFree` | include/dwhbll/memory/pool.h:126-129 | every growth happens while at least a whole block of slots is free |
| `PoolModel.FreeSlotIsFirst` | include/dwhbll/memory/pool.h:131-147 | the slot that the walk finds is the first free one: all before it are used |
| `PoolModel.FirstAcquireGrows` | include/dwhbll/memory/pool.h:110-130 | on a new pool of blocks of two and default size 0 both slots of the first block are free, yet the first acquire adds a second block; used_size is then 2 with one live object |
| `PoolModel.UsedSizeIsLiveIff` | include/dwhbll/memory/pool.h:194-196 | used_size is the number of live objects if and only if acquire has added no block, or blocks have one slot |
| `MemoryPool.Pool.constructor` | include/dwhbll/memory/pool.h:108-115 | the loop builds defaultSize blocks besides the first |
| `MemoryPool.Pool.Search` | include/dwhbll/memory/pool.h:131-146 | the walk over the blocks finds the first unused slot of the first block not full |
| `MemoryPool.Pool.Acquire` | include/dwhbll/memory/pool.h:122-157 | the new object in a slot that was not live, all live objects as they were, one block more exactly when none was counted available |
| `MemoryPool.Pool.Offer` | include/dwhbll/memory/pool.h:174-188 | the object gone, or an error and nothing changed |
| `MemoryPool.Pool.UsedSize` | include/dwhbll/memory/pool.h:194-196 | the live objects and blockSize - 1 for each growth |
| `RingBuffer.CopyInBoundsIff` | include/dwhbll/collections/ring.h:76-83 | the copy of resize and make_cont stays within the array if and only if the ring is not full with its head away from the start |
| `RingBuffer.CopyKeepsOrder` | include/dwhbll/collections/ring.h:74-83 | and then it copies the elements in order |
| `RingBuffer.StrictTestKeepsOrder` | include/dwhbll/collections/ring.h:74-83 | with the test tail > head (and an empty ring copying nothing) it is right on every ring |
| `RingBuffer.PushedBack` | include/dwhbll/collections/ring.h:100-105 | writing at the tail adds the element at the back |
| `RingBuffer.PushedFront` | include/dwhbll/collections/ring.h:123-129 | writing before the head adds it at the front |
| `RingBuffer.PoppedBack` | include/dwhbll/collections/ring.h:116-121 | moving the tail back removes the last |
| `RingBuffer.PoppedFront` | include/dwhbll/collections/ring.h:131-136 | moving the head on removes the first |
| `RingBuffer.Ring.Resize` | include/dwhbll/collections/ring.h:69-88 | the array doubles and the contents stay |
| `RingBuffer.Ring.PushBack` | include/dwhbll/collections/ring.h:100-105 | one element more at the back, doubling exactly when a resize was due |
| `RingBuffer.Ring.PushFront` | include/dwhbll/collections/ring.h:123-129 | one element more at the front |
| `RingBuffer.Ring.PopBack` | include/dwhbll/collections/ring.h:116-121 | the last element gone, or an error on an empty ring |
| `RingBuffer.Ring.PopFront` | include/dwhbll/collections/ring.h:131-136 | the first element gone, or an error on an empty ring |
| `RingBuffer.Ring.Clear` | include/dwhbll/collections/ring.h:138-142 | empty; needsResize stays as it was |
| `RingBuffer.Ring.MakeCont` | include/dwhbll/collections/ring.h:147-168 | the same contents, from index 0 on |
| `RingBuffer.Ring.Front` | include/dwhbll/collections/ring.h:693-714 | the first element |
| `RingBuffer.Ring.Back` | include/dwhbll/collections/ring.h:717-738 | the last element |
| `RingBuffer.Perform` | include/dwhbll/collections/ring.h:25-142 | from every capacity of at least 1, every run of calls does what it does on an unbounded deque, up to the first push that meets a full ring with its head away from the start |
| `RingBuffer.ReachesWrapped` | include/dwhbll/collections/ring.h:69-105 | a concrete run of four calls that reaches such a ring |
| `Sha1Spec.PaddingIsFipsIff` | src/dwhbll/cryptography/SHA1.cpp:121-137 | the padding is that of FIPS 180-4 section 5.1.1 if and only if the length is not 55 modulo 64; there it is exactly one block longer |
| `Sha1Spec.FipsZerosIsLeast` | src/dwhbll/cryptography/SHA1.cpp:121-137 | the reference padding has the least number of zeros that the standard asks for |
| `Sha1Spec.DigestIsFips` | src/dwhbll/cryptography/SHA1.cpp:79-164 | the digest is the standard's for every other length |
| `Sha1Spec.DigestWithExtraBlock` | src/dwhbll/cryptography/SHA1.cpp:125-134 | what is computed instead at those lengths: the standard's compression over one block more |
| `Sha1Spec.BlocksAppend` | src/dwhbll/cryptography/SHA1.cpp:94-109 | a further block is a further compression |
| `Sha1Example.DigestOfAbc` | src/dwhbll/cryptography/SHA1.cpp:7-162 | the digest of "abc", by the standard's functions and by the source's, is the published A9993E36 4706816A BA3E2571 7850C26C 9CD0D89D |
| `Sha1.LengthBytes` | src/dwhbll/cryptography/SHA1.cpp:142-149 | shifting and masking write the length big-endian |
| `Sha1.LengthField` | src/dwhbll/cryptography/SHA1.cpp:140-149 | counting modulo 2 to the 64 does not change the length field |
| `Sha1.SHA1.Initialize` | src/dwhbll/cryptography/SHA1.cpp:67-77 | the state of an empty message, block and schedule wiped |
| `Sha1.SHA1.Schedule` | src/dwhbll/cryptography/SHA1.cpp:8-14 | the message schedule of FIPS 180-4 section 6.1.2 |
| `Sha1.SHA1.Mix` | src/dwhbll/cryptography/SHA1.cpp:16-38 | the 80 rounds of FIPS 180-4 section 6.1.2 |
| `Sha1.SHA1.DigestChunk` | src/dwhbll/cryptography/SHA1.cpp:7-56 | one block compressed into h; block and schedule wiped |
| `Sha1.SHA1.Update` | src/dwhbll/cryptography/SHA1.cpp:79-115 | the state depends on the message so far and the input only through their concatenation |
| `Sha1.SHA1.Finalize` | src/dwhbll/cryptography/SHA1.cpp:117-162 | the digest of the whole message is written and the object is as freshly built; too short a buffer changes nothing |
| `Sha1.HashParts` | src/dwhbll/cryptography/SHA1.cpp:79-162 | however a message is cut into calls of update, the digest is that of the whole |
| `Arc4Model.KeyedIsPermutation` | src/dwhbll/cryptography/arc4/arc4.cpp:18-30 | S is a permutation of 0 to 255 after the key schedule, for every key of 1 to 256 bytes |
| `Arc4Model.KeyedIff` | src/dwhbll/cryptography/arc4/arc4.cpp:17-30 | the constructor builds an engine if and only if the key has 1 to 256 bytes, and then the one whose table the published key schedule ends with: from the identity and index 0, step i adds S[i] and key[i mod length] to the index modulo 256 and exchanges those two places |
| `Arc4Model.NextIs` | src/dwhbll/cryptography/arc4/arc4.cpp:6-15 | a step adds 1 to i and S[i] to j modulo 256, exchanges their places, and yields the entry at S[i] + S[j] of the table then |
| `Arc4Model.XorBitwise` | src/dwhbll/cryptography/arc4/arc4.cpp:38-55 | each bit of an exclusive or is set exactly when one of the two bits is |
| `Arc4Model.AfterIsPermutation` | src/dwhbll/cryptography/arc4/arc4.cpp:7-16 | and after every keystream step |
| `Arc4Model.PermutationMeansOnce` | src/dwhbll/cryptography/arc4/arc4.cpp:7-30 | so no byte value stands in S twice |
| `Arc4Model.CryptInverts` | src/dwhbll/cryptography/arc4/arc4.cpp:38-55 | two equally keyed engines invert each other on every text |
| `Arc4Model.CryptConcat` | src/dwhbll/cryptography/arc4/arc4.cpp:38-55 | crypting a then b is crypting a ++ b |
| `Arc4Model.DropDiscards` | src/dwhbll/cryptography/arc4/arc4.cpp:57-60 | drop(n) discards n bytes of keystream |
| `Arc4Model.StepUndone` | src/dwhbll/cryptography/arc4/arc4.cpp:7-16 | a keystream step can be undone |
| `Arc4Model.EnginesNeverMeet` | src/dwhbll/cryptography/arc4/arc4.cpp:7-16 | different engines never reach the same state after equally many steps |
| `Arc4.Arc4.Make` | src/dwhbll/cryptography/arc4/arc4.cpp:18-30 | the key schedule's loop; no engine exactly for an empty key or one over 256 bytes |
| `Arc4.Arc4.KeystreamNext` | src/dwhbll/cryptography/arc4/arc4.cpp:7-16 | one step on the array, and its byte |
| `Arc4.Arc4.Crypt` | src/dwhbll/cryptography/arc4/arc4.cpp:38-46 | a new text xored with the keystream, the engine moved on by its length |
| `Arc4.Arc4.CryptInplace` | src/dwhbll/cryptography/arc4/arc4.cpp:52-55 | the same text in place, the engine moved on the same |
| `Arc4.Arc4.Drop` | src/dwhbll/cryptography/arc4/arc4.cpp:57-60 | the engine moved on by count steps |
| `TokenizeModel.TurnAdvances` | src/dwhbll/lang/c/tokenize.cpp:122-329 | every turn of the main loop moves pos forward |
| `TokenizeRebuild.TurnTakes` | src/dwhbll/lang/c/tokenize.cpp:122-329 | a turn starts its token's value at pos, and passes behind it only whitespace, and one character more exactly when a lone '#' drops one |
| `TokenizeRebuild.LexConserves` | src/dwhbll/lang/c/tokenize.cpp:122-329 | every character that is not whitespace is in exactly one token or was dropped behind a lone '#' |
| `TokenizeRebuild.TokensRebuildIff` | src/dwhbll/lang/c/tokenize.cpp:122-329 | for every ASCII source, tokens and whitespace rebuild it if and only if nothing was dropped |
| `TokenizeRebuild.DroppedIffSomeDrops` | src/dwhbll/lang/c/tokenize.cpp:237-266 | something is dropped exactly when some '#' that starts a token leads to no directive word and not only to whitespace |
| `TokenizeRebuild.OneEofLast` | src/dwhbll/lang/c/tokenize.cpp:327-328 | exactly one eof token, and it is last |
| `TokenizeRebuild.SecondHashDropped` | src/dwhbll/lang/c/tokenize.cpp:261-264 | "##" comes out as one '#' |
| `TokenizeRebuild.ArrowIsArrow` | src/dwhbll/lang/c/tokenize.cpp:8-10 | where operators are read, no other ASCII pair has the hash of "->", so the arrow token's text is the source's |
| `TokenizeRebuild.ArrowHashIs` | src/dwhbll/lang/c/tokenize.cpp:271-271 | the case label for the arrow is the hash of "->" |
| `TokenizeRebuild.TwoOperatorHashesAre` | src/dwhbll/lang/c/tokenize.cpp:271-293 | the case labels are the hashes of the operators they stand for |
| `TokenizeRebuild.BracketEqualsIsOneOperator` | src/dwhbll/lang/c/tokenize.cpp:268-305 | "]=" has the hash of ">>", so it comes out as one operator token |
| `TokenizeOperators.TwoOperatorIff` | src/dwhbll/lang/c/tokenize.cpp:8-10 | two ASCII characters are read as one operator if and only if they are one of the 19 operators or one of 27 listed pairs with the same hash |
| `TokenizeOperators.TurnWrongIff` | src/dwhbll/lang/c/tokenize.cpp:268-305 | a turn yields a two-character operator that is none of the 19 if and only if it starts at one of those pairs |
| `TokenizeOperators.OperatorsAreOperatorsIff` | src/dwhbll/lang/c/tokenize.cpp:122-329 | for every ASCII source, each two-character operator token is one of the 19 if and only if no turn starts at one of those pairs |
| `KeywordTable.KeywordHashesAre` | src/dwhbll/lang/c/tokenize.cpp:8-46 | the constants of the switch are the hashes of the 32 keywords |
| `KeywordTable.HashesDiffer` | src/dwhbll/lang/c/tokenize.cpp:12-46 | no two keywords have the same hash |
| `TokenizeWords.WordKindIff` | src/dwhbll/lang/c/tokenize.cpp:12-48 | a word is taken for a keyword if and only if it has the hash of one, and then for that one |
| `TokenizeWords.KeywordsAreThemselves` | src/dwhbll/lang/c/tokenize.cpp:12-48 | every keyword is taken for itself |
| `TokenizeWords.ShortWordIff` | src/dwhbll/lang/c/tokenize.cpp:8-48 | a word of one to three characters is taken for a keyword if and only if it is one, or one of ten listed words: "Hg" for `if`, "En" for `do`, "Hot", "HNu", "H1j", "iOu", "i0j" for `int`, "fNs", "Gnr", "GOs" for `for` |
| `TokenizeKinds.KindsFollowText` | src/dwhbll/lang/c/tokenize.cpp:110-329 | every token of every ASCII source has the kind that its own text determines: punctuators by their character, literals by their quote, comments by their first two characters, numbers, words, directives by the word behind the '#' |
| `TokenizeKinds.TurnEnds` | src/dwhbll/lang/c/tokenize.cpp:122-329 | each token's text ends where its own characters say: words, line comments and directives at the first character that cannot belong, numbers where their parts end, operators by their length |
| `TokenizeKinds.NumberEndIff` | src/dwhbll/lang/c/tokenize.cpp:192-222 | a number ends exactly where its digits, fraction, exponent and suffix end, each as long as it can be, or its hex digits and suffix |
| `TokenizeKinds.DirectiveEndIff` | src/dwhbll/lang/c/tokenize.cpp:247-252 | a directive's line goes on over each line break behind a backslash, and over no other |
| `TokenizeEnds.CommentEndsIff` | src/dwhbll/lang/c/tokenize.cpp:151-167 | a block comment ends at its first closing mark if and only if an even number of line breaks stands directly before the mark, or nothing follows it |
| `TokenizeEnds.LineBreakHidesClose` | src/dwhbll/lang/c/tokenize.cpp:155-159 | a comment whose closing mark stands right after a line break runs on past it |
| `TokenizeEnds.OpenCommentRunsOut` | src/dwhbll/lang/c/tokenize.cpp:151-167 | without a closing mark the comment is the rest of the source |
| `TokenizeEnds.BlockEndIs` | src/dwhbll/lang/c/tokenize.cpp:151-167 | the loop ends behind the first closing mark that no counting line break hides, where a line break counts unless the one before it does, and otherwise at the end of the source |
| `TokenizeEnds.QuoteEndIs` | src/dwhbll/lang/c/tokenize.cpp:170-189 | a literal ends behind the first quote that is not within two characters after a backslash that counts, where a backslash counts unless it is within two characters after one that does |
| `TokenizeEnds.LiteralEndsIff` | src/dwhbll/lang/c/tokenize.cpp:170-189 | so it ends at the first unescaped quote if and only if that quote is not within two characters after a backslash that counts (or nothing follows it), and each earlier quote is |
| `TokenizeEnds.OpenLiteralRunsOutIff` | src/dwhbll/lang/c/tokenize.cpp:170-189 | where no unescaped quote follows, the literal is the rest of the source if and only if every quote but a last character is within two characters after a backslash that counts; otherwise it ends behind the first quote that is not |
| `TokenizeEnds.EscapeBeforeQuotePassesIt` | src/dwhbll/lang/c/tokenize.cpp:175-177 | a literal that ends in an escape runs on past its closing quote |
| `TokenizeEnds.EscapedQuoteCloses` | src/dwhbll/lang/c/tokenize.cpp:175-177 | after two escapes, the second of the quote, the literal ends at that escaped quote |
| `Tokenize.SkipBlockComment` | src/dwhbll/lang/c/tokenize.cpp:151-167 | the comment loop, with the character after a line break not looked at |
| `Tokenize.SkipLiteral` | src/dwhbll/lang/c/tokenize.cpp:170-189 | the literal loop, with a backslash passing over three characters |
| `Tokenize.SkipNumber` | src/dwhbll/lang/c/tokenize.cpp:192-222 | the number loops |
| `Tokenize.ReadHash` | src/dwhbll/lang/c/tokenize.cpp:237-266 | a directive or a lone '#' |
| `Tokenize.ReadOperator` | src/dwhbll/lang/c/tokenize.cpp:268-325 | an operator of one to three characters |
| `Tokenize.Tokenize` | src/dwhbll/lang/c/tokenize.cpp:122-329 | the whole loop: the tokens of the source, one eof, last, and the rebuilding condition |
| `MatmulModel.RowsPartitioned` | include/dwhbll/linalg/matrix.h:221-238 | every row belongs to exactly one worker, whatever the number of threads |
| `MatmulModel.StepInv` | include/dwhbll/linalg/matrix.h:211-219 | each load and each store of a worker keeps every cell a partial sum of its product |
| `MatmulModel.EveryInterleavingMultiplies` | include/dwhbll/linalg/matrix.h:209-240 | however the workers' loads and stores interleave, once all have finished the result is the product |
| `MatmulModel.StepCounts` | include/dwhbll/linalg/matrix.h:211-219 | each step brings its worker exactly one step nearer its end |
| `MatmulModel.FairScheduleFinishes` | include/dwhbll/linalg/matrix.h:221-240 | every schedule that moves each worker as often as it has steps left ends with all of them finished |
| `MatmulModel.FairScheduleMultiplies` | include/dwhbll/linalg/matrix.h:209-240 | so every schedule that moves each worker twice for each term of each of its cells ends with the product |
| `MatmulModel.FlatIndexDistinct` | include/dwhbll/linalg/matrix.h:142-150 | in row-major storage different cells stand at different indices |
| `Matmul.MatmulWorker` | include/dwhbll/linalg/matrix.h:211-219 | the rows of the range gain their rows of the product and no other row changes |
| `Matmul.MatmulCpu` | include/dwhbll/linalg/matrix.h:209-240 | the loop that shares out the rows gives the product for every concurrency, 0 included |

## Left out

- Weak memory orders and spurious failures of compare-and-swap: every step is sequentially consistent, and a spurious failure is one more turn of the retry loop, which the models allow.
- Wrap-around of the 64-bit tickets of the MPSC queue: tickets are natural numbers.
- Backoff policies and `getBlocking` as members of their own: waiting is a step that changes nothing, and `getBlocking` makes the steps of `get` after it.
- BoundedMpscQueue.BoundedMPSCQueue.Get: the object's steps are proved equal to the model's one by one; a whole call is stated while the other threads rest, and interleavings are covered by the transition system.
- BoundedSpscQueue.BoundedSPSCQueue.Put: likewise stated while the consumer rests.
- RecyclingConcurrentStack.RecyclingConcurrentStack.Push: a whole call on real nodes without another thread; interleavings are covered by `RecyclingStack`.
- RecyclingConcurrentStack.RecyclingConcurrentStack.constructor: the default-constructed data of a free node counts as no object.
- io_uring: the kernel completes each in-flight entry exactly once, at any time, and whether there is space in the ring is an input.
- The order in which `run` takes its turns: the model allows any order of the turns of its loops, so the results hold for the source's.
- `reactor::cancel_job` as a coroutine: a coroutine may mark any live job cancelled and cancel any live record's promise, in any order; that the source suspends while it iterates over a set is not modelled.
- The heap of jobs and records: they are kept in maps by address, and an address is free for reuse once its record has ended. The ready queue and the waiters are plain FIFO lists, not rings.
- C++ coroutine frames, exceptions and stall warnings of the reactor.
- JSON's number conversions: `std::format` and `std::from_chars` are a parameter, of which the round trip assumes that a finite number printed before a delimiter reads back, and `ReadIffTree` and `RestIsIgnored` that scanning stops at separators, brackets and whitespace; `JsonIntegers` and `IntegersAreLocal` prove both of whole numbers. Error texts are error values.
- `read_all` and `peek_bytes` in the agreement of runs: where the two readers mean them differently is proved exactly, and the runs compared use them only where they mean the same. `FileBuffer` is not part of this model.
- Data, chunk sizes and positions near 2 to the 64 in the readers, apart from the sum in `skip`, which wraps.
- Reading beyond the bytes of a message is undefined in the source and an error value here.
- Dns.MemoryStream.UnpackMessage: messages with resource records end in an error value, because the source's record decoding is not modelled; `Message::pack` does not support records either.
- Dns.MemoryStream.UnpackDomain: required to be called only where its loop ends; exactly where that is, is `DnsTermination.EndsIffFragmentsDiffer`.
- `Domain::parse`, the resolver and its cache, and printing of messages.
- The pool's lock, its objects' constructors, `ObjectWrapper`, and `Pool::find`, whose loop never moves on.
- MemoryPool.Pool.constructor: the objects that a new block's array default-constructs in its slots are not modelled; a slot holds an object from its acquire to its offer.
- RingBuffer.Ring.Resize: copies elements as values, which the source's memcpy does for trivially copyable types only; other element types are not modelled.
- RingBuffer.Ring.MakeCont: likewise copies elements as values.
- Ring iterators, `at`, `operator[]`, `assign`, `used` and `resize(target)`; a ring of capacity 0, whose first push writes outside its array.
- Wiping of locals on the stack in SHA-1; wiping of `block` and `w` is modelled.
- Line and column numbers of tokens; sources with characters outside ASCII, for which the source's character classes are undefined.
- Which words of four or more characters share a keyword's hash: that a word is taken for a keyword exactly by its hash is proved of every word, but which words those are is listed only up to three characters.
- Floating point in the matrix product: elements are exact integers. The result's row-major vector is a two-dimensional array.
- Matmul.MatmulCpu: its threads are joined one after the other; every interleaving is covered by `MatmulModel.EveryInterleavingMultiplies`.
- Sockets, files, subprocesses, HTTP, logging, stack traces and the GPU path.
