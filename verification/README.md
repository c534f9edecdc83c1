# Verified models of the C++ playground's concurrent and numeric cores

The repository is a collection of small C++ programs. This project models, in Dafny, the ones with the
hardest behaviour and proves what every run or every input of them keeps.

| module | program |
|---|---|
| SpscRing | the lock-free ring between one writer and one reader, in its compare-and-wrap form and its modulo form |
| SemaphorePool, SemaphoreShutdown | the thread pool whose workers block on a counting semaphore, and exactly when its destructor can hang or destroys members in use |
| DrainingPool, DrainingShutdown | the thread pool that drains its queue when it is destroyed, over stop tokens and a condition variable, and exactly when a submitter can outlive it |
| OrderedPool | the two pools that return results, or run handlers, in submission order |
| FanIn, FanInShutdown | many producers with a ring each, one consumer that gathers batches, and what stop() can still make each side lose |
| TicketMutex | the spinning and the waiting ticket mutex, on counters of fixed width |
| BlockingQueue | the bounded blocking queue and the condition-variable wrapper around a list or a single element |
| CasStack | the push-only compare-exchange stack |
| CopyOnWrite | reference-counted copy-on-write handles and the commit/undo history |
| Calendar | ten date rules over the Gregorian calendar |
| ConstexprMath, IntegralValue, IntegralNumeral | strings packed into integers, as bit fields and as numerals, with the tables they use |
| Common | options, results, counting over threads, exactly-once bookkeeping, division |

`dafny verify dfyconfig.toml` checks everything.

## How the models are built

A concurrent program is a state machine. `Step(s, a)` is one atomic operation or one critical section of one
thread; `None` means it cannot be taken now. `Run` applies a sequence of actions, so a statement about every
reachable state is a statement about every interleaving, with any number of threads, spurious wake-ups,
spurious compare-exchange failures and any choice of the sleeper a notification reaches. History fields
record what was submitted, popped or delivered; no step reads them, and a lemma of each machine reads what was
submitted off the actions of the run instead. Beside each machine stands a class with
the program's own fields, whose methods are the program's atomic sections and are proved to perform exactly
the machine's steps. Two reads are joined into one step only where the first one reads a flag that never goes
back (the stop flag of the fan-in queue), and the pop of a fan-in ring is one step, which takes any part of what
the ring holds.

The numeric and calendar programs are functions on values, with the C++ loops as methods proved against them;
unsigned widths, truncations and conversions are written out.

## What the proofs found

Most promises hold as the programs make them. Where one does not, the code is modelled as it is, a concrete
run or input shows the failure, and a further lemma says exactly when the code does keep the promise.

- The semaphore pool declares its workers before its queue, mutex and semaphore, so these are destroyed before
  the workers are joined (the draining pool's header warns of exactly this). It is sure that no schedule uses a
  destroyed member exactly when the pool has no workers and no release is pending
  (`SemaphoreShutdown.MembersSafeIff`, `WorkerOutlivesSemaphore`); tasks still queued are freed unrun. What this pool
  promises of its joins is therefore stated under the hypothesis `MembersOutliveJoins`.
- Under that hypothesis its destructor, which says it wakes all threads, can still leave one blocked for ever
  (`DestructorCanHang`). It is sure to return exactly when the queue is empty as the gate closes or there is at
  most one worker (`ShutdownJoinsIff`).
- The draining pool declares its workers last and is safe from that. What remains is a submitter outside the pool
  that has pushed its task and not yet called notify_one when destruction begins: exactly then a schedule notifies
  the destroyed condition variable (`DrainingShutdown.MembersSafeIff`).
- Both pools accept and never run tasks when they have no workers (`NoWorkersNeverRun`).
- `sizeGuess` goes wrong for rings of more than 2^31 slots, and only for them (`WrongGuess`,
  `SizeGuessReliableIff`).
- `try_lock` of the spinning ticket mutex admits a second thread when next has gone a full turn of the counter past
  the value it loaded (`OvertakenTryLockBreaksExclusion`), and either form admits two when one thread more than
  the counter has values takes a ticket (`CrowdBreaksExclusion`). The counter's number of values is exactly the
  number of tickets that is safe for any number of threads; beyond it the waiting form is safe for as many threads,
  the spinning form for one (`FairUpToIff`).
- A null moved into the single-element queue is lost (`FifoWithinCapacity`) and can strand a producer
  (`NullStrandsProducer`), exactly when three or more threads use the queue (`ProducersCoveredIff`,
  `NeverStuckIff`); a ring of capacity zero never transfers anything (`ZeroCapacityIsFullAndEmpty`).
- The fan-in consumer may exit with items still in a ring (`ExitCanStrandItems`), and a producer may return true
  uncounted, after which the consumer never exits (`ReturnCanGoUncounted`, `MissedBlocksExit`). What stop() finds
  decides both (`ExitsCompleteIff`, `EveryReturnCountedIff`), and which calls of produce drop their last items
  (`CallKeepsItemsIff`, `LateCallDropsAll`); a call that returns false has dropped none (`ProduceKeepsItems`). A
  consumer function that leaves the buffer in place gets it again (`BatchDeliveredTwice`,
  `DeliveryConservesIffTaken`).
- `IntegralValueTMS` over 128-bit integers wraps for ASCII bases above 16 (`WideIsExactIff`); without short
  input its constructor refuses one string that isValid accepts (`RefusedIff`).
- `toString` of a bit-packed value cuts at a NUL character (`RoundTripExactIff`).

## Model

| member | source | states |
|---|---|---|
| SpscRing.WrittenIsTakenPlusWindow | multiThread/OneReaderOneWriterQueue_folly.cpp:81-137 | in every interleaving of the writer's and the reader's atomic steps, in both forms of the ring, the records written are the records taken followed by the current window, in order, and the window never holds more than size - 1 |
| SpscRing.RefinesFifo | multiThread/OneReaderOneWriterQueue_folly.cpp:87-112 | both forms refine one FIFO: only the store of the write index appends, exactly the record being written, and only the store of the read index removes, exactly the front record, which is the one handed out |
| SpscRing.StepInv | multiThread/OneReaderOneWriterQueue.cpp:15-33 | every atomic load, store and slot access of either thread preserves the ring invariant |
| SpscRing.WriteFailsIffFull | multiThread/OneReaderOneWriterQueue_folly.cpp:82-94 | `write` returns false if and only if the window held size - 1 records at its load of the read index |
| SpscRing.ReadFailsIffEmpty | multiThread/OneReaderOneWriterQueue_folly.cpp:99-103 | `read` returns false if and only if the window was empty at its load of the write index |
| SpscRing.FrontFindsIffNonEmpty | multiThread/OneReaderOneWriterQueue_folly.cpp:117-124 | `frontPtr` returns nullptr if and only if the window was empty at its load of the write index, and otherwise the slot of the oldest record not yet taken, which is live and holds it |
| SpscRing.PopFrontFailsIffEmpty | multiThread/OneReaderOneWriterQueue_folly.cpp:127-129 | the assertion of `popFront` fails if and only if the window was empty at its load of the write index; otherwise it goes for the oldest record not yet taken |
| SpscRing.WaitFree | multiThread/OneReaderOneWriterQueue_folly.cpp:87-112 | once past its test, no step of the other thread can disable what is left of a write, a read or a popFront |
| SpscRing.SlotLifetime | multiThread/OneReaderOneWriterQueue_folly.cpp:87-112 | a record is constructed only in raw memory and moved from or destroyed only while live |
| SpscRing.NoSharedSlot | multiThread/OneReaderOneWriterQueue_folly.cpp:87-137 | the slot the writer is accessing is never the slot the reader is accessing |
| SpscRing.FrontPointerStable | multiThread/OneReaderOneWriterQueue_folly.cpp:117-137 | a pointer from frontPtr keeps pointing to the live front record during any steps of the writer, and the assertion of a popFront that follows holds |
| SpscRing.SizeGuessExactIff | multiThread/OneReaderOneWriterQueue_folly.cpp:161-168 | with the unsigned, int and size_t conversions written out: the guess is the distance between the loaded indices if and only if that distance fits an int and a wrapped window's indices are at most 2^31 apart, hence always for rings of at most 2^31 slots |
| SpscRing.SizeGuessBounds | multiThread/OneReaderOneWriterQueue_folly.cpp:156-168 | for rings of at most 2^31 slots: taken by the reader the guess stays a lower bound of the true size while only the writer moves; taken by the writer it stays an upper bound while only the reader moves |
| SpscRing.SizeGuessReliableIff | multiThread/OneReaderOneWriterQueue_folly.cpp:156-168 | for a ring of a given size, the guess is exact in every reachable state, and keeps both bounds in every reachable state, if and only if the ring has at most 2^31 slots |
| SpscRing.WrongGuess | multiThread/OneReaderOneWriterQueue_folly.cpp:161-168 | for every larger ring, the reachable state after 2^31 writes, in which the guess is wrong |
| SpscRing.Next | multiThread/OneReaderOneWriterQueue.cpp:35-38 | wrapping by remainder and wrapping by comparison compute the same successor index |
| SpscRing.WriterRun | multiThread/OneReaderOneWriterQueue_folly.cpp:81-95 | any steps of the writer alone leave the reader's registers, index and takings as they were and never shorten the window |
| SpscRing.ReaderRun | multiThread/OneReaderOneWriterQueue_folly.cpp:98-137 | any steps of the reader alone leave the writer's registers, index and records as they were and never lengthen the window |
| SpscRing.Ring.constructor | multiThread/OneReaderOneWriterQueue_folly.cpp:51-60 | an empty ring over raw slots, for every size the source allows |
| SpscRing.Ring.WriterAtomic | multiThread/OneReaderOneWriterQueue_folly.cpp:81-95 | each atomic action of `write`, on the shared array and indices, is the corresponding step of the model |
| SpscRing.Ring.ReadAtomic | multiThread/OneReaderOneWriterQueue_folly.cpp:98-109 | each atomic action of the first half of `read` is the corresponding step |
| SpscRing.Ring.ReleaseAtomic | multiThread/OneReaderOneWriterQueue_folly.cpp:110-112 | destroying the slot and publishing the read index are the corresponding steps |
| SpscRing.Ring.FrontAtomic | multiThread/OneReaderOneWriterQueue_folly.cpp:117-124 | each atomic load of `frontPtr`, on the shared indices, is the corresponding step of the model; the second one gives the read index exactly if the window is not empty |
| SpscRing.Ring.PopAtomic | multiThread/OneReaderOneWriterQueue_folly.cpp:127-137 | each atomic action of `popFront` up to destroying the slot, on the shared array and indices, is the corresponding step of the model |
| SpscRing.Ring.Write | multiThread/OneReaderOneWriterQueue_folly.cpp:81-95 | a whole `write`, with arbitrary reader steps between its own: it succeeds exactly when there was room in the state in which it loads the read index, which its first step and reader steps lead to, and then appends exactly its record |
| SpscRing.Ring.FinishWrite | multiThread/OneReaderOneWriterQueue_folly.cpp:87-91 | after the test a write cannot fail, and appends exactly its record |
| SpscRing.Ring.Read | multiThread/OneReaderOneWriterQueue_folly.cpp:98-113 | a whole `read`, with arbitrary writer steps between its own: it succeeds exactly when there was a record in the state in which it loads the write index, which its first step and writer steps lead to, and then takes the oldest one not yet taken |
| SpscRing.Ring.FinishRead | multiThread/OneReaderOneWriterQueue_folly.cpp:109-112 | after the test a read delivers the oldest record |
| SpscRing.Ring.Front | multiThread/OneReaderOneWriterQueue_folly.cpp:117-124 | a whole `frontPtr`, with arbitrary writer steps between its own: the live slot of the oldest record not yet taken, or nullptr exactly when the ring was empty in the state in which it loads the write index |
| SpscRing.Ring.PopFront | multiThread/OneReaderOneWriterQueue_folly.cpp:127-137 | a whole `popFront`, with arbitrary writer steps between its own: it takes the oldest record, or fails its assertion exactly when the ring was empty in the state in which it loads the write index |
| SpscRing.Ring.Destroy | multiThread/OneReaderOneWriterQueue_folly.cpp:62-78 | the destructor loop terminates, destroys exactly the remaining records, once each and front first, and leaves only raw slots |
| SemaphorePool.RunInv | multiThread/Semaphore Thread Pool.cpp:59-127 | in every reachable state permits + workers holding one + pushes not yet released + exits + empty-queue retries = queued tasks + n once the destructor has released |
| SemaphorePool.StepInv | multiThread/Semaphore Thread Pool.cpp:103-127 | every step of submitters, workers and destructor preserves that law and the bookkeeping of tasks |
| SemaphorePool.FifoOnce | multiThread/Semaphore Thread Pool.cpp:59-73 | in every run the tasks leave the queue in the order in which they were submitted before the gate closed, read off the submissions, none skipped, none twice; each popped task is finished once or in exactly one worker's hands; what the destruction of the queue frees was never popped |
| SemaphorePool.PermitOwnsATask | multiThread/Semaphore Thread Pool.cpp:103-123 | before the destructor's release a worker holding a permit never finds the queue empty, and nobody has exited |
| SemaphorePool.ExitMeansDrained | multiThread/Semaphore Thread Pool.cpp:107-111 | when any worker has exited, every accepted task has been popped and no further one can be accepted |
| SemaphorePool.AllExitedMeansAllRan | multiThread/Semaphore Thread Pool.cpp:26-39 | while the members outlive the joins: when all workers of a non-empty pool have exited, every task submitted before the gate closed ran to completion exactly once |
| SemaphorePool.QueuedTaskHasPermit | multiThread/Semaphore Thread Pool.cpp:72-72 | a queued task is never stranded: a permit for it exists, is about to be released, or is held |
| SemaphorePool.BlockedEqualsRetries | multiThread/Semaphore Thread Pool.cpp:118-119 | while the members outlive the joins: when nothing can move any more, the workers still blocked in acquire number exactly the empty-queue retries |
| SemaphorePool.JoinsReturnIffNoRetry | multiThread/Semaphore Thread Pool.cpp:36-38 | while the members outlive the joins: at rest the joins have returned if and only if no worker ever took the `continue` branch |
| SemaphorePool.StuckOnlyWhenQuiescent | multiThread/Semaphore Thread Pool.cpp:103-127 | while the members outlive the joins: after the destructor's release some step is enabled until that state of rest is reached |
| SemaphoreShutdown.ShutdownJoinsIff | multiThread/Semaphore Thread Pool.cpp:26-39 | while the members outlive the joins, for every reachable state in which the destructor begins: under every schedule nothing is left to do after boundedly many steps, and every worker has then exited, if and only if the queue is empty at that moment or there is at most one worker |
| SemaphoreShutdown.ShutdownEnds | multiThread/Semaphore Thread Pool.cpp:26-39 | once the gate is closed, every schedule, whether or not it goes on past the destruction of the members, takes at most as many steps as a measure of permits, pending releases, worker positions and pending destructor calls |
| SemaphoreShutdown.MembersSafeIff | multiThread/Semaphore Thread Pool.cpp:151-158 | the declaration order destroys sem_, mtx_ and tasks_ before workers_ is joined: from a state in which the destructor begins, every schedule leaves the destroyed members alone if and only if the pool has no workers and no submitter is between its push and its release |
| SemaphoreShutdown.DeadMemberUsed | multiThread/Semaphore Thread Pool.cpp:103-127 | in every other such state, a schedule in which a worker or a submitter uses a destroyed member |
| SemaphoreShutdown.WorkerOutlivesSemaphore | multiThread/Semaphore Thread Pool.cpp:151-158 | the least example: one idle worker waits on a destroyed semaphore, and a queued task is freed without having run |
| SemaphoreShutdown.DestructorCanHang | multiThread/Semaphore Thread Pool.cpp:105-119 | the least example: two workers and one task, after which a worker is blocked for ever, though the comment in the destructor promises to wake all threads |
| SemaphoreShutdown.HangingRun | multiThread/Semaphore Thread Pool.cpp:105-125 | from any other such state, with any number of workers, tasks and submitters, a concrete schedule that ends with a blocked worker |
| SemaphoreShutdown.EmptiedRun | multiThread/Semaphore Thread Pool.cpp:107-111 | once the gate closes on an empty queue no worker can reach the pop, so none retries |
| SemaphoreShutdown.LoneRun | multiThread/Semaphore Thread Pool.cpp:113-123 | a lone worker that is about to pop always finds a task |
| SemaphorePool.NoWorkersNeverRun | multiThread/Semaphore Thread Pool.cpp:13-24 | a pool of no workers accepts tasks and never runs one |
| SemaphorePool.ThreadPool.Submit | multiThread/Semaphore Thread Pool.cpp:61-70 | the locked part of both submit forms, while the members live: pushes exactly its task at the back, or throws and changes nothing exactly once the gate is closed |
| SemaphorePool.ThreadPool.ReleaseAfterSubmit | multiThread/Semaphore Thread Pool.cpp:96-96 | the release after a push adds one permit for one pending submission and changes nothing else |
| SemaphorePool.ThreadPool.WorkerLoop | multiThread/Semaphore Thread Pool.cpp:103-127 | while the members live, each section of the worker loop is the model's step for that worker, or the worker is blocked and nothing changes |
| SemaphorePool.ThreadPool.WorkerGate | multiThread/Semaphore Thread Pool.cpp:105-111 | acquire, stop token and emptiness test: takes one permit, and exits exactly when stopped with an empty queue |
| SemaphorePool.ThreadPool.WorkerPop | multiThread/Semaphore Thread Pool.cpp:115-123 | the pop takes the front task, which is the one the worker then runs, or goes back to acquire when the queue is empty |
| SemaphorePool.ThreadPool.WorkerRan | multiThread/Semaphore Thread Pool.cpp:125-125 | the end of the task, which is recorded once |
| SemaphorePool.ThreadPool.Destructor | multiThread/Semaphore Thread Pool.cpp:26-39 | the destructor's calls in order: flag, one stop request per worker, one release of n permits, and then the destruction of the members with whatever is still queued |
| DrainingPool.StepInv | multiThread/ThreadPool.h:30-44 | every step of submitters, notifications, workers and the one-by-one stopping and joining preserves the invariant |
| DrainingPool.ExitIsOwnAndEmpty | multiThread/ThreadPool.h:35-37 | a worker exits only with its own stop requested and the queue empty |
| DrainingPool.NonEmptyQueueHasLiveWorker | multiThread/ThreadPool.h:30-44 | while tasks are queued some worker has not exited, exactly if the pool was made with a worker |
| DrainingPool.FifoOnce | multiThread/ThreadPool.h:35-67 | in every run the tasks leave the queue in the order in which they were submitted, from outside and by tasks, read off the submissions; each popped task is finished once or in one worker's hands |
| DrainingPool.AllJoinedMeansAllRan | multiThread/ThreadPool.h:75-78 | in every run, once every worker is joined, every task that was popped ran exactly once, and the tasks popped are exactly those submitted, in order, if and only if the pool has a worker or nothing was submitted; this includes tasks submitted by tasks during the shutdown |
| DrainingPool.NoLostWakeUp | multiThread/ThreadPool.h:66-72 | whenever a worker sleeps, queued tasks are at most pending notifications, of outside submitters and running tasks, plus woken workers |
| DrainingPool.NotificationWakesOne | multiThread/ThreadPool.h:71-71 | a notification wakes exactly one sleeper, at the cost of one pending, or nobody only when nobody sleeps; any sleeper can also wake spuriously |
| DrainingPool.QueuedTaskCanMove | multiThread/ThreadPool.h:30-44 | a queued task always has a worker that can enter, is running, or sleeps with a notification pending, exactly if the pool has a worker |
| DrainingPool.JoinedWorkerCanMove | multiThread/ThreadPool.h:10-22 | the worker being joined is never asleep and can move until it exits, a task of it that owes a notification by giving it; only one is being joined at a time |
| DrainingPool.NoWorkersNeverRun | multiThread/ThreadPool.h:27-29 | a pool of no workers keeps its tasks for ever |
| DrainingShutdown.MembersSafeIff | multiThread/ThreadPool.h:56-78 | the workers are declared last, so they are joined before _cv, _mutex and _tasks are destroyed; when destruction begins, no schedule notifies the destroyed condition variable if and only if no submitter outside the pool is between its push and its notify_one |
| DrainingShutdown.DeadMemberUsed | multiThread/ThreadPool.h:66-78 | in every other such state, a schedule in which a submitter notifies the destroyed condition variable |
| DrainingShutdown.OnlyOutsideOwe | multiThread/ThreadPool.h:42-72 | once all workers have been joined, no submission made by a task is still to be notified |
| DrainingShutdown.JoinAll | multiThread/ThreadPool.h:30-44 | from every state of the shutdown there is a schedule by which the queue is drained and all workers are joined |
| DrainingPool.ThreadPool.Submit | multiThread/ThreadPool.h:57-60 | the locked part of both submit forms, from outside or from a running task, which then owes a notification |
| DrainingPool.ThreadPool.NotifyOne | multiThread/ThreadPool.h:71-71 | the notification that follows it, by the submitter that owes it, wakes one sleeper, any of them, or nobody when none sleeps |
| DrainingPool.ThreadPool.WorkerSection | multiThread/ThreadPool.h:34-41 | the worker's locked section with the stop-token wait spelled out by its definition: takes the front task, which is the one it then runs, or exits when its own stop was requested, or sleeps |
| DrainingPool.ThreadPool.TaskDone | multiThread/ThreadPool.h:42-42 | the end of a task is recorded once and the worker returns to the top of its loop |
| DrainingPool.ThreadPool.RequestStop | multiThread/ThreadPool.h:78-78 | the stop request of one jthread's destructor, all earlier ones being joined; the stop callback wakes the sleepers |
| DrainingPool.ThreadPool.DestroyQueue | multiThread/ThreadPool.h:75-78 | after the last join the condition variable, the mutex and the queue with whatever it holds are destroyed |
| TicketMutex.MutualExclusion | multiThread/spin_ticket_mutex.cpp:7-30 | at most one thread is in the critical section: for any number of threads, mixing lock and try_lock, in every run that issues at most `width` tickets; for at most `width` threads also in every run in which, at each compare-exchange of try_lock, fewer than `width` tickets separate next from the value it loaded, those outstanding at the load included, and in every run of the waiting form |
| TicketMutex.OutstandingTickets | multiThread/spin_ticket_mutex.cpp:8-13 | in those runs the outstanding tickets are exactly the integers from serving up to next, each held by exactly one thread, and the one inside holds the lowest |
| TicketMutex.FifoService | multiThread/spin_ticket_mutex.cpp:11-13 | in those runs the critical section is entered in ticket order |
| TicketMutex.TryLockSuccess | multiThread/spin_ticket_mutex.cpp:16-26 | while fewer than `width` tickets separate next from the value loaded, those outstanding at the load included, the compare-exchange of try_lock succeeds if and only if next still equals that value, and the thread is then inside with that ticket; then nobody holds a ticket and serving has not moved since it was loaded; otherwise it returns false with nothing changed |
| TicketMutex.TryLockFailure | multiThread/spin_ticket_mutex.cpp:20-25 | a failed try_lock met an outstanding ticket or a mutex served since its load, and changed nothing |
| TicketMutex.FairUpToIff | multiThread/spin_ticket_mutex.cpp:7-30 | for every form, counter width and number of threads: all runs that issue at most K tickets keep mutual exclusion and ticket order if and only if K is at most the width, or there are no more threads than the counter has values in the waiting form, or one thread alone in the spinning form |
| TicketMutex.OvertakenTryLockBreaksExclusion | multiThread/spin_ticket_mutex.cpp:16-26 | for every counter width and any two or more threads, the run in which next goes a full turn of the counter past the value a try_lock loaded, which puts two threads inside |
| TicketMutex.CrowdBreaksExclusion | multiThread/wait_ticket_mutex.cpp:11-17 | with one thread more than the counter has values, the run in which all take a ticket and the first and the last, whose tickets look equal, are both inside |
| TicketMutex.ShortRunInv | multiThread/spin_ticket_mutex.cpp:7-30 | every run of at most `width` tickets, and every run of the waiting form with at most `width` threads, keeps the ticket invariant |
| TicketMutex.AloneRun | multiThread/spin_ticket_mutex.cpp:7-30 | a thread alone finds the counter it loaded, whatever the number of tickets |
| TicketMutex.LookEntersIffServed | multiThread/wait_ticket_mutex.cpp:14-17 | although only fixed-width counters are compared, a waiting thread enters if and only if its ticket is the one being served; otherwise the spinning form looks again and the waiting form waits for exactly the value it loaded to change |
| TicketMutex.WaitBlocksIffUnchanged | multiThread/wait_ticket_mutex.cpp:18-18 | although only fixed-width values are compared, the wait blocks if and only if the value loaded is still being served |
| TicketMutex.WokenCompareAgain | multiThread/wait_ticket_mutex.cpp:18-36 | whoever is woken, by notify_all or spuriously, compares again with the value waited on, and nobody else is touched |
| TicketMutex.NoLostWakeUp | multiThread/wait_ticket_mutex.cpp:18-18 | a thread asleep sleeps on the value still being served or some unlocker is between its fetch_add and its notify_all; so the thread whose ticket equals out is never left asleep with nobody about to wake it |
| TicketMutex.ServedThreadProceeds | multiThread/wait_ticket_mutex.cpp:11-37 | while tickets are outstanding the thread being served can move or is about to be notified |
| TicketMutex.StepInv | multiThread/wait_ticket_mutex.cpp:11-37 | every atomic operation but the compare-exchange of an overtaken try_lock preserves the ticket invariant, as long as the threads or the tickets are at most `width` |
| TicketMutex.Mutex.LockFetchAdd | multiThread/spin_ticket_mutex.cpp:8-9 | taking a ticket, on wrapping counters, is the model's step |
| TicketMutex.Mutex.LockTest | multiThread/wait_ticket_mutex.cpp:14-17 | one test of the loop, on wrapping counters, is the model's step |
| TicketMutex.Mutex.LockWait | multiThread/wait_ticket_mutex.cpp:18-18 | the comparison inside atomic wait is the model's step |
| TicketMutex.Mutex.TryLockLoad | multiThread/spin_ticket_mutex.cpp:17-18 | the load of try_lock keeps the fixed-width copy of serving, as the model's step does of the unbounded one |
| TicketMutex.Mutex.TryLockCompareExchange | multiThread/spin_ticket_mutex.cpp:20-25 | the compare-exchange of try_lock on wrapping counters is the model's step, and reports whether the thread is inside |
| TicketMutex.Mutex.UnlockFetchAdd | multiThread/spin_ticket_mutex.cpp:28-30 | advancing the wrapping counter of serving is the model's step |
| TicketMutex.Mutex.UnlockNotifyAll | multiThread/wait_ticket_mutex.cpp:36-36 | notify_all sends every sleeper back to its comparison, as the model's step |
| BlockingQueue.FifoWithinCapacity | multiThread/condition8.cpp:17-31 | output then content is the input in order, restricted to what the container keeps; all of the input if and only if no null went into the single slot; the length never exceeds the capacity (21 for the list, 1 for the single element) |
| BlockingQueue.CallsPushWhatTheyAreGiven | multiThread/condition8.cpp:17-22 | in every run every thread has pushed what its calls were given, read off the calls, in their order, up to the one still waiting |
| BlockingQueue.FullIff | diff2/DataTransfer.cpp:44-66 | the container is full exactly at its capacity: 21 elements in the list, whose test is size() above 20, one in the single slot, the given number in the ring |
| BlockingQueue.NoLostConsumerWakeUp | multiThread/condition8.cpp:26-29 | while a consumer sleeps, the length is at most the number of woken consumers |
| BlockingQueue.NoLostProducerWakeUp | multiThread/condition8.cpp:19-21 | while a producer sleeps, the free slots are at most the number of woken producers, if no null went into the single slot |
| BlockingQueue.NeverStuckOnBothSides | diff2/DataTransfer.cpp:74-89 | for a positive capacity, and as long as no null goes into the single slot, a producer and a consumer are never asleep together with nobody woken |
| BlockingQueue.NeverStuckIff | diff2/DataTransfer.cpp:74-89 | nulls included: no run leaves a producer and a consumer asleep with nobody woken if and only if there are not two threads, or the capacity is positive and the container is not the single slot shared by three or more |
| BlockingQueue.ZeroCapacityIsFullAndEmpty | multiThread/condition8.cpp:14-15 | with capacity zero the ring is full and empty at once and nothing is ever transferred |
| BlockingQueue.ProducersCoveredIff | diff2/DataTransfer.cpp:74-89 | whatever is transferred, nulls included: every run keeps the producers' wake-up law if and only if the container is not the single slot or at most two threads use it |
| BlockingQueue.NullStrandsProducer | diff2/DataTransfer.cpp:28-39 | for any three or more threads, a run in which a null put into the single slot leaves a producer asleep beside an empty slot with nobody to wake it |
| BlockingQueue.StoredAll | diff2/DataTransfer.cpp:34-39 | the container keeps every element exactly when it is not the single slot or no null is among them |
| BlockingQueue.StepInv | diff2/DataTransfer.cpp:74-89 | every locked section, with any notified or spuriously woken sleeper, preserves the invariant |
| BlockingQueue.Queue.CallPush | multiThread/condition8.cpp:17-18 | a call of push or moveIn begins with the element given |
| BlockingQueue.Queue.Push | multiThread/condition8.cpp:17-22 | one locked section of push or moveIn: waits exactly when full, else stores its element and wakes one consumer |
| BlockingQueue.Queue.Pop | multiThread/condition8.cpp:24-31 | one locked section of pop or moveOut: waits exactly when empty, else removes and returns the front and wakes one producer |
| CasStack.ListIsReversedSuccesses | multiThread/compare_exchange_weak2.cpp:18-23 | in every run the list from head is acyclic and is exactly the nodes of the successful compare-exchanges, newest first, each still holding the value its push was called with |
| CasStack.ListUnique | multiThread/compare_exchange_weak2.cpp:68-72 | a pointer starts at most one list, so the previous statement determines it |
| CasStack.OwnPushesInProgramOrder | multiThread/compare_exchange_weak2.cpp:18-23 | in every run each thread's pushes are linked in its program order, with the values they were called with, and every linked node belongs to some thread |
| CasStack.FailsOnlyIfOvertaken | multiThread/compare_exchange_weak2.cpp:22-22 | a compare-exchange that is not spurious succeeds if and only if no other push succeeded since the last load of head |
| CasStack.StepInv | multiThread/compare_exchange_weak2.cpp:18-23 | every atomic step, with spurious failures, preserves the list invariant |
| CasStack.LockFreeStack.NewNode | multiThread/compare_exchange_weak2.cpp:20-20 | allocating a node with exactly the value pushed, owned by the pushing thread alone |
| CasStack.LockFreeStack.LoadHead | multiThread/compare_exchange_weak2.cpp:21-21 | the load of head into the new node's next, and nothing else |
| CasStack.LockFreeStack.CompareExchangeWeak | multiThread/compare_exchange_weak2.cpp:22-22 | one round of the loop: links the node in, or reloads head and changes nothing else |
| CasStack.LockFreeStack.Values | multiThread/compare_exchange_weak2.cpp:68-72 | the walk from head terminates and gives exactly the values of the successful pushes, newest first |
| OrderedPool.KthGetReturnsKthTask | multiThread/ThreadPoolOrderedFuture.cpp:15-23 | in every run, with any number of callers and any worker schedule: the readers get exactly what a ledger kept from the callers' own actions says they are owed; the one that pulled k-th gets the outcome submitted with the future queued k-th, after that task has completed; no pull is answered twice |
| OrderedPool.HandlersInSubmissionOrder | multiThread/ThreadPoolOrdered.cpp:11-22 | in every run of the one-thread handler pool the handlers run in submission order, the j-th with the outcome submitted j-th, after its own task has completed |
| OrderedPool.OncePerTask | multiThread/ThreadPoolOrderedFuture.cpp:17-19 | the future of every task is queued exactly once, once it has been queued at all, in any case before the task is handed to the pool; the task is started exactly once when a worker runs or ran it, never otherwise; its future is ready exactly when it has completed; the bounded queue keeps its bound |
| OrderedPool.QueueingBlocksIffFull | multiThread/ThreadPoolOrderedFuture.cpp:18-18 | a submitter is kept waiting exactly while the bounded queue holds its capacity |
| OrderedPool.WaitedTaskCanMove | multiThread/ThreadPoolOrderedFuture.cpp:18-22 | what a waiting reader waits for can be brought forward: the reader returns if it is done, the submitter that holds it can hand it to the pool, the worker that runs it can complete it, and in the pool every idle worker can take it and every busy one become idle |
| OrderedPool.StepInv | multiThread/ThreadPoolOrderedFuture.cpp:15-23 | every step of submitters, workers and readers preserves the bookkeeping of tasks and futures |
| OrderedPool.Pool.MakeTask | multiThread/ThreadPoolOrderedFuture.cpp:17-18 | making the packaged task records exactly the outcome submitted, for a new task with an unready future, for this submitter |
| OrderedPool.Pool.QueueFuture | multiThread/ThreadPoolOrderedFuture.cpp:18-18 | the future goes to the back of the queue, or nothing changes while a bounded queue is full |
| OrderedPool.Pool.HandToPool | multiThread/ThreadPoolOrderedFuture.cpp:19-19 | the task goes to the work pool after its future was queued |
| OrderedPool.Pool.WorkerTakes | multiThread/ThreadPoolOrdered.cpp:21-21 | a worker takes any one pending task, which leaves the pool |
| OrderedPool.Pool.WorkerCompletes | multiThread/ThreadPoolOrdered.cpp:21-21 | running the task makes its future ready |
| OrderedPool.Pool.PullFuture | multiThread/ThreadPoolOrderedFuture.cpp:22-22 | pulling takes the oldest future and numbers the pull, or nothing changes while the queue is empty |
| OrderedPool.Pool.WaitFuture | multiThread/ThreadPoolOrderedFuture.cpp:22-22 | the wait returns exactly the outcome of the pulled future once it is ready |
| FanIn.FanInConserves | multiThread/OneReaderMWriter2.cpp:16-41 | what a producer pushed is what was delivered of it for the first time, then what has been gathered since the last delivery, then what is in its ring, in push order, whether or not batches are taken; as long as they are, everything delivered was delivered once; rings keep their capacity |
| FanIn.ProduceKeepsItems | multiThread/OneReaderMWriter2.cpp:16-25 | in every run, what a producer's calls were made with, read off the calls, is what it pushed and then what the current or last call has left; produce returns false only when all items of the call were pushed, and only a call that met the stop can drop some, the last ones |
| FanIn.ItemsAccountedFor | multiThread/OneReaderMWriter2.cpp:16-65 | in every run, every item of every call is in exactly one place and in call order: delivered, gathered, in the ring, or not pushed |
| FanIn.CallStartsWhole | multiThread/OneReaderMWriter2.cpp:16-18 | a call of produce begins with all its items, none pushed |
| FanIn.DeliveryConservesIffTaken | multiThread/OneReaderMWriter2.cpp:36-37 | a delivery keeps the accounts of single delivery if and only if the consumer function takes the buffer or the buffer is empty |
| FanIn.BatchDeliveredTwice | multiThread/OneReaderMWriter2.cpp:36-37 | a run in which a batch left in place is delivered twice |
| FanIn.FullCountMeansNoPush | multiThread/OneReaderMWriter2.cpp:18-24 | when the done-count equals the number of producers, stop is set, no producer is in or will enter its push loop, and the count stays |
| FanIn.CountIsExact | multiThread/OneReaderMWriter2.cpp:21-23 | the done-count counts every producer at most once and is full if and only if each was counted |
| FanIn.SealedExitDeliversAll | multiThread/OneReaderMWriter2.cpp:38-40 | if the count was full when the last round began, every producer's stream has been delivered at the exit |
| FanIn.ExitCanStrandItems | multiThread/OneReaderMWriter2.cpp:32-40 | a run in which the consumer exits with an item still in a ring |
| FanIn.ReturnCanGoUncounted | multiThread/OneReaderMWriter2.cpp:21-24 | a run in which a producer returns true without having been counted |
| FanInShutdown.EveryReturnCountedIff | multiThread/OneReaderMWriter2.cpp:16-25 | at the call of stop(): every producer that is told to stop will have been counted if and only if none is then past its test of the flag on its way out of produce |
| FanInShutdown.CallKeepsItemsIff | multiThread/OneReaderMWriter2.cpp:18-20 | at the call of stop(): a call of produce under way loses none of its items under any schedule if and only if it is not at its loop test with items left, has not found room for fewer than it has left, and is not about to look for room when there is less |
| FanInShutdown.LateCallDropsAll | multiThread/OneReaderMWriter2.cpp:18-20 | once the flag is set, a call at its loop test, and every call that begins then, drops exactly all it has left |
| FanInShutdown.MissedBlocksExit | multiThread/OneReaderMWriter2.cpp:38-40 | once a producer has been missed, the consumer never exits, whatever happens |
| FanInShutdown.ExitsCompleteIff | multiThread/OneReaderMWriter2.cpp:27-46 | at the call of stop(): under every schedule the consumer's exit leaves nothing undelivered if and only if no producer is in a push that may still bring items and no ring already visited in the round holds items, or the capacity is zero, or some producer is on its way out uncounted, so that the consumer never exits |
| FanInShutdown.IncompleteExit | multiThread/OneReaderMWriter2.cpp:30-40 | in every other case, a schedule in which the consumer exits with items still in a ring |
| FanInShutdown.ExitCompleteIff | multiThread/OneReaderMWriter2.cpp:36-40 | after the exit a producer's stream has been delivered completely if and only if its ring is empty |
| FanIn.StepInv | multiThread/OneReaderMWriter2.cpp:16-65 | every step of producers and consumer preserves the invariant |
| FanIn.MpscQueue.ProduceCall | multiThread/OneReaderMWriter2.cpp:16-17 | a call of produce begins with exactly the items given |
| FanIn.MpscQueue.ProduceTest | multiThread/OneReaderMWriter2.cpp:18-18 | the loop test goes on to push exactly when not stopped and items are left |
| FanIn.MpscQueue.ProducePushLoad | multiThread/OneReaderMWriter2.cpp:19-19 | the push finds how many of the items fit in this producer's ring |
| FanIn.MpscQueue.ProducePushStore | multiThread/OneReaderMWriter2.cpp:19-19 | it appends that prefix to the ring, within the capacity, and the call goes on with the rest |
| FanIn.MpscQueue.ProduceLeave | multiThread/OneReaderMWriter2.cpp:21-23 | a producer that sees the stop after its loop is counted once |
| FanIn.MpscQueue.ProduceReturn | multiThread/OneReaderMWriter2.cpp:24-24 | produce returns true exactly when the flag is set at its last load, and the caller then retires |
| FanIn.MpscQueue.ConsumeQueue | multiThread/OneReaderMWriter2.cpp:52-65 | one pop from the current ring inserted at the buffer offset, or on to the next ring |
| FanIn.MpscQueue.ConsumeDeliver | multiThread/OneReaderMWriter2.cpp:36-37 | the whole buffer is handed over as one batch and the offset goes back to zero; the buffer empties exactly if the function takes it |
| FanIn.MpscQueue.ConsumeCheck | multiThread/OneReaderMWriter2.cpp:38-40 | the consumer exits exactly when stopped with a full count, and otherwise begins a new round |
| FanIn.MpscQueue.RequestStop | multiThread/OneReaderMWriter2.cpp:44-46 | stop() sets the flag and nothing else |
| CopyOnWrite.CreateIsInsert | diff/value_semantics.cpp:83-85 | constructing from a value adds a handle that reads it and changes no other |
| CopyOnWrite.CopyIsCopy | diff/value_semantics.cpp:91-95 | a copy reads what its source reads, counts stay exact, no other handle changes |
| CopyOnWrite.MoveIsMove | diff/value_semantics.cpp:97-101 | a move hands over the value and leaves the source null |
| CopyOnWrite.DestroyIsRemove | diff/value_semantics.cpp:103-106 | destroying a handle removes its value alone, and an object is freed exactly with its last handle |
| CopyOnWrite.ResetIsUpdate | diff/value_semantics.cpp:170-181 | release and re-point, in either order of allocation, changes this handle's value alone |
| CopyOnWrite.AssignIsUpdate | diff/value_semantics.cpp:117-124 | assigning a value, null, unique or shared, changes what this handle reads and nothing else; an object owned alone is reused in place, otherwise a new one is made |
| CopyOnWrite.WriteMakesPrivate | diff/value_semantics.cpp:138-146 | write() changes no value and leaves the handle the only owner of its object, copying exactly when it was not |
| CopyOnWrite.WriteIsolates | diff/value_semantics.cpp:126-146 | so storing through its reference updates this handle alone |
| CopyOnWrite.ReferenceIsPrivateIff | diff/value_semantics.cpp:142-145 | a store through a reference to an object affects one handle alone if and only if the count is one |
| CopyOnWrite.EditIsPure | diff/value_semantics.cpp:228-241 | each edit of the current document acts as on a vector of independent values, fails exactly when that does, and touches no other document |
| CopyOnWrite.CommitIsCopy | diff/value_semantics.cpp:239-239 | commit makes a document that reads the same and touches nothing that existed |
| CopyOnWrite.DoIsPure | diff/value_semantics.cpp:239-241 | commit, undo and each edit fail exactly when they do on a stack of independent vectors of plain values, leave a well-formed history whose documents read as that stack, and freeze every document below the top one: same handles, same pointers, same values |
| CopyOnWrite.HistoryIsPure | diff/value_semantics.cpp:237-241 | any sequence of commits, edits and undos succeeds exactly when it does on a stack of independent vectors of plain values, and leaves documents that all read as those; handles outside the documents keep pointer and value |
| CopyOnWrite.NothingLeaks | diff/value_semantics.cpp:160-181 | whatever a program did to a new history, an object is alive if and only if a handle of some document points to it |
| CopyOnWrite.HeapDetermined | diff/value_semantics.cpp:160-175 | exact counts mean that the handles and what they read determine the heap: nothing leaks |
| CopyOnWrite.AboveFrozen | diff/value_semantics.cpp:237-241 | commits, edits and undos that reach no deeper than to commit from depth n leave the first n documents, and every handle that is not in a later one, with their pointers and values |
| CopyOnWrite.UndoRestores | diff/value_semantics.cpp:237-241 | commits, edits and undos in any order that only commit from the depth they start at leave what was there alone, and once back at that depth the documents, the handles and the heap are the same, with every count and value |
| CopyOnWrite.Library.Construct | diff/value_semantics.cpp:83-85 | construction allocates an object with count one for the new handle |
| CopyOnWrite.Library.CopyOf | diff/value_semantics.cpp:91-95 | copy construction points the new handle to the same object and counts it |
| CopyOnWrite.Library.MoveOf | diff/value_semantics.cpp:97-101 | move construction takes the pointer, leaves the source null and changes no count |
| CopyOnWrite.Library.ReleasePointer | diff/value_semantics.cpp:170-175 | release: decrement, and delete at zero |
| CopyOnWrite.Library.DestroyHandle | diff/value_semantics.cpp:103-106 | the destructor gives up the handle and frees the object exactly with its last one |
| CopyOnWrite.Library.ResetTo | diff/value_semantics.cpp:177-181 | reset: the new object exists before the old one is released |
| CopyOnWrite.Library.AssignValue | diff/value_semantics.cpp:117-124 | operator=(T) in its three branches |
| CopyOnWrite.Library.WriteReference | diff/value_semantics.cpp:138-146 | write(): an object owned by this handle alone, no value changed |
| CopyOnWrite.Library.ReadValue | diff/value_semantics.cpp:153-157 | read() returns the value the handle stands for among independent values |
| CopyOnWrite.Library.CommitDocument | diff/value_semantics.cpp:239-239 | the element by element copy of the vector is commit |
| CopyOnWrite.Library.UndoDocument | diff/value_semantics.cpp:240-240 | the element by element destruction of the vector is undo |
| Calendar.OrderIsDayNumber | diff/GregorianCalendar2.cpp:54-59 | dates and day numbers are ordered alike |
| Calendar.DayNumberBijection | diff/GregorianCalendar2.cpp:54-59 | dates and the numbers from 1 up correspond one to one, leap years included (section 3.2.1 of ISO 8601:2004) |
| Calendar.NextDayNumber | diff/GregorianCalendar2.cpp:107-109 | the day after has the next number |
| Calendar.PlusDaysNumber | diff/GregorianCalendar2.cpp:89-89 | adding days adds to the number |
| Calendar.PlusYearKeepsDay | diff/GregorianCalendar2.cpp:270-293 | a year later is the same day of the same month, the last day of February staying the last |
| Calendar.DaysBeforeYearClosed | diff/GregorianCalendar2.cpp:57-57 | adding up the lengths of the years counts leap years by division by 4, 100 and 400 |
| Calendar.DaysBeforeMonthClosed | diff/GregorianCalendar2.cpp:107-109 | the days before each month by a formula without month lengths, 153 in every five months from March on, and so the length of every single month |
| Calendar.KnownMonday | diff/GregorianCalendar2.cpp:45-47 | the weekday numbering, fixed by a known date |
| Calendar.CodeIsOrderIsomorphism | diff/GregorianCalendar2.cpp:44-46 | YYYYMMDD codes and valid dates correspond one to one and compare alike (section 4.1.2.2) |
| Calendar.DateIff | diff/GregorianCalendar2.cpp:44-46 | which numbers are dates, and the number of the day each stands for, in decimal digits and division alone |
| Calendar.DenotesIff | diff/GregorianCalendar2.cpp:42-259 | on which numbers each of the ten rules falls, in decimal digits and division alone: the quarter and year boundaries as literal month-day numbers, month ends by the formula, weekdays from the day number |
| Calendar.WeekdaysAreKnown | diff/GregorianCalendar2.cpp:45-47 | 2020-04-20 as a number is a Monday, 2020-04-24 a Friday |
| Calendar.FirstIsLeast | diff/GregorianCalendar2.cpp:42-286 | for each of the ten rules firstCalendarDate is the least qualifying date on or after the given one, and fails exactly when the calendar range holds none |
| Calendar.NextIsLeast | diff/GregorianCalendar2.cpp:54-295 | nextCalendarDate on a qualifying date is the least qualifying date after it, and fails exactly when the range holds none |
| Calendar.QuarterLeast | diff/GregorianCalendar2.cpp:201-259 | the same for the quarter rules, through their month-by-month search |
| Calendar.SeekLeast | diff/GregorianCalendar2.cpp:204-213 | the quarter loop ends at the least quarter boundary before its throw |
| Calendar.IterationAscends | diff/GregorianCalendar2.cpp:27-37 | iterating from firstCalendarDate gives qualifying dates, strictly increasing, and never the coding-error exception |
| Calendar.IterationVisitsAll | diff/GregorianCalendar2.cpp:27-37 | and visits every qualifying date from the start on |
| Calendar.CodesAreLeast | diff/GregorianCalendar2.cpp:42-295 | on the unsigned YYYYMMDD values, over the digit description of dates and rules: firstCalendarDate gives the least number, not below the argument, on which the rule falls, nextCalendarDate on such a number the least above it; each fails exactly when there is none, and a number that is no date gets its own error |
| Calendar.QuarterLoop | diff/GregorianCalendar2.cpp:204-213 | the loop on date numbers computes the search, and its throw at i == 3 is unreachable from a month boundary |
| Calendar.FirstQuarterDate | diff/GregorianCalendar2.cpp:201-244 | firstCalendarDate of the quarter rules, with its errors, by the loop on date numbers |
| Calendar.NextQuarterDate | diff/GregorianCalendar2.cpp:216-259 | nextCalendarDate of the quarter rules, with its errors, by the loop on date numbers |
| ConstexprMath.IntPows | diff/hash_map/ConstexprMath.h:53-64 | the table holds exactly Base^p for every p when Base^(Size-1) fits the type and is all zero otherwise |
| ConstexprMath.DivisionGuard | diff/hash_map/ConstexprMath.h:58-58 | the guard max / Base < v is exactly the test that v * Base would overflow, so no multiplication wraps |
| ConstexprMath.IntSums | diff/hash_map/ConstexprMath.h:87-98 | the table holds p * Base below the limit when the largest fits the type, and the invalid table otherwise |
| ConstexprMath.BitNumber | diff/hash_map/ConstexprMath.h:105-114 | for a positive Diff the result is the least k with Diff < 2^k |
| ConstexprMath.LowMask | diff/hash_map/IntegralValue.h:180-186 | setting the lowest bits one by one gives 2^bits - 1 |
| ConstexprMath.BitwiseMeaning | diff/hash_map/ConstexprMath.h:17-23 | or and and act bit by bit |
| ConstexprMath.OrDisjoint | diff/hash_map/IntegralValue.h:162-162 | or with a field above everything present is addition |
| ConstexprMath.AndMask | diff/hash_map/IntegralValue.h:126-126 | and with k ones is the remainder modulo 2^k |
| ConstexprMath.CodesAreCharsetPositions | diff/hash_map/ConstexprMath.h:124-165 | codes 1 to 63 and the characters of the set correspond one to one in the order of the set, and both translations are inverse |
| ConstexprMath.AlphaNumericTables | diff/hash_map/ConstexprMath.h:128-155 | the constructor's loop fills both tables with those translations |
| IntegralValue.RoundTrip | diff/hash_map/IntegralValue.h:123-138 | unpacking a packed string returns it up to its first NUL, for every instance with begin = 0 and every accepted string of bytes its map can look up |
| IntegralValue.RoundTripExactIff | diff/hash_map/IntegralValue.h:133-138 | so it returns exactly the string if and only if it holds no NUL |
| IntegralValue.SentinelCollisionIff | diff/hash_map/IntegralValue.h:115-117 | a packed value is mistaken for the invalid one if and only if the fields fill the type, none is missing and every code is all ones |
| IntegralValue.AcceptedUntranslatedIff | diff/hash_map/IntegralValue.h:150-163 | without translation a string is accepted if and only if it has at most maxBits / bits characters, all ASCII and below the base; bytes from 128 up are never accepted |
| IntegralValue.AsciiRoundTrip | diff/hash_map/IntegralValue.h:193-193 | AsciiIntegralValue over every unsigned width accepts exactly the ASCII strings that fit, 18 characters in 128 bits, reports them valid, and returns every one without NUL characters |
| IntegralValue.ByteRoundTrip | diff/hash_map/IntegralValue.h:192-192 | ByteIntegralValue likewise: it accepts no byte from 128 up either, and never mistakes an accepted string for the invalid value |
| IntegralValue.AlphaNumericRoundTrip | diff/hash_map/IntegralValue.h:194-194 | the alphanumeric instance accepts exactly the strings over its set of at most 21 characters, reports them valid and returns them, leading and trailing '0' included |
| IntegralValue.AlphaNumericInjective | diff/hash_map/IntegralValue.h:194-194 | no two of them share a packed value |
| IntegralValue.FieldOfPack | diff/hash_map/IntegralValue.h:123-131 | shift and mask recover each code, and zero above the last |
| IntegralValue.PackAppend | diff/hash_map/IntegralValue.h:162-162 | the accumulation is the positional sum of code times 2^shift |
| IntegralValue.PackInjective | diff/hash_map/IntegralValue.h:162-162 | packing loses nothing but trailing zero codes |
| IntegralValue.PackBound | diff/hash_map/IntegralValue.h:103-104 | all fields fit in the bits they are given |
| IntegralValue.FieldsFit | diff/hash_map/IntegralValue.h:103-105 | MaxElementNum fields fit the type |
| IntegralValue.ShiftIsMultiple | diff/hash_map/IntegralValue.h:105-105 | the p-th shift is p times the bits of an element |
| IntegralValue.OrNextField | diff/hash_map/IntegralValue.h:162-162 | each or-assignment of init lands in its own field inside the type and adds it |
| IntegralValue.ByteHoldsField | diff/hash_map/IntegralValue.h:126-126 | truncating to a char before masking loses no bit of a field |
| IntegralValue.TBit.Init | diff/hash_map/IntegralValue.h:140-163 | init packs exactly the accepted strings, and otherwise throws, telling too long from out of range, or stores the invalid value; bytes from 128 up are rejected where there is no translation |
| IntegralValue.TBit.IsValid | diff/hash_map/IntegralValue.h:115-117 | after init, isValid holds exactly if the string was accepted and is not the one whose fields fill the type with ones |
| IntegralValue.TBit.ToArray | diff/hash_map/IntegralValue.h:123-131 | toArray unpacks every field |
| IntegralNumeral.ExactForAllIff | diff/hash_map/IntegralValue.h:60-87 | every accepted string gets the value of the numeral it spells if and only if the largest digit times the largest power fits std::size_t and the largest numeral fits T |
| IntegralNumeral.ExactIff | diff/hash_map/IntegralValue.h:84-87 | string by string, for every instance: no wrap-around happened if and only if each product fits std::size_t and the sum fits T; where already the largest power leaves std::size_t, and the table is all zero, if and only if the string is all zeros |
| IntegralNumeral.NarrowIsExact | diff/hash_map/IntegralValue.h:60-87 | for types of at most eight bytes and base at most 256 the value is always the numeral, below Base^length |
| IntegralNumeral.WideIsExactIff | diff/hash_map/IntegralValue.h:23-26 | the 128-bit instances over ASCII are exact if and only if the base is at most 16: beyond that a product wraps in std::size_t before it is widened |
| IntegralNumeral.OrderIsLexicographic | diff/hash_map/IntegralValue.h:84-87 | numerals of equal length compare exactly as the strings do lexicographically, and are equal only for equal strings |
| IntegralNumeral.SameValueIff | diff/hash_map/IntegralValue.h:84-87 | for an instance that never wraps: two accepted strings share a value if and only if they differ by leading `begin` characters alone |
| IntegralNumeral.RefusedIff | diff/hash_map/IntegralValue.h:29-36 | for an instance that never wraps, with base at most 256 and exceptions on: the constructor takes exactly the strings of admitted length over the characters from begin up to end, with the value of their numeral, except, when short input is not allowed, the string of `begin` characters alone, which isValid accepts |
| IntegralNumeral.AcceptedIff | diff/hash_map/IntegralValue.h:43-58 | which strings isValid accepts, by length and character range |
| IntegralNumeral.BelowLargest | diff/hash_map/IntegralValue.h:91-91 | up to base 256 no numeral is the largest value of the type |
| IntegralNumeral.AtMostNumeral | diff/hash_map/IntegralValue.h:84-87 | wrap-around only loses |
| IntegralNumeral.TMS.constructor | diff/hash_map/IntegralValue.h:24-26 | the table of powers is built in std::size_t |
| IntegralNumeral.TMS.IsValid | diff/hash_map/IntegralValue.h:43-58 | isValid: no longer than the type has bytes, as long unless short input is allowed, and every character from begin up to end |
| IntegralNumeral.TMS.Init | diff/hash_map/IntegralValue.h:78-87 | init from the last character to the first, with the products in std::size_t and the sum in T |
| IntegralNumeral.TMS.Construct | diff/hash_map/IntegralValue.h:29-36 | the constructor holds what init computed, or throws exactly when that is the invalid value and exceptions are on |

## Left out

- Memory orders: every atomic operation is sequentially consistent, so the relaxed, acquire and release
  annotations are not shown to be sufficient.
- Fairness and liveness: the progress lemmas say which step is enabled, not that a scheduler takes it.
- Submissions to the semaphore pool that begin after its members are destroyed: the caller must not make them.
- Termination of the fan-in consumer: the code does not ensure it; the accounting is proved.
- The boost and standard containers, executors, `spsc_queue`, `circular_buffer`, `sync_bounded_queue` and the
  boost date type: taken as FIFO queues, sets of pending tasks and Gregorian dates from 1400 to 9999.
- Parsing in boost: a number that is not a valid YYYYMMDD date is an error; digits after the eighth, which
  boost ignores, are not modelled.
- Exceptions thrown by tasks, futures' exception transport, argument binding, `bind_with_optional_stop`,
  sleeping, printing, `main` functions and timing.
- `isEmpty`, `isFull` and `capacity` of the ring, `isStopped` of the fan-in queue, `empty` and `full` of the
  locked wrapper: single reads.
- The folly ring's destructor for trivially destructible records, which skips the loop.
- `try_lock` of the waiting ticket mutex: it names members that do not exist.
- The default constructor and the copy_on_write assignment of the copy-on-write handle (the first stores an
  object in a pointer, the second calls itself), and drawing.
- Values under copy-on-write are opaque, so nested documents are not opened; a reference from write() that the
  client keeps past a later copy is covered only by ReferenceIsPrivateIff; concurrent handles are not modelled.
- Bit packing with begin other than 0 (codes are stored without subtracting it) or with more than 256 codes
  (a code travels through a char), bytes from 128 up with the alphanumeric map,
  whose table they overrun, `bitNumber` of 0, the constant-evaluated branches, and the `isValid` of the two
  table types, whose sense is inverted.
- `IntegralValueTMS` over bool and enumerations, and compilers on which char is unsigned or std::size_t is not
  64 bits.
- The other programs of the repository: further pool, queue, actor and lock variants, and demonstrations of
  types, tuples, allocators and logging.
