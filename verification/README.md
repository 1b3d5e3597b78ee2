# Pentagon kernel: verified models

Pentagon's kernel has a threading layer modelled on Go's runtime, the TLSF allocator, and a few
vendored containers. This project models their hard cores in Dafny and proves what they are for.

Concurrent code (mutex, semaphore, run queues, waitables, notify list, timers) is a transition system: any
number of threads or CPUs, sequentially consistent memory, one step for each access to a shared atomic or for
each region under a lock. Main results are about every state of every run. Beside these systems stand classes
with the source's own fields: the packed mutex word, the linked queues of descriptors, the rings with their
32-bit heads and tails, the TLSF control block over word-level memory, the timer array, the hash table. Their
methods are proved against specifications stated on old and new state.

| file | what it models |
|---|---|
| `Mutex`, `MutexWord`, `MutexSemaphore`, `MutexStarvation`, `MutexHandOff` | the mutex over a pool of tokens; its packed 32-bit word; the mutex over the real semaphore; starvation mode; the hand-off through the semaphore |
| `Semaphore`, `SemaphoreSpec`, `SemaphoreQueue`, `SemaphoreHandOff`, `SemaphoreOrder` | the semaphore, what its users may rely on, its linked list of waiters; tokens handed over; who is woken first |
| `RunQueue`, `RunQueueArray`, `RunQueueAnswers` | work stealing between CPUs; the rings and the global list; what get, steal and run_queue_empty answer |
| `StealOrder` | the random order in which a CPU visits the others |
| `TlsfMapping`, `TlsfRequests`, `TlsfBlocks`, `TlsfMemory`, `TlsfHeap` | size classes; request arithmetic; the heap as a graph of blocks; headers in memory; the operations |
| `Waitable`, `WaitableSafety`, `WaitableAnswers`, `WaitableOrder`, `WaitQueue`, `SelectOrder` | channels with select; the proof about them; what they answer; who is served first; their queues; the poll and lock order of a select |
| `NotifyList`, `NotifyCalls`, `NotifyQueue` | the ticketed notify list; what its calls have done when they return; its linked list |
| `TimerHeap`, `TimerWake`, `TimerLoads`, `TimerFate`, `TimerDue` | the timer heap of a CPU; timers changed by many threads, and how long a CPU may sleep; out-of-date loads; what becomes of a timer; when it runs |
| `HashProbe`, `HashTable`, `HashMap` | the probe sequence, the table and the maps of `stb_ds.h` |
| `QuickSort` | the three-way quicksort |
| `Counting`, `Permutation`, `QueueOrder`, `Multiples` | counting threads by place; rearranged sequences; who is before whom in a queue; divisibility |

`dafny verify dfyconfig.toml` checks the whole project.

## Model

| member | source | states |
|---|---|---|
| `MutexProtocol.RunInv` | kernel/sync/mutex.c:53-221 | every state of every run of lock, try_lock and unlock satisfies the invariant that ties flag bits, places of threads, tokens and copies of the word together |
| `MutexProtocol.MutualExclusion` | kernel/sync/mutex.c:53-221 | owners plus hand-offs under way are one when LOCKED or STARVING is set and none otherwise; no two threads hold the mutex |
| `MutexProtocol.WokenHasOneHolder` | kernel/sync/mutex.c:60-146 | WOKEN stands for exactly one wake-up in an unlocker, in the semaphore or in a woken thread; STARVING excludes it and needs a waiter |
| `MutexProtocol.AssertionsHold` | kernel/sync/mutex.c:101-139 | no "inconsistent mutex state" and no "unlock of unlocked mutex" in any run |
| `MutexProtocol.NoWaiterStranded` | kernel/sync/mutex.c:179-221 | with the mutex free and a waiter counted, a wake-up or a hand-off is under way, or an unlocker is still looking |
| `MutexProtocol.NoDeadlock` | kernel/sync/mutex.c:53-221 | when every thread is idle or waiting for a token, a waiting thread finds one |
| `MutexProtocol.WaitersBounded` | kernel/sync/mutex.c:43-49 | the waiter count never exceeds the number of threads |
| `MutexProtocol.UsesSemaphore` | kernel/sync/mutex.c:118-199 | what the mutex does with its semaphore the specification of semaphores allows |
| `MutexStarvation.StarvationBegins` | kernel/sync/mutex.c:94-113 | STARVING is set exactly in the step in which a thread that has waited too long finds the mutex held and goes back to sleep |
| `MutexStarvation.NextOwnerIsHandedTo` | kernel/sync/mutex.c:75-141 | from then on STARVING stays set until the mutex has been handed to a waiter: the next owner is no newcomer and no try_lock |
| `MutexStarvation.StarvationEnds` | kernel/sync/mutex.c:131-141 | STARVING is cleared exactly where a thread takes over that has not waited too long or has seen itself to be the last waiter |
| `MutexStarvation.WaitingTimeCounts` | kernel/sync/mutex.c:119-127 | after every wake-up, either outcome of the waiting time is possible |
| `MutexStarvation.TryLockFails` | kernel/sync/mutex.c:160-177 | try_lock fails only if it finds the mutex held or handed over, or the word has changed since it looked |
| `MutexStarvation.CanGoOn` | kernel/sync/mutex.c:53-221 | nothing but the semaphore makes a thread wait |
| `MutexOverSemaphore.RunSimulates` | kernel/sync/mutex.c:53-221 | every run of the mutex over the queueing, parking semaphore shows its users a run of the mutex over a pool of tokens |
| `MutexOverSemaphore.Simulates` | kernel/sync/semaphore.c:95-200 | each step of that system is at most one step of the mutex, wherever in the semaphore a token is given |
| `MutexOverSemaphore.MutualExclusion` | kernel/sync/mutex.c:53-221 | no two threads hold the mutex, with its semaphore's queue and wake-ups as they are |
| `MutexOverSemaphore.ParkedNotForgotten` | kernel/sync/mutex.c:179-221 | with a thread parked in the semaphore of an unlocked mutex, WOKEN is set, exactly one hand-off is under way, or an unlocker is still looking |
| `MutexOverSemaphore.NobodyLeftParked` | kernel/sync/mutex.c:53-221 | when every thread has left the mutex or sleeps in its semaphore, nobody sleeps there |
| `MutexHandOff.HandsOffStarving` | kernel/sync/mutex.c:182-209 | an unlocker hands the mutex over exactly if it was starving |
| `MutexHandOff.StarvingUnlockHandsOver` | kernel/sync/mutex.c:204-209 | an unlocker of a starving mutex wakes a waiter without a ticket only if it has seen, since it released its token, that none was left |
| `MutexHandOff.NormalUnlockWakes` | kernel/sync/mutex.c:195-201 | otherwise the waiter it wakes gets no ticket and competes for the mutex |
| `MutexWord.DecodeEncode` | kernel/sync/mutex.c:43-49 | packing flags and waiter count into a word loses nothing |
| `MutexWord.EncodeDecode` | kernel/sync/mutex.c:43-49 | unpacking loses nothing, so comparing words compares their parts |
| `MutexWord.FitsWord` | kernel/sync/mutex.c:43-49 | the word fits 32 bits without the sign exactly below 2^28 waiters |
| `MutexWord.WordNeverOverflows` | kernel/sync/mutex.c:43-49 | with fewer than 2^28 threads no run leaves these bits |
| `MutexWord.LockWordDecodes` | kernel/sync/mutex.c:83-106 | the word computed with bit operations is the one the protocol installs |
| `MutexWord.WakeWordDecodes` | kernel/sync/mutex.c:195-197 | taking one waiter off and setting WOKEN touches nothing else |
| `MutexWord.HandOffDeltaDecodes` | kernel/sync/mutex.c:131-140 | the single fetch-and-add of a hand-off borrows from no neighbouring field |
| `MutexWord.UnlockDecodes` | kernel/sync/mutex.c:213-221 | subtracting LOCKED from a locked word clears that bit only |
| `MutexWord.Mutex.LockFast` | kernel/sync/mutex.c:152-158 | the fast path is a step of the protocol and locks just when it sees zero and its CAS succeeds |
| `MutexWord.Mutex.LockSpinOnce` | kernel/sync/mutex.c:60-81 | a spinning thread sets WOKEN just when a waiter might be woken in its stead, and changes nothing else |
| `MutexWord.Mutex.LockInstall` | kernel/sync/mutex.c:83-113 | computing and installing the word is a step of the protocol; the assertion in it holds |
| `MutexWord.Mutex.ReadWordAfterWake` | kernel/sync/mutex.c:121-130 | re-reading after a wake-up is a step of the protocol for either outcome of the waiting time; the consistency check passes |
| `MutexWord.Mutex.AddHandOffDelta` | kernel/sync/mutex.c:131-141 | taking a handed-off mutex is a step of the protocol and leaves LOCKED set |
| `MutexWord.Mutex.TryLockInstall` | kernel/sync/mutex.c:163-177 | try_lock's CAS is a step of the protocol and succeeds exactly on an unchanged word |
| `MutexWord.Mutex.UnlockSub` | kernel/sync/mutex.c:213-221 | unlock's subtraction is a step of the protocol; the word was locked |
| `MutexWord.Mutex.UnlockInstall` | kernel/sync/mutex.c:183-203 | the wake-up loop of unlock is a step of the protocol |
| `SemaphoreProtocol.TokensConserved` | kernel/sync/semaphore.c:95-200 | initial tokens and releases equal value and acquisitions, hand-offs included, in every state |
| `SemaphoreProtocol.NoLostWakeUp` | kernel/sync/semaphore.c:95-200 | while a waiter is queued, value never exceeds the releases and woken waiters still under way |
| `SemaphoreProtocol.QuietMeansEmpty` | kernel/sync/semaphore.c:95-200 | with everybody idle or parked, and somebody parked, value is zero |
| `SemaphoreProtocol.OneWakerEach` | kernel/sync/semaphore.c:150-200 | a waiter is in the hand of one releaser at most, and off the queue then |
| `SemaphoreProtocol.Refines` | kernel/sync/semaphore.c:95-200 | every step is a step of the specification, or changes nothing that users see |
| `SemaphoreProtocol.RunRefines` | kernel/sync/semaphore.c:95-200 | users see a run of the specification |
| `SemaphoreHandOff.HandOffTried` | kernel/sync/semaphore.c:150-184 | a release with handoff that wakes a waiter without a ticket has seen, since it began, that there was no token to hand over |
| `SemaphoreHandOff.TicketMeansHandOff` | kernel/sync/semaphore.c:176-184 | a release without handoff never gives the waiter a ticket |
| `SemaphoreOrder.WokenInOrder` | kernel/sync/semaphore.c:40-92 | no releaser takes a waiter in hand while another is queued before it |
| `SemaphoreQueue.WaitList.Queue` | kernel/sync/semaphore.c:40-67 | puts a descriptor in front (lifo) or behind, relinking the list in place |
| `SemaphoreQueue.WaitList.Dequeue` | kernel/sync/semaphore.c:69-92 | takes the first descriptor and leaves the rest in order |
| `RunQueueProtocol.ThreadsConserved` | kernel/thread/scheduler.c:127-478 | over every interleaving of puts, gets, spills and thieves each thread is held exactly as often as it came minus as often as it was handed out, and 0 <= tail - head <= 256 |
| `RunQueueProtocol.DeliveredOnce` | kernel/thread/scheduler.c:351-478 | a thread put once is handed out at most once, and then it is nowhere else |
| `RunQueueProtocol.CopiesAreGood` | kernel/thread/scheduler.c:402-450 | a thief whose CAS can succeed has copied exactly the threads it takes; no slot of them was overwritten |
| `RunQueueProtocol.RoomForStolen` | kernel/thread/scheduler.c:455-478 | what was stolen fits; a spill takes half of a full ring |
| `RunQueueProtocol.NoSelfDeadlock` | kernel/thread/scheduler.c:152-185 | no put by a CPU that holds the scheduler lock takes the path that locks it |
| `RunQueueProtocol.GetFindsEmpty` | kernel/thread/scheduler.c:351-376 | a get reports an empty ring only when the ring is empty |
| `RunQueueProtocol.EmptyWasEmpty` | kernel/thread/scheduler.c:378-394 | when another CPU's queue is reported empty, there was a moment at which ring and next both were |
| `RunQueueProtocol.SelfWasEmpty` | kernel/thread/scheduler.c:480-496 | the same of a CPU that asks about itself, and it never asks twice |
| `RunQueueAnswers.GetComesBackEmpty` | kernel/thread/scheduler.c:351-376 | a get that ends without a thread ends at a moment when neither next nor the ring holds one |
| `RunQueueAnswers.StealComesBackEmpty` | kernel/thread/scheduler.c:402-460 | a steal that ends without a thread has found the ring empty, and if it was to take next as well, has gone on to next and found nothing there |
| `RunQueueAnswers.NotEmptyWasNot` | kernel/thread/scheduler.c:378-394 | when a queue, another CPU's or the own one, is reported not to be empty, there was a moment since the call at which it was not |
| `RunQueueArray.LocalRunQueue.Put` | kernel/thread/scheduler.c:259-349 | on 32-bit head and tail: the thread displaced or put comes last, or the older half spills in order |
| `RunQueueArray.LocalRunQueue.Get` | kernel/thread/scheduler.c:351-376 | returns next, or else the oldest thread, and keeps the others in order |
| `RunQueueArray.LocalRunQueue.Steal` | kernel/thread/scheduler.c:402-478 | moves the older half of the victim's ring, returns the last of it and queues the others in order |
| `RunQueueArray.GlobalRunQueue.Get` | kernel/thread/scheduler.c:152-185 | takes the CPU's share of the list, returns its first thread and puts the rest in order behind what the ring holds, for a single thread or a ring at most half full |
| `RunQueueProtocol.ShareIsLargest` | kernel/thread/scheduler.c:157-170 | no larger share would leave as much for every other CPU, be on the list, be within max and fit into half a ring |
| `RunQueueArray.SlotsDiffer` | kernel/thread/scheduler.c:307-349 | positions less than 256 apart have different slots, also across the 32-bit wrap |
| `StealOrder.Gcd` | kernel/thread/scheduler.c:770-777 | returns the greatest common divisor: a common divisor that all common divisors divide |
| `StealOrder.Reset` | kernel/thread/scheduler.c:779-787 | records exactly the numbers up to count that are coprime to it |
| `StealOrder.Visit` | kernel/thread/scheduler.c:789-808 | for every seed and every number of CPUs the order visits each CPU exactly once; the seed says where it begins and how far it goes each time |
| `StealOrder.EveryWalk` | kernel/thread/scheduler.c:789-796 | for every beginning and every step coprime to the number of CPUs there is such a seed |
| `TlsfMapping.ClassRange` | kernel/mem/tlsf.c:512-530 | the class of a size is the one whose range contains it |
| `TlsfMapping.MappingMonotone` | kernel/mem/tlsf.c:512-530 | larger sizes have classes at or above |
| `TlsfMapping.InTableExactly` | kernel/mem/tlsf.c:512-530 | a size has a class in the 25x32 table exactly below block_size_max |
| `TlsfMapping.SearchIsSound` | kernel/mem/tlsf.c:532-540 | every size in a class at or above the searched one is large enough |
| `TlsfMapping.SearchIsTight` | kernel/mem/tlsf.c:532-540 | every class below the searched one contains a size that is too small |
| `TlsfRequests.AdjustCoversExactly` | kernel/mem/tlsf.c:491-506 | an adjusted size covers the request exactly when rounding up does not wrap |
| `TlsfRequests.AdjustIsTight` | kernel/mem/tlsf.c:491-506 | below the wrap, less than eight bytes are added beyond the minimum |
| `TlsfRequests.AdjustRejects` | kernel/mem/tlsf.c:491-506 | a non-zero request is turned down exactly between block_size_max - 7 and 2^64 - 8 |
| `TlsfRequests.AdjustWraps` | kernel/mem/tlsf.c:491-506 | the largest size_t is cut down to the minimum block |
| `TlsfRequests.GapRoomExactly` | kernel/mem/tlsf.c:1122-1147 | the size searched for leaves room for gap and request exactly for alignments below 2^63 |
| `TlsfRequests.AlignedSizeExactly` | kernel/mem/tlsf.c:1122-1147 | below 2^63 the size searched for is the next multiple of the alignment from request, alignment and minimal gap on, less than one alignment more, and zero exactly if that reaches block_size_max |
| `TlsfRequests.GapRoomWraps` | kernel/mem/tlsf.c:1122-1147 | the size that `tlsf_memalign` computes for 4096 bytes aligned to 2^63 is 24 |
| `TlsfHeap.MisplacedBlock` | kernel/mem/tlsf.c:1122-1177 | a heap in which that request returns a block of 24 bytes that is not aligned |
| `TlsfRequests.AlignmentGap` | kernel/mem/tlsf.c:1149-1172 | the gap is zero or at least 32, and below 2^63 leads to an aligned address at less than align + 32 |
| `TlsfMemory.WordOperations` | kernel/mem/tlsf.c:364-408 | masks and flag operations on size words do what the parts of a word say |
| `TlsfMemory.CellsApart` | kernel/mem/tlsf.c:288-330 | headers of different blocks share no word that means something, though prev_phys lies in the block before |
| `TlsfMemory.PayloadClear` | kernel/mem/tlsf.c:288-330 | no header word lies in the payload of a block in use |
| `TlsfBlocks.ListsAreExact` | kernel/mem/tlsf.c:843-894 | each list holds exactly the free blocks of its class, each once |
| `TlsfHeap.Control.SearchSuitableBlock` | kernel/mem/tlsf.c:542-572 | the bitmap search returns the head of the first non-empty list from a class on, or null when there is none |
| `TlsfHeap.Control.BlockLocateFree` | kernel/mem/tlsf.c:752-780 | returns null exactly when no free block reaches the rounded-up class, else takes a large enough block off its list |
| `TlsfHeap.Control.Malloc` | kernel/mem/tlsf.c:1114-1120 | fails exactly when the request is turned down or the heap is exhausted for it, and then changes nothing; else hands out a new block that is large enough and wastes less than 32 bytes, from the first list with blocks that are surely large enough; no other payload changes |
| `TlsfHeap.Control.Free` | kernel/mem/tlsf.c:1179-1191 | takes exactly this block out of use, merging; the heap invariant holds and no other payload changes |
| `TlsfHeap.Control.Memalign` | kernel/mem/tlsf.c:1122-1177 | fails exactly when the request is turned down or no free block reaches the class of the next multiple of the alignment from request, alignment and gap on, and then changes nothing; else the block is new, aligned and at least the adjusted size, for alignments below 2^63, where the leading split is never declined; at 2^63 it is aligned exactly at the address 2^63 |
| `TlsfHeap.NoRoomBound` | kernel/mem/tlsf.c:1122-1147 | when it fails for a request that is not turned down, no free block reaches the class searched for any size that holds the request, twice the alignment and the gap |
| `TlsfHeap.Control.Realloc` | kernel/mem/tlsf.c:1207-1263 | keeps the contents up to the smaller size, grown in place, shrunk or moved; moves only if it must; fails exactly when it must move and there is no room, and then changes nothing; no other payload changes |
| `TlsfHeap.Control.ReallocRejected` | kernel/mem/tlsf.c:1224-1258 | a request that is turned down returns the pointer with a block smaller than asked for; from 32 bytes on, that block gets size zero and a free header in its payload, which no sound heap contains |
| `TlsfHeap.RejectedRequest` | kernel/mem/tlsf.c:491-506 | such a request exists: block_size_max bytes |
| `TlsfHeap.Control.AddPool` | kernel/mem/tlsf.c:979-1026 | rejects exactly misaligned or badly sized memory; else adds one free block and a sentinel, with the heap invariant |
| `TlsfHeap.LimitEscapesTable` | kernel/mem/tlsf.c:991-1006 | of the sizes admitted, exactly block_size_max has no list |
| `TlsfHeap.LimitIsReached` | kernel/mem/tlsf.c:991-1006 | a pool of block_size_max plus overhead reaches it |
| `TlsfHeap.Control.Check` | kernel/mem/tlsf.c:843-894 | in any state whose lists can be followed, sound or not, the checker returns zero exactly if bitmaps, lists and listed blocks agree |
| `TlsfHeap.Control.ListsAgree` | kernel/mem/tlsf.c:843-894 | between two operations they do |
| `TlsfHeap.Control.CheckPool` | kernel/mem/tlsf.c:903-942 | in any state, the checker of a pool returns zero exactly if each block says of the one before whether it is free |
| `TlsfHeap.Control.PoolAgrees` | kernel/mem/tlsf.c:903-942 | between two operations they do |
| `WaitableSafety.TokensBalance` | kernel/thread/waitable.c:136-306 | committed sends minus committed waits are the count, within the size, on every waitable in every state |
| `WaitableSafety.CommitsOnce` | kernel/thread/waitable.c:136-550 | an operation that succeeds has committed exactly the case it reports, one that fails none |
| `WaitableSafety.ReadiedOnce` | kernel/thread/waitable.c:51-83 | whoever is about to ready a thread finds it parked, and nobody else has it in hand, on however many queues it is |
| `WaitableSafety.ParkedIsReachable` | kernel/thread/waitable.c:397-550 | a parked thread is queued for all its cases or in somebody's hand |
| `WaitableSafety.LiveReceiversWait` | kernel/thread/waitable.c:136-306 | a live queued receiver excludes a buffered token, a live sender of another thread, and a closed waitable except while the closer empties it |
| `WaitableSafety.LiveSendersWait` | kernel/thread/waitable.c:136-306 | a live queued sender means a full buffer |
| `WaitableSafety.SelectFindsWaker` | kernel/thread/waitable.c:497-550 | a select that wakes up finds the descriptor through which it was woken among its own |
| `WaitableAnswers.ClosedMeansReceived` | kernel/thread/waitable.c:199-253 | when a receive, plain or in a select, answers that a waitable is closed, it is, its buffer is empty, and every committed send has been received |
| `WaitableAnswers.CloserFindsDry` | kernel/thread/waitable.c:255-306 | so it is when the closing thread takes a waiting receiver off the queue to wake it |
| `WaitableAnswers.NothingSentAfterClose` | kernel/thread/waitable.c:136-306 | a closed waitable stays closed, and no further send to it is committed |
| `WaitableAnswers.TurnedBackStuck` | kernel/thread/waitable.c:136-460 | an operation that answers that it would have to block was, at some moment since it began, unable to go ahead with any of its cases |
| `WaitableAnswers.TurnedBackOpen` | kernel/thread/waitable.c:199-253 | and it answers so only if, when it decided, none of the waitables it is to receive from was closed |
| `WaitableOrder.FirstComeFirstServed` | kernel/thread/waitable.c:37-83 | nobody is chosen from a wait queue while somebody who came before is still on it, whatever is appended, passed over or dropped meanwhile |
| `WaitQueue.Queue.Enqueue` | kernel/thread/waitable.c:37-49 | appends to the doubly linked queue |
| `WaitQueue.Queue.Dequeue` | kernel/thread/waitable.c:51-83 | passes over the selects somebody else has won, and takes the first other descriptor |
| `WaitQueue.Queue.DequeueWt` | kernel/thread/waitable.c:85-118 | takes a descriptor out of any position, or does nothing if it is out already |
| `SelectOrder.PollOrder` | kernel/thread/waitable.c:353-358 | the inside-out shuffle gives a permutation for any random numbers |
| `SelectOrder.EveryOrder` | kernel/thread/waitable.c:353-358 | every permutation comes up for some random numbers |
| `SelectOrder.OneShuffleEach` | kernel/thread/waitable.c:353-358 | and for no others, so all are equally likely |
| `SelectOrder.Orders` | kernel/thread/waitable.c:353-395 | the lock order is a permutation of the cases sorted by address |
| `SelectOrder.LockAll` | kernel/thread/waitable.c:310-319 | locks the runs of equal waitables of that order, one each |
| `SelectOrder.UnlockAll` | kernel/thread/waitable.c:321-330 | gives back the same locks, the last first |
| `SelectOrder.ParkUnlock` | kernel/thread/waitable.c:332-344 | so does parking, from the descriptors |
| `SelectOrder.LocksIncrease` | kernel/thread/waitable.c:310-319 | of a sorted order, each waitable is locked exactly once, by increasing address |
| `SelectOrder.NoDeadlock` | kernel/thread/waitable.c:310-330 | any selects that take their locks one by one in these orders: while there is any, one can go on |
| `SelectOrder.LocksExclude` | kernel/thread/waitable.c:310-330 | no two of them have the same lock |
| `NotifyListProtocol.TicketsUnique` | kernel/sync/notify_list.c:43-72 | each ticket has gone through or is with exactly one thread |
| `NotifyListProtocol.ListHoldsPending` | kernel/sync/notify_list.c:47-155 | with the lock free, the list holds exactly the parked threads whose tickets lie from notify on |
| `NotifyListProtocol.NotifiedIsWoken` | kernel/sync/notify_list.c:47-155 | the thread of a ticket below notify has gone through, will not park, or is about to be readied |
| `NotifyListProtocol.NotifyOneInOrder` | kernel/sync/notify_list.c:104-155 | notify_one takes the tickets in order and finds the thread of its ticket wherever it is on the list |
| `NotifyListProtocol.ReadyFindsParked` | kernel/sync/notify_list.c:74-155 | a thread about to be readied is parked and in nobody else's hand |
| `NotifyCalls.AllNotifies` | kernel/sync/notify_list.c:74-93 | when notify_all is done with the counters, also where it turns back at once, every ticket taken before the call has been notified |
| `NotifyCalls.NotifyAllWakes` | kernel/sync/notify_list.c:74-102 | when it has returned, the thread of each such ticket has gone through, will not park, or is in the hand of another notifier |
| `NotifyCalls.OneNotifies` | kernel/sync/notify_list.c:104-125 | notify_one notifies exactly one ticket more, or returns with every ticket taken before the call notified |
| `NotifyListProtocol.LessAgrees` | kernel/sync/notify_list.c:39-41 | on tickets modulo 2^32 less than 2^32 apart, `less` is right exactly while the first is less than 2^31 ahead and at most 2^31 behind |
| `NotifyListProtocol.LessFails` | kernel/sync/notify_list.c:39-41 | a pair of tickets on which it is wrong, in each direction |
| `NotifyListProtocol.EqualAgrees` | kernel/sync/notify_list.c:74-125 | counters modulo 2^32 are equal exactly when the counters are, with fewer than 2^32 tickets out |
| `NotifyQueue.List.Append` | kernel/sync/notify_list.c:56-66 | puts a descriptor behind the last, relinking tail in place |
| `NotifyQueue.List.Take` | kernel/sync/notify_list.c:136-154 | finds the first descriptor with the ticket, or none, and unlinks exactly that one, from any position |
| `NotifyQueue.List.TakeAll` | kernel/sync/notify_list.c:81-86 | takes the whole chain and leaves the list empty |
| `NotifyQueue.ReadyAll` | kernel/sync/notify_list.c:95-101 | readies every descriptor of the chain once, in order, and unchains it |
| `TimerHeap.Timers.SiftUp` | kernel/thread/timer.c:96-118 | settles one key upwards in a 4-ary heap, a permutation that changes nothing below the index it returns |
| `TimerHeap.Timers.SiftDown` | kernel/thread/timer.c:124-169 | settles one key downwards, a permutation |
| `TimerHeap.Timers.DoAdd` | kernel/thread/timer.c:220-237 | the heap has one more timer, and timer0_when is the root's time |
| `TimerHeap.Timers.DoDelete` | kernel/thread/timer.c:242-265 | takes out exactly the i-th timer and changes nothing below the index it returns; timer0_when is the root's time although refreshed only for the root |
| `TimerHeap.Timers.AdjustTimers` | kernel/thread/timer.c:350-433 | past its early exit it terminates in spite of going back, and leaves a heap of exactly the timers not deleted, each at its effective time |
| `TimerHeap.Timers.ClearDeleted` | kernel/thread/timer.c:559-644 | one pass leaves the same heap, packed, with the counts reduced by what was dropped |
| `TimerHeap.Timers.RunPeriodic` | kernel/thread/timer.c:438-463 | a periodic timer stays in the heap for its next time |
| `TimerPeriod.NextRun` | kernel/thread/timer.c:446-451 | the next time is after now by at most a period, whole periods from the last, or INT64_MAX |
| `TimerPeriod.NextRunExactly` | kernel/thread/timer.c:446-451 | it is the first time after now that is whole periods from the last, and INT64_MAX exactly when 64 bits cannot hold that |
| `TimerWakeProtocol.NeverOversleeps` | kernel/thread/timer.c:175-265 | whenever nobody holds the lock, the wake-up time of the two words at that moment is not after any pending timer of the heap, and zero only if there is none |
| `TimerWakeProtocol.Timer0IsRoot` | kernel/thread/timer.c:175-181 | timer0_when is the time of the root, zero just for an empty heap, except while clear_deleted_timers runs |
| `TimerWakeProtocol.EarliestIsBound` | kernel/thread/timer.c:183-193 | timer_modified_earliest is not zero and a lower bound for every timer modified to run earlier that no scan has still to look at |
| `TimerLoads.StaleFirstLoad` | kernel/thread/timer.c:970-979 | with any value from the first load, the result is in time in every state with these two words exactly if there is no timer, or the first or the second load is not zero and not after the root |
| `TimerLoads.NothingDue` | kernel/thread/timer.c:874-907 | exactly under the same condition, a check_timers that turns back after its two loads misses no pending timer that is due |
| `TimerLoads.LoadsMissTimer` | kernel/thread/timer.c:970-979 | a run in which a check_timers between the two loads makes the result 100 while a timer waits for 50 |
| `TimerLoads.CheckMissesTimer` | kernel/thread/timer.c:874-907 | with the same loads another check_timers at 60 turns back while that timer is due |
| `TimerFate.StepFate` | kernel/thread/timer.c:481-547 | a timer that is going to run stays so in every step, except when it is stopped, run for the last time, or dropped by run_timer |
| `TimerFate.EndsOnce` | kernel/thread/timer.c:481-849 | a timer that has ceased to be going to run, in any run, was stopped, run or dropped at some step in between |
| `TimerFate.RemovedExactly` | kernel/thread/timer.c:520-535 | a pending timer is removed exactly in the step in which run_timer, having met it modified at the root, drops it |
| `TimerFate.MetIsDropped` | kernel/thread/timer.c:520-535 | when run_timer looks at a modified root, the holder of the lock can only drop it |
| `TimerFate.LostExactly` | kernel/thread/timer.c:520-535 | a timer that is not stopped is lost without having run exactly where run_timer drops it, in every run |
| `TimerFate.PostponedTimerLost` | kernel/thread/timer.c:520-535 | a run in which a timer put off from 100 to 200 is gone after a check at 150 |
| `TimerDue.NeverEarly` | kernel/thread/timer.c:481-849 | in every run check_timers runs a timer no earlier than the last timer_start or timer_modify asked for, however it has been moved about since |
| `TimerDue.StoppedForGood` | kernel/thread/timer.c:676-734 | once timer_stop has taken effect, the timer is not going to run and is not run until somebody starts or modifies it again |
| `TimerDue.ChecksAllDue` | kernel/thread/timer.c:915-928 | the loop of check_timers ends only when no timer of the heap is due by its `when`, and so no waiting one at all |
| `TimerDue.MetIsRun` | kernel/thread/timer.c:485-500 | when run_timer looks at a waiting root that is due, the holder of the lock can only run it |
| `TimerDue.SkipsOnlyEarly` | kernel/thread/timer.c:350-358 | adjust_timers turns back only if no timer that was modified to run earlier is due |
| `TimerDue.RunsPeriodically` | kernel/thread/timer.c:438-463 | a periodic timer that has run stays in the heap, due at the first time after now that is whole periods from the last |
| `TimerDue.AnswersAreTrue` | kernel/thread/timer.c:676-804 | timer_stop and timer_modify tell, at every moment, whether the timer was going to run, and try again only while somebody else changes or moves it |
| `TimerDue.CanAsk` | kernel/thread/timer.c:742-804 | otherwise timer_modify can always proceed, for a stopped timer too |
| `HashProbe.BucketsDiffer` | kernel/util/stb_ds.h:1276-1280 | the growing steps come to no bucket of a power-of-two table twice |
| `HashProbe.AllSlots` | kernel/util/stb_ds.h:1235-1282 | a search comes to every slot |
| `HashTable.EmptyMeansAbsent` | kernel/util/stb_ds.h:1251-1275 | a search that ends at an empty slot has missed no item in the table |
| `HashTable.LastMoved` | kernel/util/stb_ds.h:1508-1521 | after a swap-delete, redirecting one slot makes the table right for the shortened array |
| `HashMap.HashIndex.FindSlot` | kernel/util/stb_ds.h:1235-1282 | terminates; returns a slot of the key, or -1 only if no item of the table has it |
| `HashMap.HashIndex.SearchToPut` | kernel/util/stb_ds.h:1374-1436 | finds the key, or else the first slot on its path that is not in use, a tombstone or the empty slot |
| `HashMap.HashIndex.NeverFull` | kernel/util/stb_ds.h:912-939 | used slots and tombstones stay below slot_count, so a slot is empty |
| `HashMap.MakeHashIndex` | kernel/util/stb_ds.h:887-1014 | a new table holds every item of the old one and no tombstones |
| `HashMap.Map.GetIndex` | kernel/util/stb_ds.h:1284-1321 | the index of the item with the key, or -1 exactly if the map has no such key |
| `HashMap.Map.Put` | kernel/util/stb_ds.h:1340-1462 | the finite map is updated at the key, for any hash function; the table doubles exactly if it is three quarters full |
| `HashMap.Map.Delete` | kernel/util/stb_ds.h:1475-1541 | the key is removed from the finite map, the last item taking its place; the table is cut to half exactly if it has more than four slots an item and more than eight, so that no operation leaves such a table |
| `QuickSort.Exchange` | kernel/libc/qsort.c:11-20 | swaps two elements that are the same or do not overlap, byte by byte |
| `QuickSort.Partition` | kernel/libc/qsort.c:25-37 | parts the range around its last element, equal keys at both ends |
| `QuickSort.Divide` | kernel/libc/qsort.c:25-40 | after the swap-back loops, also where they cross, the two ranges are smaller and everything between equals the pivot |
| `QuickSort.Sort` | kernel/libc/qsort.c:25-58 | terminates with a sorted permutation for every array and every total-preorder comparator |

## Findings

Where the code does something else than it is for, the model follows the code.

- An allocation of more than 2^64 - 8 bytes is cut down to the minimum block, because rounding up wraps
  (`TlsfRequests.AdjustCoversExactly`, `AdjustWraps`).
- `tlsf_memalign` at alignment 2^63 searches for a block of 24 bytes, whatever the request, and returns it aligned
  only at the address 2^63 (`GapRoomExactly`, `GapRoomWraps`, `TlsfHeap.Control.Memalign`, `MisplacedBlock`).
- `tlsf_add_pool` admits a pool of exactly block_size_max bytes, which has no list (`LimitEscapesTable`).
- `tlsf_realloc` does not test for a request that `adjust_request_size` turns down. It returns the old pointer
  for less memory than asked for, and trims a live block of 32 bytes or more to size zero
  (`AdjustRejects`, `ReallocRejected`).
- `less` is wrong from 2^31 tickets ahead on, and more than 2^31 behind (`LessAgrees`, `LessFails`).
- `nobarrier_wake_time` and `check_timers` load two words one after the other, and a timer moved from one to the
  other in between is missed: the CPU sleeps too long, or the check turns back though a timer is due
  (`TimerLoads.StaleFirstLoad`, `NothingDue`, `LoadsMissTimer`, `CheckMissesTimer`).
- `run_timer` drops a timer at the root that has been modified instead of moving it
  (kernel/thread/timer.c:520-535), so a timer that was put off is never run (`TimerFate.LostExactly`,
  `RemovedExactly`, `MetIsDropped`, `PostponedTimerLost`).

## Left out

- Weak memory orders, interrupts, TLS and register switching: memory is sequentially consistent, parking is
  "mark as waiting, then unlock", readying makes a thread runnable.
- 32-bit reuse of ring positions during a stalled CAS: `RunQueueProtocol` has unbounded counters;
  `RunQueueArray` has 32-bit ones, for one CPU at a time.
- The linking of threads through `sched_link` in the global run queue: it is a sequence.
- Descriptors are fresh for each operation; the caches of kernel/thread/thread.c are not part of this model.
- Reference counts of waitables and timers, and freeing.
- RunQueueProtocol: a batch of `global_run_queue_get` larger than one is taken only after the CPU's own ring was
  found empty, as all its callers do.
- WaitableProtocol: locks all waitables of a select in one step; taking them one by one is in `SelectOrder`.
- TlsfHeap.Control.AddPool: excludes a pool of exactly block_size_max bytes, for which there is no list.
- TlsfHeap.Control.Realloc: excludes requests that are turned down; they are in `ReallocRejected`.
- TlsfHeap.Control.ReallocRejected: ends where the cut-off rest would be merged and listed, since after the cut no
  heap invariant describes the memory.
- Bitmaps of the TLSF control block are sets of bit positions and the block lies at address zero; `tlsf_remove_pool`
  is not modelled.
- TimerHeap: statuses are held fixed while `adjust_timers` and `clear_deleted_timers` run; other threads changing
  them meanwhile are in `TimerWakeProtocol`.
- `clean_timers` moving a modified root: its assertion is inverted (kernel/thread/timer.c:317-318). Dropping a
  deleted root is modelled.
- `timer_start` sets the status and adds the timer in one step; a timer being started is not yet shared.
- TimerPeriod.NextRun: signed overflow wraps around, which C leaves undefined.
- TimerWakeProtocol: allows `clear_deleted_timers` at the end of any check. The code's test compares deleted_timers
  with num_timers / 4 the other way round than its comment says (kernel/thread/timer.c:931-936); the two counts are
  in `TimerHeap`.
- MutexProtocol: takes the queue position and the outcome of the waiting time as arbitrary, because
  `wait_start_time` is not initialised (kernel/sync/mutex.c:54).
- Keys and hash functions of `stb_ds.h` are arbitrary; its string modes, arenas and the overflow of slot_count are
  left out. Buckets of eight slots are consecutive slots of two arrays.
- The comparator of `qsort` is a total preorder without side effects.
- `kernel/sync/rwmutex.c`: it tests the old value of a fetch-and-add where the algorithm needs the new one.
- Wait groups, condition variables, `list.c`, the .NET heap, page tables, drivers and self-tests.
