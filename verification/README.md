# Verified model of the order-book engine

A Dafny model of the shared-memory algorithms and data structures of a C++ market-data engine, with
proofs of what they promise. Each file models one component:

- `LockFreeQueue.dfy`: the Michael-Scott multi-producer multi-consumer queue, as an interleaving of
  single atomic operations of any number of threads, weak compare-exchange failing at will.
- `QueueProgress.dfy`: an operation of that queue that runs alone finishes, from any reachable state,
  and in every interleaving some operation finishes within a bounded number of steps.
- `QueueHistory.dfy`: the queue is linearizable, operation by operation, and retired nodes are deleted.
- `SeqLock.dfy`: the sequence lock and the optimistic read loop, interleaved, for any number of
  writers and any reading programs.
- `PriceIndexMap.dfy`, `OrderBook.dfy`, `OrderBookClass.dfy`: the open-addressing price table, the
  book as a value with the invariants of every serial run, and the in-place code proved to compute
  those values.
- `BookSnapshots.dfy`: `get_snapshot` as a program over the sequence lock, `update_level` as the
  stores of a write section, and what a validated snapshot shows.
- `RateLimiter.dfy`: the token bucket, serial and interleaved.
- `Routing.dfy`: the multi-exchange book and the greedy allocation of smart order routing.
- `Histogram.dfy`: the logarithmic latency histogram, its percentile scan, and concurrent recording.
- `Recorder.dfy`: the binary recording format, the recorder's file side and the replayer.
- `RecordingSession.dfy`: the recorder's writer thread and its producers on top of the queue's own
  atomic steps, from `record` to the replayed file, over any number of recordings.
- `RingBuffer.dfy`, `MemoryPool.dfy`: the single-producer single-consumer ring and the object pool,
  each as an object and as an interleaving. `Modular.dfy` holds their index arithmetic.
- `Analytics.dfy`: the rolling VWAP and TWAP calculators.
- `Sorting.dfy`: std::sort by a strict order, for snapshots and routing.
- `Common.dfy`: option type, word size, unsigned differences, pigeonhole principle.

Concurrent objects are step systems over values: a state, one function per atomic step, and history
variables that no step reads. Objects used serially are classes whose methods are proved against
specification functions. Atomics are sequentially consistent, doubles are reals, and unsigned 64-bit
wrap-around is written out where it can be observed. Clocks, file opening, spurious failures and
the order of threads are parameters.

## What the proofs found

- The documentation of the price table speaks of tombstones (include/core/order_book.hpp:40,
  178-179), but `remove` writes the empty marker. A deletion keeps the table searchable exactly
  when no other entry's probe path crosses the cleared slot (`RemoveKeepsIntactIff`). Otherwise some
  quoted price becomes unfindable and its next update opens a second level
  (`UnsafeDeleteDuplicates`); prices congruent modulo 4096 give a four-call example, and all
  whole-unit prices share 16 home slots.
- An unsafe deletion does not by itself make the side wrong (`UnsafeDeleteStillMirrors`). A side is
  the plain map from prices to quotes all along a serial run, and `update_level` answers what the map
  would, if and only if every update of a quoted price finds it in the table, and every update at
  price 0 is refused or deletes a free level (`RunRefinesIff`). Harmless updates and safe deletions
  are exactly what keeps every quoted price findable (`RunSoundIff`).
- A fixed price of 0 is the free-slot marker. Table and levels stay in one-to-one correspondence on a
  run exactly when no accepted update at price 0 is sent to an occupied level (`RunInStepIff`); such
  an update wipes out another price's level (`ZeroPriceErases`). The cached best index is right on
  every run, whatever the prices (`RunValid`).
- `update_level` ignores the result of the table's insertion, and MAX_LEVELS is a template parameter.
  The insertion never fails on any run of harmless updates if and only if MAX_LEVELS is at most the
  4096 slots of the table (`InsertFitsIff`). The results on runs are for such books.
- `write_lock` does not exclude other writers. For writers that may store anything, a validated read
  is one completed memory, in every continuation, exactly when no writer was inside at the load of
  the even sequence (`AtomicIffQuiet`). Two overlapping calls of `update_level` are enough to tear a
  snapshot: while the first has stored the price of its level only and the second has taken the lock,
  the sequence is even, and a snapshot taken then is validated and shows the price with quantity 0
  (`OverlappingUpdatesTear`). With one writer at a time every validated snapshot shows the book
  after seq/2 updates.
- The imbalance is computed from signed casts. It is the true quotient exactly when both volumes are
  below 2^63, or equal (`ImbalanceExactIff`).
- The 0.001-token refill threshold lets a window exceed capacity + rate * time, by less than 0.001
  (`WindowBound`). From a full bucket it does exactly when some time has passed since its last
  refill, but too little to be worth 0.001 (`SlackIff`). With a clock reading older than the last refill the unsigned
  difference wraps and the whole bucket is granted twice (`LateReadingBreaksBound`): every
  interleaving stays within capacity + rate * time if and only if there is no second thread
  (`BoundIffOneThread`), and any interleaving does in which no wrapped difference wins the exchange
  on the refill time (`ConcurrentBound`).
- Of `record` calls: once `stop` has come, every way on to the writer's end has all accepted updates
  recorded, if and only if every call in progress at `stop` had its value linked (`AllRecordedIff`).
  Otherwise `record` can answer true after the writer's last look at the queue; the update then
  stays in the queue, which `start` does not empty, and goes into the next recording.
- A recorder has one file name, and `start` opens it anew. An accepted update that is on disk stays
  there exactly until the next `start` that takes effect (`OnDiskIff`, `StartErases`). A call made
  and answered within one recording is on disk when its writer is done (`CallWithinIsOnDisk`).
- A rolling window loses updates made while the clock is below the window length, because the
  cutoff subtraction wraps; `WindowExactIff` says exactly when the window is right.
- A TWAP sample at time 0 gets no duration; `DurationsTelescope` gives the exact condition.
- A percentile answers no more than the true order statistic exactly when that is positive: bucket 0
  stands for 0 and 1 alike and reads as 1. When the rank floor(total * p / 100) is 0, as for the
  median of one sample, the answer is 1 whatever was recorded.

## Model

| member | source | states |
|---|---|---|
| `LockFreeQueue.StepInv` | include/utils/lock_free_queue.hpp:152-278 | every atomic step of every thread keeps the chain shape (head not past tail, tail last or second-to-last, every node after head carries its value), the knowledge of every thread, disposal, answers and size accounting |
| `LockFreeQueue.RunInv` | include/utils/lock_free_queue.hpp:152-278 | the invariant holds in every state of every interleaving of any number of pushers and poppers |
| `LockFreeQueue.RunFifo` | include/utils/lock_free_queue.hpp:152-278 | in every state of every interleaving the values taken are a prefix of the values in link order, and the rest is what a walk from head meets |
| `LockFreeQueue.Fifo` | include/utils/lock_free_queue.hpp:240-278 | popped values followed by the contents found by pointer walk are the linked values; empty exactly when all were popped |
| `LockFreeQueue.StepRefines` | include/utils/lock_free_queue.hpp:152-278 | each step leaves the abstract queue alone, appends exactly the pushed value (the successful link) or removes exactly the front (the successful head swing) |
| `LockFreeQueue.EmptyPopSawEmpty` | include/utils/lock_free_queue.hpp:240-250 | a pop that reports empty read head->next earlier in the same attempt, and the queue was empty at that step |
| `LockFreeQueue.NullNextMeansEmpty` | include/utils/lock_free_queue.hpp:244-254 | a node that once was head and has no successor is the head of an empty queue |
| `LockFreeQueue.LinkShape` | include/utils/lock_free_queue.hpp:157-169 | a successful link happens at the tail node and keeps the list shape and all other threads' knowledge |
| `LockFreeQueue.SwingTailShape` | include/utils/lock_free_queue.hpp:165-176 | moving tail to a successor, or failing to, keeps the list shape |
| `LockFreeQueue.SwingHeadShape` | include/utils/lock_free_queue.hpp:258-263 | a successful head swing takes the next value in link order and keeps the list shape |
| `LockFreeQueue.DisposedUnreachable` | include/utils/lock_free_queue.hpp:320-332 | no retired or freed node can be reached by any number of pointers from head or tail |
| `LockFreeQueue.SizedKept` | include/utils/lock_free_queue.hpp:165-169 | modulo 2^64 `size_` is chain length minus linked-but-uncounted pushes plus unlinked-but-undiscounted pops, across steps that leave `size_` alone |
| `LockFreeQueue.SizedCounted` | include/utils/lock_free_queue.hpp:168-169 | the same law across the counting steps of push and pop |
| `LockFreeQueue.SizeAtQuiescence` | include/utils/lock_free_queue.hpp:307-309 | with no operation in progress `size_` is the queue length |
| `LockFreeQueue.AnsweredAtQuiescence` | include/utils/lock_free_queue.hpp:262-277 | with no operation in progress every value taken was returned, by the thread that took it, and every old head retired exactly once |
| `LockFreeQueue.StepGrows` | include/utils/lock_free_queue.hpp:152-278 | no step takes back links, positions, values or pops of earlier ones |
| `QueueProgress.SoloPopStep` | include/utils/lock_free_queue.hpp:240-278 | a pop step without interference or spurious failure comes closer to the answer |
| `QueueProgress.SoloPushStep` | include/utils/lock_free_queue.hpp:152-177 | a push step without interference or spurious failure comes closer to the return |
| `QueueProgress.AloneFinishes` | include/utils/lock_free_queue.hpp:152-278 | from every reachable state, whatever the others have begun, an operation that runs alone finishes |
| `QueueProgress.EffectiveMoves` | include/utils/lock_free_queue.hpp:152-278 | a step without spurious failure completes its operation or takes more off the thread's weight than it can add to all others |
| `QueueProgress.LockFree` | include/utils/lock_free_queue.hpp:152-278 | lock freedom: in every interleaving of n threads, among any 18 n^2 + 50 n + 1 successive steps without spurious failure, not counting failed attempts to retire a node, one completes an operation |
| `QueueHistory.HistoryIsLegal` | include/utils/lock_free_queue.hpp:152-278 | the effects of the steps so far, in order, are a history of a sequential queue and lead to what a walk from head meets |
| `QueueHistory.PushLinearizes` | include/utils/lock_free_queue.hpp:152-177 | between its call and its return a push does one thing to the queue: it appends its value |
| `QueueHistory.PopLinearizes` | include/utils/lock_free_queue.hpp:240-278 | between its call and its return a pop takes the value it answers off the front, once; one that answers empty does nothing, and the queue was empty at one of the steps in between |
| `QueueHistory.ReclaimFrees` | include/utils/lock_free_queue.hpp:341-368 | when a pop finds 100 or more nodes counted as retired, every node retired then has been deleted by the time it returns |
| `QueueHistory.FewRetired` | include/utils/lock_free_queue.hpp:320-368 | with one thread the count is that of the retired nodes between calls, and at most 99 wait to be deleted |
| `SeqLock.StepInv` | include/utils/seq_lock.hpp:80-133 | with any number of writers every lock, store, unlock and load keeps sequence, completed books and readers' loads consistent |
| `SeqLock.RunInv` | include/utils/seq_lock.hpp:80-133 | that invariant holds throughout every interleaving |
| `SeqLock.ReadBegan` | include/utils/seq_lock.hpp:109-120 | what a reader notes is the state at the step where it loaded the even sequence |
| `SeqLock.QuiescentReadIsAtomic` | include/utils/seq_lock.hpp:109-133 | for any number of writers, a validated read that began with no writer inside loaded what it would load alone on the completed book of that moment |
| `SeqLock.ValidatedReadIsAtomic` | include/utils/seq_lock.hpp:80-133 | with one writer at a time every validated read is atomic, on the book after seq/2 completed write sections |
| `SeqLock.LoadsAreExecution` | include/core/order_book.hpp:508-559 | loads chosen by the reading program and agreeing with one memory are that program's solo execution on it |
| `SeqLock.OverlapTears` | include/utils/seq_lock.hpp:80-133 | for writers that may store anything: whenever an even sequence is loaded with writers inside, some continuation validates a read of values that were never in memory together |
| `SeqLock.TwoWritersTear` | include/utils/seq_lock.hpp:80-95 | two such writers inside at once, as write_lock allows, are enough, for any memory and any program that reads two words |
| `SeqLock.AtomicIffQuiet` | include/utils/seq_lock.hpp:80-133 | for writers that may store anything: every continuation that validates a read read one completed memory, if and only if no writer is inside when the even sequence is loaded |
| `PriceIndex.PriceIndexMap.constructor` | include/core/order_book.hpp:78-80 | a new table has only empty slots |
| `PriceIndex.PriceIndexMap.Find` | include/core/order_book.hpp:104-128 | the probing loop computes the lookup of the table |
| `PriceIndex.PriceIndexMap.Insert` | include/core/order_book.hpp:154-173 | the loop writes the first empty or equal slot of the probe path, and fails exactly when there is none |
| `PriceIndex.PriceIndexMap.Remove` | include/core/order_book.hpp:198-220 | the loop clears the slot holding the price, and fails exactly when the probe does not meet it |
| `PriceIndex.PriceIndexMap.Clear` | include/core/order_book.hpp:229-234 | every slot becomes the empty marker |
| `PriceIndex.SameHome` | include/core/order_book.hpp:258-260 | two prices share a home slot exactly when they agree modulo 4096 |
| `PriceIndex.WholeUnitHomes` | include/core/types.hpp:294 | whole-unit prices collide exactly when the units agree modulo 16 |
| `PriceIndex.ProbeFindsLive` | include/core/order_book.hpp:104-128 | in an intact table each live entry is where the probe for its price ends |
| `PriceIndex.LookupExact` | include/core/order_book.hpp:104-128 | find on an intact table answers exactly the stored mapping |
| `PriceIndex.EmptySlotGivesRoom` | include/core/order_book.hpp:154-173 | one empty slot anywhere is enough for insert to succeed |
| `PriceIndex.InsertKeepsMap` | include/core/order_book.hpp:154-173 | insert keeps the table intact, stores the mapping, changes no other price, and fails exactly on a full table without the price |
| `PriceIndex.RemoveKeepsIntactIff` | include/core/order_book.hpp:198-220 | remove as written keeps the table intact if and only if no other live entry's probe path crosses the cleared slot |
| `OrderBook.FreeLevelGivesRoom` | include/core/order_book.hpp:449-455 | by pigeonhole, with no more levels than table slots the unchecked insert succeeds whenever a level is free |
| `OrderBook.InsertFitsIff` | include/core/order_book.hpp:449-455 | the unchecked insert never fails on any run of harmless updates if and only if MAX_LEVELS is at most the table size |
| `OrderBook.UpdateInStep` | include/core/order_book.hpp:443-467 | every update but one at price 0 that is sent to an occupied level keeps table entries and occupied levels in one-to-one correspondence with equal prices, even after cut probe chains |
| `OrderBook.UpdateInStepIff` | include/core/order_book.hpp:443-467 | exactly those updates keep the correspondence |
| `OrderBook.InsertThenRemove` | include/core/order_book.hpp:454-467 | inserting an unknown price and removing it again leaves the table as it was, with its slot cleared |
| `OrderBook.UpdateMirrorsIff` | include/core/order_book.hpp:432-474 | an update does on the side, and answers, what the map from prices to quotes does, if and only if a quoted price is found, and price 0 is refused or deletes a free level |
| `OrderBook.UnsafeDeleteDuplicates` | include/core/order_book.hpp:198-220 | an unsafe deletion makes some quoted price unfindable, and its next update opens a second level |
| `OrderBook.CollidingPricesDuplicate` | include/core/order_book.hpp:432-474 | add p, add q, delete p, update q leaves q on two levels, for all distinct p, q congruent modulo 4096 |
| `OrderBook.UnsafeDeleteStillMirrors` | include/core/order_book.hpp:198-220 | the unsafe deletion among them leaves the side equal to the reference map |
| `OrderBook.ZeroPriceErases` | include/core/order_book.hpp:432-474 | updates at price 0 overwrite another price's level |
| `OrderBook.BestIndexIsBest` | include/core/order_book.hpp:779-806 | the scan yields SIZE_MAX exactly on an empty side, else a maximal bid or minimal ask |
| `OrderBook.RunValid` | include/core/order_book.hpp:432-474 | in every state of every serial run, whatever the prices, the cached best index is right and the table answers only indices of levels |
| `OrderBook.RunBestPrices` | include/core/order_book.hpp:779-806 | in every state of every serial run the cached best bid is at least every occupied bid, the cached best ask at most every occupied ask, and there is none exactly on an empty side |
| `OrderBook.TargetInRange` | include/core/order_book.hpp:443-461 | the unchecked store goes to a level |
| `OrderBook.RunInStepIff` | include/core/order_book.hpp:432-474 | the correspondence holds all along a serial run if and only if no accepted update at price 0 is sent to an occupied level |
| `OrderBook.SequenceCounts` | include/core/order_book.hpp:472-473 | the sequence number is the number of true answers, modulo 2^64 |
| `OrderBook.RunRefines` | include/core/order_book.hpp:432-474 | on every serial run whose updates find the quoted prices they name each side is the reference map at every point, and each call answers what the reference answers |
| `OrderBook.RunRefinesIff` | include/core/order_book.hpp:432-474 | a side refines the reference map all along a serial run if and only if every update of a quoted price finds it, and every update at price 0 is refused or deletes a free level |
| `OrderBook.SafeRunRefines` | include/core/order_book.hpp:432-474 | runs at other prices than 0 whose deletions are safe are such runs |
| `OrderBook.RunSoundIff` | include/core/order_book.hpp:432-474 | a side stays in step and searchable all along a serial run if and only if every update is harmless and every deletion safe when it happens |
| `OrderBook.RunSnapshot` | include/core/order_book.hpp:504-562 | at any point of a run that refines the map a snapshot of depth d is the min(d, n) best quotes of the reference in strict price order |
| `OrderBook.FullMeansCount` | include/core/order_book.hpp:759-766 | all slots are taken exactly when there are as many quotes as slots |
| `OrderBook.BestIsFront` | include/core/order_book.hpp:582-626 | the cached best level has the price of the first row of every sorted listing, even with duplicates |
| `OrderBook.SnapshotIsTop` | include/core/order_book.hpp:504-562 | with distinct prices a snapshot of depth d holds min(d, n) quotes; bids strictly fall and asks strictly rise, and every bid left out is lower, every ask left out higher |
| `OrderBook.RankedIsFull` | include/core/order_book.hpp:514-534 | collecting the occupied slots and sorting them lists every occupied level once, bids downwards and asks upwards |
| `Sorting.SortPermutes` | include/core/order_book.hpp:524-525 | sorting is a permutation |
| `Sorting.SortSorts` | include/core/order_book.hpp:524-525 | by a strict weak order the result is sorted |
| `OrderBookEngine.SnapshotSide` | include/core/order_book.hpp:514-534 | collect, sort and emit loops give the first rows of a full sorted listing |
| `OrderBookEngine.FindFreeSlot` | include/core/order_book.hpp:759-766 | the first unoccupied index, or SIZE_MAX exactly when none |
| `OrderBookEngine.ScanBest` | include/core/order_book.hpp:779-806 | the loop computes the best index, whose meaning is `OrderBook.BestIndexIsBest` |
| `OrderBookEngine.CountSide` | include/core/order_book.hpp:700-709 | depth is the number of occupied levels and volume their quantity modulo 2^64 |
| `OrderBookEngine.VolumeOfRows` | include/core/order_book.hpp:700-709 | that volume is the sum of the quantities in every full snapshot |
| `OrderBookEngine.BookSideObject.Update` | include/core/order_book.hpp:438-472 | for every price the in-place stores on one side stay in bounds and compute the specified side and answer |
| `OrderBookEngine.BookSideObject.Clear` | include/core/order_book.hpp:728-748 | the side becomes the empty side |
| `OrderBookEngine.OrderBookObject.constructor` | include/core/order_book.hpp:339-356 | a new book is the empty book |
| `OrderBookEngine.OrderBookObject.UpdateLevel` | include/core/order_book.hpp:432-474 | one in-place call is one step of the serial run, with the other side untouched |
| `OrderBookEngine.OrderBookObject.Clear` | include/core/order_book.hpp:728-748 | both sides empty, sequence number kept |
| `OrderBookEngine.OrderBookObject.GetSnapshot` | include/core/order_book.hpp:504-562 | both listings are snapshots of the current levels, with the current sequence number |
| `OrderBookEngine.OrderBookObject.GetSpread` | include/core/order_book.hpp:582-594 | the front ask minus the front bid of every snapshot of depth at least one, in units of 10^-8 |
| `OrderBookEngine.OrderBookObject.GetMidPrice` | include/core/order_book.hpp:614-626 | half the sum of the two fronts, in units of 10^-8 |
| `OrderBookEngine.OrderBookObject.GetBookImbalance` | include/core/order_book.hpp:648-669 | computed from the wrapped volumes of the occupied levels |
| `OrderBookEngine.ImbalanceMeaning` | include/core/order_book.hpp:661-668 | for all volumes the true imbalance lies in [-1, 1], with 1 and -1 exactly for one-sided books |
| `OrderBookEngine.ImbalanceExactIff` | include/core/order_book.hpp:661-668 | the code computes the true imbalance if and only if both volumes are below 2^63, or equal |
| `OrderBookEngine.ImbalanceTurns` | include/core/order_book.hpp:661-668 | with one volume at 2^63 or more and the other below, the imbalance has the wrong sign, or is 0 |
| `OrderBookEngine.OrderBookObject.GetStatistics` | include/core/order_book.hpp:693-712 | spread and mid price agree with snapshots, depths are the lengths of full snapshots, volumes the sums of their quantities modulo 2^64, imbalance follows from them |
| `OrderBookEngine.FrontOf` | include/core/order_book.hpp:582-626 | on a side whose cached index is right, every snapshot of depth at least one starts with the cached best price |
| `BookSnapshots.SectionCarries` | include/core/order_book.hpp:432-474 | the stores of one update or clear, made in its write section, turn a memory that holds the book into one that holds the next book |
| `BookSnapshots.LoadsAddrs` | include/core/order_book.hpp:508-559 | a finished snapshot that read one memory loaded what it would load alone on it |
| `BookSnapshots.SnapshotOfBook` | include/core/order_book.hpp:504-562 | its rows are snapshots of the book that memory holds, its number that book's update counter |
| `BookSnapshots.ActKeeps` | include/core/order_book.hpp:432-562 | every store, load, lock and unlock of serial writers and snapshot takers keeps completed memories and books together |
| `BookSnapshots.UpdateFinishes` | include/core/order_book.hpp:432-474 | from every state of every such run with no writer inside, a call's lock, stores and unlock lead to the next book |
| `BookSnapshots.SnapshotFinishes` | include/core/order_book.hpp:504-562 | a snapshot that begins with no writer inside and is not disturbed is validated by its own loads and shows the current book |
| `BookSnapshots.SnapshotShowsBook` | include/core/order_book.hpp:504-562 | in every interleaving of serial updates and any number of snapshots of any depths, a validated snapshot shows the book after seq/2 completed write sections |
| `BookSnapshots.SnapshotShowsReference` | include/core/order_book.hpp:504-562 | when every update finds the quoted price it names it shows the best quotes of the reference map in strict price order |
| `BookSnapshots.SnapshotReadsTwo` | include/core/order_book.hpp:514-520 | get_snapshot is a program that reads two words whatever it finds and stops |
| `BookSnapshots.OverlappingUpdatesTear` | include/core/order_book.hpp:432-562 | two overlapping calls of update_level, a bid on an empty book and any ask: a snapshot in between is validated and shows a row (price, 0, 0) that is in the book neither before, nor after the first call, nor after both |
| `RateLimiter.Limiter.constructor` | src/utils/rate_limiter.cpp:13-31 | invalid rate and capacity are replaced, the tokens start at the capacity asked for |
| `RateLimiter.Limiter.Refill` | src/utils/rate_limiter.cpp:148-185 | for any number of spurious failures the loop computes the lazy refill |
| `RateLimiter.Limiter.TryAcquire` | src/utils/rate_limiter.cpp:55-76 | grants exactly when the refilled tokens suffice, and takes exactly what it grants |
| `RateLimiter.RefillKeeps` | src/utils/rate_limiter.cpp:148-185 | a refill never raises tokens plus rate * seconds since the last refill, leaves that less than 0.001 above capacity, and moves all of it but 0.001 into the tokens |
| `RateLimiter.AcquireSpends` | src/utils/rate_limiter.cpp:55-76 | what a call grants comes out of tokens plus rate * seconds; it refuses only when that, capped, could not pay 0.001 more than asked |
| `RateLimiter.BoundFromConstruction` | src/utils/rate_limiter.cpp:13-18 | from construction at most capacity + rate * time is granted |
| `RateLimiter.WindowBound` | src/utils/rate_limiter.cpp:55-76 | in every window of every serial run less than capacity + rate * time + 0.001 is granted |
| `RateLimiter.NoSlack` | src/utils/rate_limiter.cpp:148-185 | no 0.001 is needed when the refill at the window's start leaves tokens plus rate * seconds at most the capacity |
| `RateLimiter.SlackIsNeeded` | src/utils/rate_limiter.cpp:156-160 | for any rate and capacity, a full bucket last refilled a little while ago exceeds capacity + rate * time in some window |
| `RateLimiter.SlackIff` | src/utils/rate_limiter.cpp:148-185 | of a full bucket every window stays within capacity + rate * time if and only if no time has passed since its last refill, or enough to refill |
| `RateLimiter.StepBounded` | src/utils/rate_limiter.cpp:148-185 | every atomic step keeps the tokens in [0, capacity] |
| `RateLimiter.RunBounded` | src/utils/rate_limiter.cpp:55-76 | in every interleaving the tokens stay in [0, capacity] |
| `RateLimiter.EveryCallAnswered` | src/utils/rate_limiter.cpp:55-76 | in every interleaving a call is granted exactly what it asked for, out of the tokens there are, or refused at a step at which there are fewer |
| `RateLimiter.AloneAnswers` | src/utils/rate_limiter.cpp:55-76 | from every state a call that runs alone without spurious failure answers within six steps |
| `RateLimiter.SoloAcquire` | src/utils/rate_limiter.cpp:55-76 | a call that runs alone does what one serial call does |
| `RateLimiter.NothingLost` | src/utils/rate_limiter.cpp:148-185 | a step in which no wrapped difference wins loses nothing of what was granted, held, claimed or still to be refilled, except to a full bucket |
| `RateLimiter.ConcurrentBound` | src/utils/rate_limiter.cpp:148-185 | in every interleaving in which no wrapped difference wins the exchange on the refill time, at most capacity + rate * time is granted since construction |
| `RateLimiter.LateReadingBreaksBound` | src/utils/rate_limiter.cpp:149-153 | among two or more threads, one with an older reading: the difference wraps, the bucket refills wholly and twice the capacity is granted |
| `RateLimiter.OneThreadBound` | src/utils/rate_limiter.cpp:148-185 | one thread never exceeds capacity + rate * time, whatever the clock and the spurious failures |
| `RateLimiter.BoundIffOneThread` | src/utils/rate_limiter.cpp:148-185 | every interleaving of a number of threads stays within capacity + rate * time if and only if there is at most one |
| `Routing.UpdatedMeaning` | src/core/aggregated_order_book.cpp:19-64 | after an update the bids of its exchange hold, for each price quoted, the last bid quote if positive and nothing if not, the asks likewise the ask quotes, other prices and exchanges are as before, and the time is the update's; other symbols change nothing |
| `Routing.UpdatedKept` | src/core/aggregated_order_book.cpp:32-64 | every stored level has a positive quantity, its own price and its own exchange |
| `Routing.AggregatedBook.Apply` | src/core/aggregated_order_book.cpp:19-64 | the in-place loops do exactly that |
| `Routing.AggregatedBook.Merge` | src/core/aggregated_order_book.cpp:305-347 | the first levels of a listing that holds every bid once, falling, or every ask once, rising, across exchanges |
| `Routing.AggregatedBook.Route` | src/core/aggregated_order_book.cpp:161-202 | allocations are the greedy fill by exchange, never more than an exchange offers, and total min(quantity, liquidity) |
| `Routing.Allocate` | src/core/aggregated_order_book.cpp:190-202 | the allocation loop gives each exchange its part of the level-by-level fill |
| `Routing.FillsTotal` | src/core/aggregated_order_book.cpp:190-202 | the fill takes exactly the smaller of what is asked and what there is |
| `Routing.AllocatedWithinLiquidity` | src/core/aggregated_order_book.cpp:190-202 | no exchange is allocated more than it offers |
| `Routing.Pivot` | src/core/aggregated_order_book.cpp:190-202 | the fill is full before one level and empty after it |
| `Routing.GreedyIsOptimal` | src/core/aggregated_order_book.cpp:161-202 | among all feasible fills of the same size the greedy one has the least sum of price times quantity for a buy, the greatest for a sell |
| `Histogram.BucketError` | include/metrics/metrics_collector.hpp:266-287 | bucket and value functions: w <= v for every positive v, and v^10 < 2(w+1)^10 when its bucket is not cut off |
| `Histogram.WordFits` | include/metrics/metrics_collector.hpp:266-274 | with 640 buckets or more no 64-bit value is cut off |
| `Histogram.BucketMono` | include/metrics/metrics_collector.hpp:266-274 | larger values never fall into smaller buckets |
| `Histogram.ZeroReadsAsOne` | include/metrics/metrics_collector.hpp:266-287 | a recorded zero is reported as one |
| `Histogram.LatencyHistogram.Record` | include/metrics/metrics_collector.hpp:116-135 | one serial record updates bucket, extremes, count and sum |
| `Histogram.LatencyHistogram.GetPercentile` | include/metrics/metrics_collector.hpp:161-178 | the scan loop computes the percentile function, whose meaning is `Histogram.PercentileMeaning` |
| `Histogram.LatencyHistogram.Reset` | include/metrics/metrics_collector.hpp:247-255 | back to the empty histogram |
| `Histogram.RecordAllTallies` | include/metrics/metrics_collector.hpp:116-135 | buckets, count and sum are the numbers of values per bucket, in all, and their sum, modulo 2^64 |
| `Histogram.RecordAllExtremes` | include/metrics/metrics_collector.hpp:122-131 | min and max are the least and greatest value recorded |
| `Histogram.PercentileMeaning` | include/metrics/metrics_collector.hpp:161-178 | with k = floor(total * p / 100): 0 on no values, 1 for k = 0, the maximum for k beyond the total, else the value of the bucket of the k-th smallest |
| `Histogram.PercentileError` | include/metrics/metrics_collector.hpp:161-178 | the answer w for the true order statistic v is at most v if and only if v > 0, and v^10 < 2(w+1)^10 when the bucket of v is not cut off |
| `Histogram.KthExists` | include/metrics/metrics_collector.hpp:161-178 | for 1 <= k <= total there is a k-th smallest value |
| `Histogram.KthUnique` | include/metrics/metrics_collector.hpp:161-178 | the k-th smallest value is unique |
| `Histogram.StepInv` | include/metrics/metrics_collector.hpp:116-135 | every atomic step of concurrent records keeps the accounting of buckets, extremes, count and sum |
| `Histogram.QuiescentTotals` | include/metrics/metrics_collector.hpp:116-135 | after any interleaving, once all calls returned, the counters are those of recording the values one after the other |
| `Histogram.AloneReturns` | include/metrics/metrics_collector.hpp:116-135 | from every state a call of record that runs alone without spurious failure returns within six steps |
| `Histogram.SoloRecord` | include/metrics/metrics_collector.hpp:116-135 | a call of record that runs alone does what one serial record does |
| `Histogram.ConcurrentPercentile` | include/metrics/metrics_collector.hpp:161-178 | the percentile promise, with k = floor(total * p / 100), after concurrent recording |
| `Recorder.ReadUpdateBack` | src/persistence/market_data_recorder.cpp:513-562 | a written update reads back with its symbol cut modulo 256, and the reader stays in step |
| `Recorder.RoundTripIffFits` | src/persistence/market_data_recorder.cpp:215-252 | an update survives the round trip, update id apart, exactly when symbol and level counts fit their fields |
| `Recorder.StreamRoundTrip` | src/persistence/market_data_recorder.cpp:362-405 | a list of updates is replayed as recorded, with a clean end, exactly when each fits |
| `Recorder.CutReplay` | src/persistence/market_data_recorder.cpp:513-562 | of a file whose last record is cut short the updates before it are replayed, and the cut one is reported, exactly if its timestamp is whole |
| `Recorder.HeaderBack` | src/persistence/market_data_recorder.cpp:190-213 | the header reads back to its format and the rest of the file |
| `Recorder.HeaderBytes` | src/persistence/market_data_recorder.cpp:190-213 | the twelve bytes of a header: 4D 44 4F 42, 1, 0, 0, 0, format, 0, 0, 0 |
| `Recorder.OpensIff` | src/persistence/market_data_recorder.cpp:488-511 | a binary file opens if and only if it has twelve bytes of which the first four are the magic number, and is refused if and only if other four come first |
| `Recorder.RecordLayout` | src/persistence/market_data_recorder.cpp:215-252 | a record is timestamp, exchange, length of the symbol, symbol, number of bids, bids, number of asks, asks, in this order |
| `Recorder.LevelAt` | src/persistence/market_data_recorder.cpp:230-248 | level j is bytes 20j to 20j + 19 of its list: price, quantity, order count |
| `Recorder.ByteOf` | src/persistence/market_data_recorder.cpp:215-252 | numbers are written lowest byte first |
| `Recorder.FileRecorder.Start` | src/persistence/market_data_recorder.cpp:36-68 | a fresh recording holds the header, with counters at zero; refused when already recording or the file does not open |
| `Recorder.FileRecorder.WriteBinary` | src/persistence/market_data_recorder.cpp:215-252 | the write loops append exactly the record and count its bytes |
| `Recorder.FileRecorder.Drain` | src/persistence/market_data_recorder.cpp:171-188 | the final loop appends the queued updates in order; bytes and updates written stay exact |
| `Recorder.FileReplayer.Open` | src/persistence/market_data_recorder.cpp:488-511 | wrong magic is refused, the version is not looked at, the format byte is taken over |
| `Recorder.FileReplayer.ReadBinary` | src/persistence/market_data_recorder.cpp:513-562 | the read loops compute the next record, end of file or a cut record |
| `Recorder.FileReplayer.ReplayFile` | src/persistence/market_data_recorder.cpp:362-405 | the callbacks are the records up to the end of the file, in order |
| `RecordingSession.ActKeepsInv` | src/persistence/market_data_recorder.cpp:36-188 | every atomic step of producers, writer, stop and start keeps: what the writer popped is what it wrote in this recording and the overwritten ones, or is in its hand; every accepted answer names the place of its update in link order; and what stop found stays true |
| `RecordingSession.SessionRunInv` | src/persistence/market_data_recorder.cpp:36-188 | that invariant holds in every state of every interleaving over the lock-free queue |
| `RecordingSession.RefusedIff` | src/persistence/market_data_recorder.cpp:95-103 | a record call answers false if and only if it finds the flag down, and otherwise goes on to push |
| `RecordingSession.EveryAnswer` | src/persistence/market_data_recorder.cpp:95-103 | in every session each answer is that of one call, the first of its thread since that call read the flag, with the call's own update, and false if and only if the flag was down |
| `RecordingSession.RecordFinishes` | src/persistence/market_data_recorder.cpp:95-103 | a record call that finds the flag up, left alone, answers true with its own update |
| `RecordingSession.RecordedIsReplayed` | src/persistence/market_data_recorder.cpp:132-188 | when the writer is done, the file holds exactly the values linked after those of the overwritten recordings and before its last loop found the queue empty, in link order and once each, with all linked when stop came; the file replays as written |
| `RecordingSession.AnswerInFile` | src/persistence/market_data_recorder.cpp:95-103 | each accepted call has its own place in link order, and is in the file exactly when that is behind the overwritten recordings and before the point where the queue was found empty |
| `RecordingSession.AcceptedBeforeStopIsRecorded` | src/persistence/market_data_recorder.cpp:70-103 | a call that answered true before stop has been written when the writer is done, and is in the file exactly when no overwritten recording had it |
| `RecordingSession.CallWithinIsOnDisk` | src/persistence/market_data_recorder.cpp:70-103 | a call made and answered true between a start and the stop is in the file when the writer is done |
| `RecordingSession.OnDiskIff` | src/persistence/market_data_recorder.cpp:36-68 | an update in the file at one step is in the file at a later one if and only if no start took effect in between |
| `RecordingSession.StartErases` | src/persistence/market_data_recorder.cpp:42-48 | a session in which an accepted update is on disk when the writer is done, and the next start leaves only a header |
| `RecordingSession.AllRecordedIff` | src/persistence/market_data_recorder.cpp:70-103 | after stop every way on to the writer's end has all accepted updates in the file, but for those overwritten recordings had, if and only if every call in progress at stop had its value linked |
| `RecordingSession.WriterFinishes` | src/persistence/market_data_recorder.cpp:132-188 | after stop the writer, left alone, comes to its end |
| `RecordingSession.ProducerFinishes` | src/persistence/market_data_recorder.cpp:95-103 | a record call that saw the flag up, left alone, answers true |
| `RecordingSession.UnsettledCanMiss` | src/persistence/market_data_recorder.cpp:95-103 | a call whose value is not linked after stop can answer true with its update in no recording |
| `RecordingSession.LateRecordMissesFile` | src/persistence/market_data_recorder.cpp:95-103 | a session in which record answers true and the file of the finished recording is only a header |
| `RecordingSession.DoneIsFinal` | src/persistence/market_data_recorder.cpp:171-188 | after the writer is done nothing more goes into its file, whoever goes on pushing |
| `RingBuffer.StepInv` | include/utils/ring_buffer.hpp:99-173 | every single load and store of producer and consumer keeps the ring invariant |
| `RingBuffer.RingIsFifo` | include/utils/ring_buffer.hpp:99-173 | in every interleaving values come out as a prefix of what went in, at most capacity - 1 are inside, and the masked index difference is how many |
| `RingBuffer.ProducerStaysClear` | include/utils/ring_buffer.hpp:99-110 | the producer never writes a slot the consumer may be reading or one not yet taken |
| `RingBuffer.GivesUpOnlyIf` | include/utils/ring_buffer.hpp:163-168 | push gives up exactly when full and pop exactly when empty at the moment of its second load |
| `RingBuffer.PushDoes` | include/utils/ring_buffer.hpp:99-110 | every call of push puts its own argument in, once, or gives up on a full ring |
| `RingBuffer.PopDoes` | include/utils/ring_buffer.hpp:163-173 | every call of pop takes out the oldest value, once, or gives up on an empty ring |
| `RingBuffer.PushReturns` | include/utils/ring_buffer.hpp:99-110 | push has returned after three steps of its own, whatever the consumer does |
| `RingBuffer.PopReturns` | include/utils/ring_buffer.hpp:163-173 | pop has returned after three steps of its own, whatever the producer does |
| `RingBuffer.Ring.Push` | include/utils/ring_buffer.hpp:99-110 | appends, or refuses exactly at capacity - 1 values |
| `RingBuffer.Ring.Pop` | include/utils/ring_buffer.hpp:163-173 | removes the oldest, or answers nothing exactly when empty |
| `RingBuffer.Ring.Peek` | include/utils/ring_buffer.hpp:192-200 | the oldest value, left in place |
| `RingBuffer.Ring.Empty` | include/utils/ring_buffer.hpp:209-212 | exactly when no value is inside |
| `RingBuffer.Ring.Full` | include/utils/ring_buffer.hpp:221-225 | exactly at capacity - 1 values |
| `RingBuffer.Ring.Size` | include/utils/ring_buffer.hpp:236-240 | the number of values inside |
| `MemoryPool.ProbeVisitsOnce` | include/core/memory_pool.hpp:155-160 | a probe sequence visits each slot exactly once |
| `MemoryPool.IndexInvertsAddress` | include/core/memory_pool.hpp:217-218 | the division in deallocate inverts slot addressing for every address inside the slot |
| `MemoryPool.IndexInRange` | include/core/memory_pool.hpp:213-222 | an address inside the storage always gives a valid index |
| `MemoryPool.Pool.Allocate` | include/core/memory_pool.hpp:152-177 | null exactly when every slot is in use, else the first free slot from the hint, now in use |
| `MemoryPool.Pool.Deallocate` | include/core/memory_pool.hpp:203-229 | frees the slot of the address; null and foreign addresses change nothing |
| `MemoryPool.Pool.Allocated` | include/core/memory_pool.hpp:266-274 | the number of slots in use |
| `MemoryPool.Pool.Available` | include/core/memory_pool.hpp:287-289 | the number of slots not in use |
| `MemoryPool.Pool.BorrowAndReturn` | include/core/memory_pool.hpp:373-377 | giving back what allocate gave restores the pool |
| `MemoryPool.CountUpdate` | include/core/memory_pool.hpp:266-274 | claiming adds one to the count, releasing takes one off |
| `MemoryPool.CountFull` | include/core/memory_pool.hpp:266-274 | the count is the capacity exactly when every slot is in use |
| `MemoryPool.StepInv` | include/core/memory_pool.hpp:152-229 | every atomic step keeps exclusive ownership |
| `MemoryPool.NoTwoOwners` | include/core/memory_pool.hpp:152-229 | in every interleaving of callers that free what they hold, no slot has two owners and the slots in use are the owned ones |
| `MemoryPool.NullSawAllInUse` | include/core/memory_pool.hpp:157-176 | in every interleaving a call that answers null has found every slot in use, each at some step of the call |
| `MemoryPool.AllocateAnswers` | include/core/memory_pool.hpp:152-177 | the step that ends a call of allocate answers null or claims a slot that was free |
| `MemoryPool.CallReturns` | include/core/memory_pool.hpp:152-229 | a thread in a call has returned after one more of its own steps than there are slots, whatever the others do |
| `MemoryPool.SoloAllocate` | include/core/memory_pool.hpp:152-177 | a call of allocate that runs alone answers null if and only if every slot is in use, and otherwise claims a free one |
| `MemoryPool.SoloFree` | include/core/memory_pool.hpp:203-229 | deallocate gives back the slot held, and no other |
| `Analytics.KeptSinceEarly` | src/analytics/market_analytics.cpp:61-70 | after any stream of updates exactly the in-window ones since the last early update are kept |
| `Analytics.WindowExactIff` | src/analytics/market_analytics.cpp:61-70 | the kept updates are those of the window if and only if at most one was early or the other early ones have expired |
| `Analytics.WindowExact` | src/analytics/market_analytics.cpp:61-70 | with all times at least the window the kept updates are exactly those in it |
| `Analytics.EarlyTradeLost` | src/analytics/market_analytics.cpp:61-62 | a trade lost to the wrapped cutoff |
| `Analytics.Vwap.Update` | src/analytics/market_analytics.cpp:20-37 | running sums stay equal to recomputation over the kept trades |
| `Analytics.Vwap.RemoveExpired` | src/analytics/market_analytics.cpp:61-70 | the loop drops exactly the expired front and keeps the sums exact |
| `Analytics.Vwap.GetVwap` | src/analytics/market_analytics.cpp:39-47 | times the sum of the kept volumes it is the sum of price times volume; 0 on zero volume |
| `Analytics.VwapMeaning` | src/analytics/market_analytics.cpp:39-47 | the kept trades are exactly those in the window, the average times their volume is what was paid, and it lies between their least and greatest price |
| `Analytics.Twap.Update` | src/analytics/market_analytics.cpp:78-97 | samples are those the kept prices lead to, durations closed on the next update |
| `Analytics.Twap.GetTwap` | src/analytics/market_analytics.cpp:99-127 | the loops compute the time-weighted average of the kept samples |
| `Analytics.DurationsTelescope` | src/analytics/market_analytics.cpp:84-87 | durations add up to last minus first time exactly when the first time is not 0 or all are |
| `Analytics.TwapBetween` | src/analytics/market_analytics.cpp:99-127 | the average lies between the least and greatest sample price |
| `Analytics.TwapIsTimeAverage` | src/analytics/market_analytics.cpp:78-127 | times the time the prices stood it is the sum of each price times how long it stood until the next; the last price when none stood |
| `Analytics.TwapMeaning` | src/analytics/market_analytics.cpp:78-135 | for times at least the window and not 0: samples are those in the window, durations telescope, the average is that of the prices over time, and bounded |

## Left out

- Exchange connectors, connection manager, WebSocket and REST servers, message formatting: network I/O over libraries that are not part of this model.
- CPU affinity, system tuning, YAML configuration, ISO 8601 helpers, logging and sleeping: operating system and library calls.
- Memory orders weaker than sequential consistency.
- Safety of `try_reclaim` (include/utils/lock_free_queue.hpp:341-368) and pointer reuse: the threshold does not ensure that no thread still holds a node, so nodes are never reused in the model and freed ones are only recorded.
- `empty` of the queue: an easy member.
- QueueProgress.LockFree: spurious failures of the weak compare-exchanges on head, tail and links are excluded, since nothing bounds them; an attempt to retire a node is one step, which may fail any number of times.
- OrderBookEngine.OrderBookObject.UpdateLevel: prices and quantities are fixed-point integers; the conversion from double is not modelled. It promises the specified book for every price; when the book refines a map is `OrderBook.RunRefinesIff`.
- OrderBookEngine.OrderBookObject.GetSnapshot: the loop body on a book nobody writes; the retry loop over the sequence lock is in `BookSnapshots.dfy`. The snapshot's timestamp is left out.
- OrderBookEngine.OrderBookObject.GetStatistics: the timestamp is left out.
- OrderBook.RunRefines: for the runs that `OrderBook.RunRefinesIff` shows to be exactly those on which the side refines the map, and for MAX_LEVELS at most the table size, which by `OrderBook.InsertFitsIff` is what the unchecked insertion needs.
- SeqLock.ValidatedReadIsAtomic: a corollary for one writer at a time of `SeqLock.QuiescentReadIsAtomic`; both assume fewer than 2^64 increments during one read.
- BookSnapshots.SnapshotShowsBook: updates are serial, one write section after the other; `BookSnapshots.OverlappingUpdatesTear` shows the result fail for two that overlap. The price tables, cached best indices and timestamps are not among the words in memory, since no snapshot loads them.
- RateLimiter.SlackIff: for a rate worth at least one token within the range of the clock.
- RateLimiter.ConcurrentBound: assumes that no wrapped difference wins the exchange on the refill time; `RateLimiter.BoundIffOneThread` says for which numbers of threads the bound needs no such assumption, since the clock is read first (src/utils/rate_limiter.cpp:149-153). The window bound is serial. `acquire`, `try_acquire_for`, `set_rate` and `set_capacity` are left out.
- RateLimiter.BoundIffOneThread: for buckets that some interval refills by 0.001 or more but not in full, and its wrapped negative in full.
- Routing.AggregatedBook.Route: `expected_price` and `primary_exchange` are left out (the average does not use up allocations as it walks, and the primary exchange is the first key). `Side::BUY`, which the enumeration lacks, is read as "takes asks". The arbitrage callback, which re-locks a held mutex, is left out, and so is the aggregated book of include/core/order_book_manager.hpp.
- Histogram.LatencyHistogram.Record: the retry loops on min and max are in the interleaved model only; log2 and pow are exact. `get_average` is left out.
- Recorder.FileReplayer.ReadBinary: a record cut short is reported as such; the code would deliver uninitialised values. JSON and CSV formats, `replay_from`, `replay_range` and `get_file_info` are left out (the last three seek to byte 16 of a file whose header has 12 bytes).
- Recorder.CutReplay: where the model reports the cut record, the code goes on and delivers it filled up with uninitialised values.
- Recorder.FileReplayer.ReplayFile: the flag that stops a replay early and the pacing by timestamps are left out.
- RecordingSession.RecordedIsReplayed: binary format; writing one update to the file is one step, as only the writer thread uses the file, and flushing is left out. `start` is called after `stop` has returned, and opens the file.
- RingBuffer.Ring.Pop: the moved-from state of a slot is modelled in the interleaving only; `x & MASK` is written `x % CAPACITY`, for a capacity that divides 2^64.
- MemoryPool.NoTwoOwners: callers release only what they hold; double frees are outside the model, as are construction and destruction of the objects.
- Order flow imbalance, spread analysis, arbitrage monitoring and metrics export: easier members.
