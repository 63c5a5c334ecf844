# CyberRT mechanisms, modelled and verified in Dafny

CyberRT is the runtime under a driving stack: nodes exchange messages over channels, call
services, run periodic timers and record what passes. Its core is a handful of small
concurrent and stateful mechanisms. This project models them and proves what they promise.

* Lock-free code is a step system: a state, one step for each atomic operation of a thread,
  and theorems over every run, that is every number of threads and every interleaving, with
  stale loads and failed swaps. `BoundedQueue`, `ObjectPool`, `AtomicHashMap`, `RWLock`,
  `WakeUp`, `Rpc`, `Fusion` and `RecordFile` have this form; what happens under one mutex is
  one step where no other thread can tell. Beside safety there is progress: from every
  reachable state an operation that is not disturbed completes, with the result it should
  have (`EnqueueAlone`, `GetAlone`, `ReaderEnters`, `FetchesAlone`, `CallCompletes`,
  `FusesAlone`, `ClosesAlone`, and `HashMapProgress` for the hash map).
* Sequential code is a class or a method with its loops, proved against a specification
  that does not mention the representation: `DataChannel`, `TimingWheel`, `PeriodicTimer`,
  `RecordReader`, `RecordViewer`, `RecordWriter`, `Registry`, `Framing`, `LeapSeconds`.
  `RecordStream` holds the specification of reading records, `SegmentOrder` that of sorting
  the segments of a recording, `Orders` what both need about permutations, and `Ring` the
  slot arithmetic shared by the two rings.
* `RecordRoundTrip` joins the record modules: what is written, split into segments, flushed
  in chunks by a second thread, opened in any order, sorted and viewed window by window
  through all segments together is exactly what was asked for of what was written, once each
  and in time order, and in the order written unless segments have equal header times.

Some properties one would expect turn out to hold only under a condition. Each of these has
the exact condition, both ways, and where it is short a concrete case:

* A rejected `Enqueue` did not necessarily find the queue full: a stale tail can share its
  slot with the head (`BoundedQueue.RejectedEnqueueFoundFull`, `BoundedQueue.SpuriousReject`).
* A viewer shows everything in range if and only if no file has a wanted message behind one
  that lies in a later window (`RecordViewer.ShownIff`). Records written in reverse order
  are therefore shown completely only when they are at most one window apart
  (`RecordStream.ReversedFile`); cyber/record/record_viewer_test.cc leaves the reversed case
  open.
* A message that reaches a buffer before the notify callback is registered can be stranded,
  because the routine is queued before the callback is set
  (`WakeUp.StrandedBeforeRegistration`). A routine is stranded if and only if the
  registration found it waiting with an unfetched message of which it was not told, and no
  message has come since (`WakeUp.StrandedIff`, `WakeUp.StrandedAtRegistrationIff`); after
  registration no wake-up is lost.
* A wheel task fires exactly after the rounded-up duration unless the duration is zero in a
  bucket already served, or longer than the assistant wheel (`TimingWheel.ExactDue`).
* A record file holds every message once, but in the order written if and only if the flush
  thread had emptied its chunk before every swap (`RecordFile.ClosedFileHoldsAll`,
  `RecordFile.OvertakenFile`).
* The header of a record file takes the begin time of the first chunk and the end time of the
  last (`RecordFile.HeaderIsFirstAndLast`). It bounds the times in the file if and only if no
  chunk begins before the first one does or ends after the last one does
  (`RecordFile.HeaderBoundsIff`); for messages out of time order it may cover nothing
  (`RecordFile.HeaderOfUnorderedFile`).
* A viewer sorts the readers by header times with `std::sort`, which is not stable. Whatever
  comes out lists the segments with messages in the order recorded if and only if different
  ones have different header times (`SegmentOrder.OrderRecoveredIff`,
  `SegmentOrder.TiedMessages`).
* The begin time of a segment or a chunk is its earliest time only while no message has time
  0, which the code uses for "not set" (`RecordStream.BeginTimeIsMinIff`,
  `RecordStream.ZeroForgotten`).
* An empty content does not survive framing (`Framing.FrameRoundTrip`).
* Converting UNIX time to GPS and back fails from 2^31 seconds on, because of a cast to
  `int32_t` (`LeapSeconds.RoundTripIff`, `LeapSeconds.LostAfter2038`); in micro- and
  nanoseconds the converted time jumps back at the end of each leap second
  (`LeapSeconds.UnitsGoBackIff`).

Assumptions: atomic operations are sequentially consistent, 64-bit counters and sizes do not
wrap unless stated, memory is not reused (nodes, entries and tasks have names of their own),
and clocks, hash functions, the network and the results of user callbacks are arbitrary
inputs. `AddTask` is atomic with respect to the wheel's index updates, and a registration is
atomic. Where comments and code of CyberRT differ, the model follows the code.

## Model

| member | source | states |
|---|---|---|
| `Ring.IndexIsSlotOf` | cyber/base/bounded_queue.h:230-232 | the subtraction in `GetIndex` and the remainder in `CacheBuffer` both give the slot found by counting round the ring |
| `Ring.SlotArithmetic` | cyber/base/bounded_queue.h:230-232 | positions up to one pool size apart share a slot exactly when equal or one pool size apart |
| `BoundedQueue.RunInv` | cyber/base/bounded_queue.h:95-169 | the invariant of counters, slots, claims and thread places holds in every state of every run |
| `BoundedQueue.QueueIsFifo` | cyber/base/bounded_queue.h:95-169 | head < commit <= tail, at most `size` elements in flight, live positions never share a slot, and the dequeued values are a prefix of the values in tail-swap order |
| `BoundedQueue.HistoriesGrow` | cyber/base/bounded_queue.h:110-169 | claimed and dequeued values are only ever appended |
| `BoundedQueue.FailedDequeueSawNothingCommitted` | cyber/base/bounded_queue.h:156-169 | the test that makes `Dequeue` fail succeeds exactly when the loaded head is current and nothing is committed |
| `BoundedQueue.RejectedEnqueueFoundFull` | cyber/base/bounded_queue.h:110-130 | a rejected `Enqueue` found the ring full if and only if its loaded tail shares its slot with the current tail |
| `BoundedQueue.SpuriousReject` | cyber/base/bounded_queue.h:110-130 | a run in which `Enqueue` returns false on an empty queue |
| `BoundedQueue.CommitNeverStalls` | cyber/base/bounded_queue.h:120-128 | the oldest uncommitted position always has exactly one owner, past its claim and inside `Enqueue` |
| `BoundedQueue.EnqueueOutcome` | cyber/base/bounded_queue.h:110-130 | a thread leaves `Enqueue` with its own value committed at the next position, or with nothing changed and its loaded tail one slot before the head |
| `BoundedQueue.DequeueOutcome` | cyber/base/bounded_queue.h:156-169 | a thread leaves `Dequeue` with the oldest value not handed out yet, or without one, and then nothing was committed |
| `BoundedQueue.EnqueueAlone` | cyber/base/bounded_queue.h:110-130 | from every reachable state, an undisturbed `Enqueue` returns false exactly on a full ring, and otherwise stores its value at the next position and commits it unless earlier ones are not committed |
| `BoundedQueue.DequeueAlone` | cyber/base/bounded_queue.h:156-169 | from every reachable state, an undisturbed `Dequeue` hands out the oldest value, and returns false exactly when nothing is committed |
| `ObjectPool.RunInv` | cyber/base/concurrent_object_pool.h:73-148 | the invariant of free list, node places and loaded heads holds in every state of every run |
| `ObjectPool.FreeListPartition` | cyber/base/concurrent_object_pool.h:73-148 | the next fields form a finite list without repetition, and each node is free, held, or being returned by exactly one thread |
| `ObjectPool.TakenNodeWasFree` | cyber/base/concurrent_object_pool.h:94-108 | a successful swap takes the first free node, which nobody holds, and the next field read before is still current |
| `ObjectPool.EqualCountMeansUnchanged` | cyber/base/concurrent_object_pool.h:94-108 | equal counters mean the same head node and an unchanged next field, so there is no ABA |
| `ObjectPool.NullOnlyIfEmptyAtLoad` | cyber/base/concurrent_object_pool.h:94-108 | a loaded head is null exactly if the free list was empty at that load |
| `ObjectPool.HeldUntilReleased` | cyber/base/concurrent_object_pool.h:94-148 | a node stops being held only by a release, and becomes held only by a take of the head |
| `ObjectPool.GetOutcome` | cyber/base/concurrent_object_pool.h:94-108 | a thread leaves `FindFreeHead` with the first free node, or with nothing, and then the list was empty at its load |
| `ObjectPool.GetAlone` | cyber/base/concurrent_object_pool.h:94-108 | undisturbed, it takes the first free node, or nothing exactly if there is none |
| `ObjectPool.ReleaseAlone` | cyber/base/concurrent_object_pool.h:136-148 | undisturbed, a release puts the node first in the free list |
| `ObjectPool.NewPool` | cyber/base/concurrent_object_pool.h:73-78 | a new pool has every node in its free list |
| `RWLock.RunInv` | cyber/base/atomic_rw_lock.h:62-114 | the invariant linking lock_num_ and write_lock_wait_num_ to who is where holds in every run |
| `RWLock.Exclusion` | cyber/base/atomic_rw_lock.h:62-114 | lock_num_ counts the readers inside, or is -1 with exactly one writer and no reader |
| `RWLock.NobodyNewPasses` | cyber/base/atomic_rw_lock.h:62-92 | with a writer announced, no step takes a reader past the wait test |
| `RWLock.WriterPreference` | cyber/base/atomic_rw_lock.h:62-110 | while a writer stays announced only readers already past the wait test get in, each at most once |
| `RWLock.AloneWriterEnters` | cyber/base/atomic_rw_lock.h:94-110 | a waiting writer can enter exactly when nobody is inside |
| `RWLock.WaitTest` | cyber/base/atomic_rw_lock.h:62-92 | a reader gets past the wait test exactly if it loaded no writer inside and no announced writer has precedence |
| `RWLock.ReaderEnters` | cyber/base/atomic_rw_lock.h:62-92 | with no writer inside and none announced with precedence, a new reader gets in by its own steps, whoever is reading |
| `RWLock.ReaderWaits` | cyber/base/atomic_rw_lock.h:62-92 | otherwise no number of its own steps gets a reader in |
| `RWLock.WriterEntersAndLeaves` | cyber/base/atomic_rw_lock.h:94-114 | with nobody inside, a new writer gets in and out by its own steps and leaves the lock as it was |
| `RWLock.ReaderLeaves` | cyber/base/atomic_rw_lock.h:112 | a reader gets out by one step |
| `AtomicHashMap.RunInv` | cyber/base/atomic_hash_map.h:46-188 | the invariant of sorted buckets, walking threads and the operation log holds in every run |
| `AtomicHashMap.Linearizable` | cyber/base/atomic_hash_map.h:46-188 | the operations, in the order in which they take effect, answer like a plain map, and the table holds exactly that map |
| `AtomicHashMap.TakesEffectOnce` | cyber/base/atomic_hash_map.h:46-188 | every step is silent or completes the operation of one thread, once, between its call and return |
| `AtomicHashMap.ReplayHoldsSet` | cyber/base/atomic_hash_map.h:46-188 | the plain map of the order holds exactly the keys that were set |
| `AtomicHashMap.ReplayHoldsLast` | cyber/base/atomic_hash_map.h:46-188 | each with the value set last |
| `AtomicHashMap.BucketsSorted` | cyber/base/atomic_hash_map.h:112-188 | every next field leads to the nearest greater key of the same residue, so buckets are strictly sorted and complete |
| `AtomicHashMap.KeysStay` | cyber/base/atomic_hash_map.h:112-188 | no inserted key disappears |
| `AtomicHashMap.NotPresent` | cyber/base/atomic_hash_map.h:112-145 | when the next field ends or passes the key, the key is in no bucket at that load |
| `AtomicHashMap.SplicedSorted` | cyber/base/atomic_hash_map.h:147-188 | publishing a new entry between two neighbours keeps all buckets sorted |
| `HashMapProgress.CompletesAlone` | cyber/base/atomic_hash_map.h:46-188 | from every reachable state, an operation under way that is not disturbed completes, whatever stale pointers its thread holds |
| `HashMapProgress.AnswersAlone` | cyber/base/atomic_hash_map.h:46-188 | and it answers like the plain map at the beginning of that stretch |
| `HashMapProgress.OperationAlone` | cyber/base/atomic_hash_map.h:46-188 | a whole undisturbed operation, from call to return, takes effect once with the answer of the plain map |
| `DataChannel.CacheBuffer.Fill` | cyber/data/cache_buffer.h:68-80 | the ring keeps position p for every retained p of the full history, which grows by the message |
| `DataChannel.CacheBuffer.Fetch` | cyber/data/channel_buffer.h:57-77 | succeeds exactly if something was published and the index is not one beyond the newest, and delivers the message published at the position it returns; beyond the newest position, the retained message of the same slot |
| `DataChannel.CacheBuffer.Latest` | cyber/data/channel_buffer.h:79-88 | the newest message of the history, if any |
| `DataChannel.CacheBuffer.FetchMulti` | cyber/data/channel_buffer.h:90-105 | exactly the newest messages, in order, at most the size asked for and the ring size |
| `DataChannel.DataVisitor.TryFetch` | cyber/data/data_visitor.h:183-189 | one step of the reading position over the full history |
| `DataChannel.DataVisitor.Drive` | cyber/data/data_visitor.h:183-189 | any interleaving of publishing and fetching does to the ring what it does to the history |
| `DataChannel.ApplyFaithful` | cyber/data/channel_buffer.h:57-77 | publishing or fetching keeps deliveries faithful to the history |
| `DataChannel.DeliveryInOrder` | cyber/data/channel_buffer.h:57-77 | each delivery is the message at its position; it follows the previous one contiguously unless more than queue_size waited, and then it is the newest |
| `DataChannel.FetchDeliversIff` | cyber/data/channel_buffer.h:57-77 | after any interleaving, a fetch delivers exactly if the newest published message was not delivered yet |
| `DataChannel.PositionsIncrease` | cyber/data/data_visitor.h:183-189 | delivered positions strictly increase |
| `WakeUp.RunInv` | cyber/croutine/routine_factory.h:58-66 | the wake-up invariant holds in every run of publishers, processors and the routine |
| `WakeUp.NoLostWakeUp` | cyber/croutine/croutine.h:176-207 | with a message dispatched after registration unfetched and no publisher mid-notify, the routine is ready, updating, about to fetch, or has its update flag pending |
| `WakeUp.NextPassFetches` | cyber/scheduler/policy/classic_context.cc:52-73 | from such a parked state one pass of a processor leads to a successful fetch without any help |
| `WakeUp.FetchesAlone` | cyber/croutine/routine_factory.h:58-66 | from every such state, wherever the processor and the routine are, they fetch the message without any help |
| `WakeUp.NotifiesAlone` | cyber/scheduler/policy/scheduler_classic.cc:163-182 | an undisturbed notification sets the update flag exactly if the routine waits, and ends |
| `WakeUp.StrandedBeforeRegistration` | cyber/scheduler/scheduler.cc:42-70 | a run whose registration strands a parked routine with an unfetched message |
| `WakeUp.StrandedIff` | cyber/scheduler/scheduler.cc:42-70 | after the registration a routine is stranded exactly if the registration found it so and no message has arrived since: for ever if none comes |
| `WakeUp.StrandedAtRegistrationIff` | cyber/scheduler/scheduler.cc:42-70 | the registration finds a routine stranded exactly if a message is unfetched, no publisher is mid-notify, and the routine waits or is about to |
| `TimingWheel.TimingWheel.Tick` | cyber/timer/timing_wheel.cc:46-67 | fires exactly the live tasks due now, once each |
| `TimingWheel.TimingWheel.AddTask` | cyber/timer/timing_wheel.cc:69-106 | files the task for its due tick, for any duration |
| `TimingWheel.TimingWheel.File` | cyber/timer/timing_wheel.cc:73-106 | puts the task in the bucket of either wheel, with its remainder, and leaves all else alone |
| `TimingWheel.TimingWheel.Cascade` | cyber/timer/timing_wheel.cc:108-119 | moves the live tasks of one assistant bucket to the work wheel by their remainders, in order |
| `TimingWheel.TimingWheel.MoveIndex` | cyber/timer/timing_wheel.cc:128-140 | both indices and both wheels after the index has moved on, with the cascade at the wrap |
| `TimingWheel.TimingWheel.AdvanceIndex` | cyber/timer/timing_wheel.cc:128-140 | time advances by one tick, cascading at the wrap, and nothing else changes |
| `TimingWheel.TimingWheel.TickFunc` | cyber/timer/timing_wheel.cc:121-142 | over any number of iterations exactly the tasks that fall due fire, once each, at their due ticks |
| `TimingWheel.TimingWheel.Drive` | cyber/timer/timing_wheel.cc:46-142 | any sequence of adding, expiring, ticking and advancing does to the wheels what it does to the table of due ticks, so the results about table runs are about the wheels |
| `TimingWheel.TimingWheel.Expire` | cyber/timer/timing_wheel.cc:50-56 | a task whose owner is gone is never due again |
| `TimingWheel.FiledRepresents` | cyber/timer/timing_wheel.cc:73-106 | filing a task into the wheels represents adding its due tick to the table |
| `TimingWheel.CascadeRepresents` | cyber/timer/timing_wheel.cc:108-119 | cascading at the wrap keeps the wheels representing the same due ticks |
| `TimingWheel.AdvanceRepresents` | cyber/timer/timing_wheel.cc:128-140 | advancing within a turn keeps the wheels representing the same due ticks |
| `TimingWheel.TickFires` | cyber/timer/timing_wheel.cc:46-67 | the live tasks of the current bucket are exactly those due now |
| `TimingWheel.ExactDue` | cyber/timer/timing_wheel.cc:73-106 | the due tick is the rounded-up duration ahead if and only if it is not zero in a served bucket and within the wheels; always for 1 up to the maximum interval |
| `TimingWheel.DueRoundedUp` | cyber/timer/timing_wheel.cc:73-106 | in milliseconds: for every duration from 1 up to the maximum interval, the due tick is the first that is not too early |
| `TimingWheel.DueModuloTurns` | cyber/timer/timing_wheel.cc:73-106 | for any duration: a longer one is due whole turns of the assistant wheel too early, a zero one at once or a turn of the work wheel later |
| `TimingWheel.FiresExactlyOnce` | cyber/timer/timing_wheel.cc:46-142 | in every run a live task is fired exactly once, at its due tick, and not before |
| `TimingWheel.FiresOnTime` | cyber/timer/timing_wheel.cc:46-142 | in milliseconds: it is fired at most once, after its duration rounded up to ticks, and has been fired when that has passed |
| `PeriodicTimer.TimerTask.Callback` | cyber/timer/timer.cc:81-123 | the new error, last start and next duration, which is at least the wheel resolution |
| `PeriodicTimer.InitTimerTask` | cyber/timer/timer.cc:51-62 | a period of zero or beyond the wheel is refused |
| `PeriodicTimer.ErrorIsDrift` | cyber/timer/timer.cc:91-100 | in every run the accumulated error is the latest start minus the first start minus (fires - 1) intervals |
| `PeriodicTimer.RefireAtLeastResolution` | cyber/timer/timer.cc:102-117 | every refire duration is at least TIMER_RESOLUTION_MS |
| `PeriodicTimer.NextError` | cyber/timer/timer.cc:91-117 | how the error follows from execution time, next duration and start deviation |
| `PeriodicTimer.NoDrift` | cyber/timer/timer.cc:81-123 | after a compensating fire the next start is within 1 ms plus its own deviation of the grid, however many fires there were |
| `PeriodicTimer.NextDuration` | cyber/timer/timer.cc:102-117 | what a fire asks for, from the clock readings alone: the rest of the interval by nearest milliseconds if that is at least the resolution, else the resolution |
| `PeriodicTimer.PlannedOnGrid` | cyber/timer/timer.cc:81-123 | whenever execution, offset, resolution and 1 ms fit in the interval, the next fire is planned within 1 ms of the grid |
| `PeriodicTimer.LateFireGains` | cyber/timer/timer.cc:102-117 | a late fire with a margin shrinks the error by that margin |
| `PeriodicTimer.CatchesUp` | cyber/timer/timer.cc:102-117 | a late timer returns to the compensating branch after at most error / margin + 1 fires |
| `Rpc.RunInv` | cyber/service/client.h:268-310 | the invariant of calls, promises, network and service queue holds in every run |
| `Rpc.PromiseSetOnce` | cyber/service/client.h:291-310 | a promise that was set keeps its value in all later states |
| `Rpc.OnlyOwnResponse` | cyber/service/client.h:291-310 | a promise holds a response the service callback produced for the request of that client with that number |
| `Rpc.AskedForever` | cyber/service/client.h:268-283 | the request sent under a writer and number never changes |
| `Rpc.StrayResponse` | cyber/service/client.h:291-302 | a response for another writer or a settled number changes nothing |
| `Rpc.ResponseSettles` | cyber/service/client.h:268-310 | handling any response of one's own leaves its call settled: none is lost between transmission and the pending entry |
| `Rpc.PendingXorSettled` | cyber/service/client.h:268-310 | outside the mutex every call has its own promise, pending or set but not both |
| `Rpc.HandledInOrder` | cyber/service/service.h:137-158 | the requests given to the callback are, in order, the first ones enqueued; each answer was produced by it and is transmitted; until destroy nothing enqueued is lost |
| `Rpc.CallCompletes` | cyber/service/client.h:268-310 | from every reachable state with a free client and an idle service, a call can complete, and its promise then holds what the callback gave |
| `Rpc.AfterDestroy` | cyber/service/service.h:123-158 | the worker stops only after destroy, and after destroy nothing more is taken from the queue |
| `Rpc.DestroysAlone` | cyber/service/service.h:123-158 | destroy empties the queue and lets a waiting worker stop |
| `Fusion.RunInv` | cyber/data/fusion/all_latest.h:55-82 | the invariant of companions, the running fusion and the fused stream holds in every run |
| `Fusion.OneTuplePerPrimary` | cyber/data/fusion/all_latest.h:55-69 | a primary message arriving after all companions have published is in exactly one tuple, and none is in two |
| `Fusion.TuplesAdvance` | cyber/data/fusion/all_latest.h:55-69 | tuples follow their primary messages and companion positions never go backwards |
| `Fusion.TupleNewest` | cyber/data/fusion/all_latest.h:59-64 | each companion message of a tuple was the newest when it was read, during the fusion of that primary message |
| `Fusion.FusesAlone` | cyber/data/fusion/all_latest.h:55-69 | from every reachable state with messages on all companions, an undisturbed primary message becomes a tuple with their newest messages |
| `Fusion.GivesUp` | cyber/data/fusion/all_latest.h:59-64 | a companion without a message ends the fusion without a tuple |
| `Fusion.ConsumerAdvances` | cyber/data/fusion/all_latest.h:71-82 | the consumer sees a strictly ordered part of the fused stream |
| `Registry.Registry.Register` | cyber/common/global_data.cc:213-226 | lands on the first probed id that is free or the name's own, and stores the name there |
| `Registry.Registry.LooksUp` | cyber/common/global_data.cc:228-234 | an id given to a name stands for it after any later registrations; an id never given has no name |
| `Registry.ProbingEndsIff` | cyber/common/global_data.cc:213-226 | the probe loop ends if and only if some id is free or the name is registered |
| `Registry.SameIdIffSameName` | cyber/common/global_data.cc:213-303 | for any hash function, two registrations get the same id exactly when they are of the same name |
| `Registry.NameStays` | cyber/common/global_data.cc:213-303 | a registered id keeps its name |
| `Registry.NothingElse` | cyber/common/global_data.cc:213-303 | every entry of the table comes from a registration |
| `RecordStream.SweepStep` | cyber/record/record_viewer.cc:144-180 | one message found in a window is the next of the whole sweep |
| `RecordStream.SweepStop` | cyber/record/record_viewer.cc:144-180 | when a window has no further message, the sweep goes on with the next window, losing nothing |
| `RecordStream.StableMergeUnique` | cyber/record/record_viewer.cc:144-180 | sorted by time with a given order at each time leaves only one sequence |
| `RecordStream.InsertAt` | cyber/record/record_viewer.cc:171 | emplacing in the multimap puts a message behind those of the same time and moves no other |
| `RecordStream.SelectCounts` | cyber/record/record_viewer.cc:66-71 | selecting keeps a message, as often as it is there, exactly if all channels are asked for or its own is |
| `RecordStream.InRangeCounts` | cyber/record/record_viewer.cc:60-75 | the same within a closed range of times |
| `RecordStream.MergeCounts` | cyber/record/record_viewer.cc:144-180 | a merge has every message as often as its streams have it together |
| `RecordStream.SweepCounts` | cyber/record/record_viewer.cc:144-180 | a sweep reads nothing twice and nothing that is not there |
| `RecordStream.SweepCompleteIff` | cyber/record/record_viewer.cc:144-180 | a sweep reads exactly the wanted messages in range if and only if they are in order across windows |
| `RecordStream.InOrderIsWindowOrdered` | cyber/record/record_viewer.cc:144-180 | files with non-decreasing times are in order across windows |
| `RecordStream.ReversedFile` | cyber/record/record_viewer.cc:144-180 | two messages in reverse order are in order across windows exactly when at most a window apart |
| `RecordReader.RecordReader.constructor` | cyber/record/record_reader.cc:32-58 | the cursor starts at the first message, whether or not the file header bounds the times |
| `RecordReader.RecordReader.Reset` | cyber/record/record_reader.cc:60-65 | the cursor is back at the first message |
| `RecordReader.RecordReader.ReadNextChunk` | cyber/record/record_reader.cc:112-172 | skips only chunks that are too old and stops only before one that is too new, also when a header was consumed |
| `RecordReader.RecordReader.ScanChunk` | cyber/record/record_reader.cc:88-105 | the next message of the chunk that is not too old, without passing one that is too new |
| `RecordReader.RecordReader.ReadMessage` | cyber/record/record_reader.cc:75-110 | the next message of the interval in the whole file, passing over only older ones, or none before a newer one or the end; an interval outside the file header finds nothing |
| `RecordViewer.UpdateTime` | cyber/record/record_viewer.cc:116-142 | the range is clamped to the earliest begin and latest end of the readable files |
| `RecordViewer.MergeOne` | cyber/record/record_viewer.cc:160-173 | a message read from one reader enters the stable merge of all |
| `RecordViewer.ReadReader` | cyber/record/record_viewer.cc:164-172 | reads one window from one reader into the buffer, keeping the merge |
| `RecordViewer.SortReaders` | cyber/record/record_viewer.cc:95-104 | the readers, each once, by begin and then end time of their headers; nothing is said about equal ones |
| `RecordViewer.RecordViewer.constructor` | cyber/record/record_viewer.cc:40-105 | takes the readers in any order and sorts them, and the clamped range leaves out no message that was asked for |
| `RecordViewer.RecordViewer.Reset` | cyber/record/record_viewer.cc:107-114 | nothing read and nothing shown |
| `RecordViewer.RecordViewer.FinishReaders` | cyber/record/record_viewer.cc:152-158 | a reader is finished only when it has delivered all it will |
| `RecordViewer.RecordViewer.ReadWindow` | cyber/record/record_viewer.cc:160-176 | all readers deliver their messages of the window |
| `RecordViewer.RecordViewer.FillWindow` | cyber/record/record_viewer.cc:146-176 | one window is read from every reader that is not finished |
| `RecordViewer.RecordViewer.FillBuffer` | cyber/record/record_viewer.cc:144-180 | reads windows until 128 messages wait or the range is exhausted |
| `RecordViewer.RecordViewer.Take` | cyber/record/record_viewer.cc:66-71 | moves the first message of the buffer to what was shown, exactly if all channels are asked for or its own is |
| `RecordViewer.RecordViewer.Update` | cyber/record/record_viewer.cc:60-75 | takes messages of channels that were not asked for and then shows one of a channel that was, or fails when everything has been taken |
| `RecordViewer.RecordViewer.ShowAll` | cyber/record/record_viewer.cc:182-210 | iterating from begin() to the end |
| `RecordViewer.RecordViewer.Iterate` | cyber/record/record_viewer.cc:60-210 | yields the stable merge by time, ties by reader and then file order, of what the sweeps read; all wanted messages of the range asked for if and only if every file is in order across windows; every message shown is in the range, of a channel asked for, and not shown more often than the files have it, and then exactly as often |
| `RecordViewer.ShownIff` | cyber/record/record_viewer.cc:60-180 | the exact condition for a complete view, for any number of files |
| `RecordViewer.InOrderShown` | cyber/record/record_viewer.cc:60-180 | files in time order are shown completely |
| `RecordViewer.MergeSelected` | cyber/record/record_viewer.cc:66-71 | filtering the merge by channel is merging the filtered files |
| `RecordWriter.RecordWriter.Store` | cyber/record/record_writer.cc:136-149 | the counters describe the segment, and whether the message closes it |
| `RecordWriter.RecordWriter.WriteMessage` | cyber/record/record_writer.cc:128-156 | a message is counted first, then stored if the file writer takes it; the state is that of the log of all operations, refused messages included |
| `RecordWriter.RecordWriter.WriteChannel` | cyber/record/record_writer.cc:107-126 | a new channel is registered and declared, a known one keeps its first description |
| `RecordWriter.RecordWriter.SplitOutfile` | cyber/record/record_writer.cc:72-105 | the new segment is empty and declares every registered channel |
| `RecordWriter.MessageNumbers` | cyber/record/record_writer.cc:176-202 | a channel has a number from its registration on, which counts every message offered on it since, refused ones too |
| `RecordWriter.NothingLost` | cyber/record/record_writer.cc:128-156 | the segments concatenated are exactly the accepted messages in order |
| `RecordWriter.ClosedAtFirst` | cyber/record/record_writer.cc:135-154 | a segment ends with its first message beyond the size or interval limit, and the open one has none |
| `RecordWriter.SplitAtLimits` | cyber/record/record_writer.cc:135-154 | in times and contents: a closed segment ends with a message more than the interval after another one, or with contents longer than the limit, and no part of any segment before its last message is so |
| `RecordWriter.DescribedAsRegistered` | cyber/record/record_writer.cc:107-126 | a channel has the description given when it was first registered |
| `RecordWriter.ChannelsDeclared` | cyber/record/record_writer.cc:95-104 | every segment declares, with their first descriptions, all channels registered before its first message |
| `RecordStream.BeginTimeIsMinIff` | cyber/record/record_writer.cc:137-142 | the begin time is the earliest time if and only if no message has time 0 or the last one has |
| `RecordStream.ZeroForgotten` | cyber/record/record_writer.cc:137-142 | times 5, 0 and 7 leave 7 as begin time |
| `RecordFile.RunInv` | cyber/record/file/record_file_writer.cc:210-258 | the invariant of both chunks, the file and the order of messages holds in every run of the writing and the flush thread |
| `RecordFile.ClosedFileHoldsAll` | cyber/record/file/record_file_writer.cc:66-116 | a closed file holds every message written exactly once, and in the order written if and only if no swap found an unflushed chunk |
| `RecordFile.OvertakenFile` | cyber/record/file/record_file_writer.cc:210-258 | a run in which two swaps before the flush thread starts put later messages first |
| `RecordFile.ClosedFileAccurate` | cyber/record/file/record_file_writer.cc:171-208 | with positive times every chunk header is followed by its body and bounds its times |
| `RecordFile.ChunkAccurateIff` | cyber/record/file/record_file_writer.h:53-69 | a chunk header bounds the times of its messages if and only if no message has time 0 or the last one has |
| `RecordFile.HeaderIsFirstAndLast` | cyber/record/file/record_file_writer.cc:195-198 | the file header has the begin time of the first chunk and the end time of the last |
| `RecordFile.CoversFirstAndLast` | cyber/record/file/record_file_writer.cc:195-198 | with positive times the file header covers the first and the last message of the file |
| `RecordFile.WellRecorded` | cyber/record/file/record_file_writer.cc:171-258 | messages in time order, flushed in time, make a file that holds them in order, with accurate chunk headers and the first and last time in the file header |
| `RecordFile.HeaderBoundsIff` | cyber/record/file/record_file_writer.cc:171-208 | with positive times the file header bounds all times in the file exactly if no chunk begins before the first or ends after the last |
| `RecordFile.HeaderOfUnorderedFile` | cyber/record/file/record_file_writer.cc:171-258 | a run whose file header ends before it begins, for any late message older than the first chunk |
| `RecordFile.FlushDecided` | cyber/record/file/record_file_writer.cc:210-232 | a chunk is flushed exactly after a message more than the chunk interval after another one, or with contents longer than the limit while no chunk is being written |
| `RecordFile.ClosesAlone` | cyber/record/file/record_file_writer.cc:66-116 | from every state the file can be closed, with everything written |
| `SegmentOrder.ConcatSortedIff` | cyber/record/record_writer.cc:128-156 | what was recorded is in time order exactly if every segment is and each comes before the later ones |
| `SegmentOrder.OutcomeInTime` | cyber/record/record_viewer.cc:95-104 | whatever the sort makes of segments in time order is in time order |
| `SegmentOrder.OrderCounts` | cyber/record/record_viewer.cc:95-104 | in whatever order the segments come, they hold the same messages |
| `SegmentOrder.OrderRecoveredIff` | cyber/record/record_viewer.cc:95-104 | every outcome of the sort lists the segments with messages as recorded exactly if different ones have different header times |
| `SegmentOrder.TiedMessages` | cyber/record/record_viewer.cc:95-104 | two one-message segments of the same time may be shown in reverse order |
| `RecordRoundTrip.ClosedFileHolds` | cyber/record/file/record_file_writer.cc:66-116 | such a file meets what readers rely on |
| `RecordRoundTrip.MergeOfConsecutive` | cyber/record/record_viewer.cc:144-180 | merging segments that follow each other in time gives them one after another |
| `RecordRoundTrip.ViewFiles` | cyber/record/record_viewer.cc:29-210 | viewing the files of consecutive segments, opened in any order, shows exactly the messages in range of the channels, segment after segment as the sort may put them, each message as often as it was recorded, and in the order recorded without ties |
| `RecordRoundTrip.SegmentsConcat` | cyber/record/record_writer.cc:128-156 | the segments together are what was accepted |
| `RecordRoundTrip.RecordedHolds` | cyber/record/file/record_file_writer.cc:66-258 | every segment of a recording in time order, written by a run that kept up, meets what readers rely on |
| `RecordRoundTrip.ViewRecord` | cyber/record/record_viewer.cc:29-210 | recording with any segmentation and viewing all segments, opened in any order, shows exactly the accepted messages in range of the channels, once each, in time order, and in the order written if no two segments with messages have the same header times |
| `Framing.RoundTrip32` | cyber/message/message_header.h:97-114 | a 32-bit number survives network byte order |
| `Framing.RoundTrip64` | cyber/message/message_header.h:102-120 | a 64-bit number survives network byte order |
| `Framing.NetworkOrder32` | cyber/message/message_header.h:97-100 | the bytes of a 32-bit number come most significant byte first |
| `Framing.NetworkOrder64` | cyber/message/message_header.h:102-108 | the bytes of a 64-bit number come most significant byte first |
| `Framing.Layout` | cyber/message/message_header.h:122-129 | the fields in the order of their declaration make up the header |
| `Framing.PutGet` | cyber/message/message_header.h:122-129 | writing a field sets it and disturbs no other |
| `Framing.TypeNameReadsBack` | cyber/message/message_header.h:74-86 | a type name reads back as a C string, cut to 128 bytes |
| `Framing.MessageHeader.constructor` | cyber/message/message_header.h:33-42 | magic number and zeros |
| `Framing.MessageHeader.Set64` | cyber/message/message_header.h:52-72 | the field reads back the value and the others are unchanged |
| `Framing.MessageHeader.SetContentSize` | cyber/message/message_header.h:90-94 | the size reads back and the other fields are unchanged |
| `Framing.MessageHeader.SetMsgType` | cyber/message/message_header.h:75-86 | the name is stored terminated and the other fields are unchanged; an empty name changes nothing |
| `Framing.HeaderFields` | cyber/message/message_traits.h:259-269 | the header of a frame has the magic number, the type name and the content size |
| `Framing.HeaderBytes` | cyber/message/message_traits.h:259-269 | byte by byte: magic number at 0, type name at 40, content size at 188 most significant byte first, zeros elsewhere |
| `Framing.SerializeToHC` | cyber/message/message_traits.h:259-276 | succeeds exactly when the content is below 2 GiB and fits with its header, and what is in the buffer in each case, also for a negative size |
| `Framing.RawMessage.ParseFromHC` | cyber/message/message_traits.h:194-204 | accepts exactly a whole header with a non-empty content of the size it declares; a rejected input leaves the message alone |
| `Framing.RawMessage.ParseFromArray` | cyber/message/raw_message.h:90-97 | takes the bytes given unless there are none |
| `Framing.ParseIff` | cyber/message/message_traits.h:194-204 | for any bytes: accepted exactly with a whole header and at least the non-zero content size it declares, and what the content is |
| `Framing.FrameRoundTrip` | cyber/message/message_traits.h:194-276 | a frame parses back to its content, whatever follows, if and only if the content is not empty |
| `Framing.PrefixRejected` | cyber/message/message_traits.h:194-204 | no strict prefix of a frame is accepted |
| `Framing.SendAndReceive` | cyber/message/message_traits.h:194-276 | serializing and parsing a received part restores the content exactly when the whole frame arrived and is not empty |
| `LeapSeconds.TableWellFormed` | cyber/common/time_conversion.h:47-55 | the table of the source satisfies what the other results need |
| `LeapSeconds.UnixToGpsSeconds` | cyber/common/time_conversion.h:64-72 | the leap seconds of the newest row that has started; 0 before the oldest |
| `LeapSeconds.GpsToUnixSeconds` | cyber/common/time_conversion.h:84-93 | the leap seconds of the newest row whose converted time, cast to int32_t, has started; 0 if there is none |
| `LeapSeconds.CastIs` | cyber/common/time_conversion.h:88 | the cast gives the number of the int32_t range that differs by a multiple of 2^32 |
| `LeapSeconds.Truncates` | cyber/common/time_conversion.h:74-82 | quotients are truncated toward zero and remainders have the sign of the dividend |
| `LeapSeconds.RoundTripIff` | cyber/common/time_conversion.h:64-93 | UNIX to GPS and back is the identity if and only if the time is below 2^31 or wraps to after the newest row |
| `LeapSeconds.LostAfter2038` | cyber/common/time_conversion.h:64-93 | with the table of the source, 2^31 seconds come back as 0 |
| `LeapSeconds.UnitsRoundTripIff` | cyber/common/time_conversion.h:74-103 | the same for micro- and nanoseconds |
| `LeapSeconds.UnixToGpsIncreasing` | cyber/common/time_conversion.h:64-72 | UNIX to GPS is strictly increasing |
| `LeapSeconds.UnitsIncreasing` | cyber/common/time_conversion.h:74-82 | also in micro- and nanoseconds |
| `LeapSeconds.GpsToUnixMonotone` | cyber/common/time_conversion.h:84-93 | GPS to UNIX is non-decreasing in whole seconds |
| `LeapSeconds.ReverseRoundTripIff` | cyber/common/time_conversion.h:64-93 | GPS to UNIX and back is off by one exactly at the inserted leap seconds |
| `LeapSeconds.NextSecond` | cyber/common/time_conversion.h:84-93 | from one second to the next the UNIX time stays at a leap second and otherwise advances by one |
| `LeapSeconds.UnitsGoBackIff` | cyber/common/time_conversion.h:95-103 | in finer units the UNIX time goes back exactly at the end of a leap second |

## Left out

- Memory orderings, reclamation of replaced values and the lifetime of objects: atomic operations are sequentially consistent and names are never reused.
- The waiting variants of BoundedQueue and its wait strategies, and Size and Empty: they add no harder claims.
- DataChannel.CacheBuffer.Fetch: for an index beyond the newest position plus one, which no visitor has, in a slot not yet written, it does not say what the ring yields.
- TimingWheel.TimingWheel.AddTask: requires that the task is not filed already and not expired, which is how timers use it; an AddTask that overlaps a tick is not modelled.
- The dispatch of due callbacks to the task pool and the sleep between ticks in TickFunc: Tick returns the tasks it fires.
- PeriodicTimer.TimerTask.Callback: the doubles of the source are exact here, which is so up to 2^53 nanoseconds; one-shot timers and Start and Stop are left out.
- Rpc: timeouts of SendRequest, service discovery and the callbacks run after a promise is set; clients have distinct writer ids and their sequence numbers do not wrap.
- Fusion: the contents of the primary buffer, which stays empty while a fusion callback is set; the variants for one to three companions are one model with any number of them.
- Registry.Registry.Register: taken as one atomic operation; concurrent registrations of colliding names are not modelled.
- RecordViewer.RecordViewer.constructor: takes distinct readers whose file headers bound their times; the channel list for display is left out, and times close to 2^64, where the end of a window would overflow, are not modelled.
- RecordViewer.SortReaders: any sorting will do; that of std::sort is not modelled further, since its outcome for equal elements is not specified.
- RecordReader.RecordReader.constructor: requires chunk headers that bound the times of their messages, and chunk bodies that are not empty; RecordFile shows when the writer makes such files. Damaged files are not modelled.
- RecordFile: the bytes of sections, the index entries, message counts, and failing file operations; a swap and a flush are seen at the granularity of the flush mutex.
- RecordWriter: file names, the header, and failures other than that of a single message write.
- Framing.SerializeToHC: contents of 4 GiB and more, whose size, cast to an int, is that of a shorter one.
- The transport, service discovery, class loading, logging, parameter and plugin parts of the repository, the reentrant lock, the unbounded and the arena queue: outside the core, or with nothing harder to prove.
