# A verified model of the Fluoride Bluetooth stack's shared services

Fluoride is Android's Bluetooth stack. Around its protocol layers sits code that keeps
state: caches, an id allocator, a message loop thread, a timer, a metrics log, a module
registry, and the GATT server with its connections, pending requests and pending
indications. This project models that code in Dafny 4 and proves what it keeps over whole
runs, for every input and every order of calls.

Each stateful component comes in two parts. A *specification* module gives the component as
a value with step functions, and proves theorems about all runs of those steps against an
independent notion (time of last touch, an observer of events, exact sums, segments of
reports, positions in a trace). A *class* has the fields and the loops of the source, and
each of its methods is proved to take exactly the specified step.

| files | component |
|---|---|
| `Common` | small values shared by all |
| `RecencyList`, `LruCache` | the LRU cache: list of entries, and the list-plus-map object that refines it |
| `MetricIds`, `MetricIdInit`, `MetricIdClean`, `MetricIdRuns`, `MetricIdStore`, `MetricIdHang`, `MetricIdEffects`, `MetricIdRecency`, `MetricIdAllocator` | the metric id allocator over two LRU caches and a persistent store |
| `ModuleRegistry`, `ModuleTraces` | starting modules in dependency order and stopping them in reverse |
| `MessageLoopThread` | start-up and shut-down of a thread under arbitrary interleaving |
| `RepeatingTimer` | the repeating timer's arithmetic |
| `LeakyBondedQueue`, `A2dpMetrics`, `MetricsLog`, `MetricsFigures`, `MetricsRuns`, `MetricsLogger` | the metrics logger |
| `AudioParams` | the audio parameter text format |
| `Addresses`, `GattServerState`, `GattConnections`, `GattResponses`, `GattAnswers`, `GattIndications`, `GattServer` | the GATT server's bookkeeping |
| `GattServices` | GATT services to and from the stack's flat list |
| `GattBlobs` | long characteristic values read in sections |

`dafny verify dfyconfig.toml` checks all files together.

## Where the code and its promises differ

The model follows the code. Where that breaks a documented or natural promise, a lemma shows
a case in which it breaks and another says exactly when the promise holds.

- `Close` of the allocator keeps the callbacks, so a device can be saved after it, and the next
  `Init` finds it paired (`SaveAfterClose`). `Init` then evicts iff those devices and the map's
  do not fit together (`InitEvictsIff`). `Init` also accepts a map that gives one id to two
  devices, and keeps devices scanned before it (`SameIdTwice`, `ScanBeforeInit`). The used ids
  are those of the cached devices, each held once, iff the map is clean for the state it finds
  (`InitExactIff`); otherwise an id can stay in use and be held by nobody (`InitLosesAnId`).
- The id space is asserted to be larger than the two caches, so that the search for a free id
  ends. Since ids can be lost that is not enough: no run hangs iff the id space is larger than
  twice the paired cache and the temporary cache (`NoRunHangs`, `SomeRunHangs`). With the source's
  65534 ids and caches of 65000 and 200 some run does; none with clean Inits does
  (`EveryCleanRunExact`). `AllocateId` works before `Init` and after `Close`.
- A failing callback leaves the store behind the cache: `SaveSyncIff`, `ForgetSyncIff`.
- `ShutDown` is documented to leave the thread not running. Called while the thread starts up, or
  while someone else is shutting it down, it returns at once: `ShutDownWhileStarting`,
  `SecondShutDownDoesNotWait`. It stays iff the worker is in its loop and not asked to quit
  (`ShutDownStaysIff`); if it returns at once, the thread is stopped iff there is none or its
  worker has exited (`ShutDownReturnsStoppedIff`). `StartUp` is documented to block until the
  thread runs; a second caller does not wait (`SecondStartUpDoesNotWait`, `StartUpWaitsIff`), and
  the one who waited finds its worker in its loop iff no `ShutDown` took effect since
  (`StartedRunsIff`).
- `SendNotification` is documented to report its result in the callback. It does iff every
  connection it was sent on reports (`ResultReportedIff`). A disconnect is no report and leaves
  the indication pending, so the callback may never run, and a new connection under the same id
  is refused (`SilentAfterDisconnect`).
- The GATT indexes agree after a disconnect iff it names the device of that connection:
  `DisconnectAgreesIff`.
- A service comes back from the stack always primary and without its included services:
  `ComesBackIff`.
- A blob is returned whole iff 256 sections of 512 octets can hold it: `WholeBlobIff`,
  `SweepReturnsWholeIff`.
- A parameter map survives printing and parsing iff it is clean: `RoundTripIff`.
- The metrics logger always records a BR/EDR device, whatever type it is given, and a reset
  does not clear the headset counts. The fifth drain loop of `Build` never runs. All sessions are
  emitted iff at no dump more are due than the queue holds: `EveryClosedSessionEmittedIff`.
- `Dequeue` is documented to return null on an empty queue; the code uses the front of an
  empty queue, which is `None` here.

## Reading the model

- A `LOG(FATAL)`, or the call of a callback that was never set, is the reply `Fatal`, and a loop
  that never ends is the reply `Hang`. After either a run is over.
- What the stack, a callback or the persistent store answers, and what a clock reads, is a
  parameter. Theorems hold for all values of it.
- A shared pointer is the number of the object it points to; objects are never renumbered.
- The iteration order of a hash map is a parameter: theorems hold for every order.
- A call that runs under one lock is one step. The message loop thread has one step per lock
  scope, per blocking wait and per access outside the lock.
- The underrun average is a `float` in the source and a `real` here. The timer's 64-bit
  arithmetic is written out. Other counters are unbounded; `CombineFits` says when 64 bits
  are enough for the averages.
- The dependencies of modules have no cycle, given by a rank; with a cycle the source
  recurses without end.

## Model

| member | source | states |
|---|---|---|
| `RecencyList.PutFacts` | common/lru.h:126-146 | a Put keeps keys distinct and the size within capacity, binds its own key, forgets exactly the evicted one, and leaves every other key bound as it was |
| `RecencyList.TouchFacts` | common/lru.h:77-85 | a lookup changes the order only: same bindings, same size, the key hit is first |
| `RecencyList.WithoutFacts` | common/lru.h:154-168 | a Remove forgets its key and no other |
| `RecencyRuns.NoneLater` | common/lru.h:77-85 | the reference notion: the last touch of a key is followed by none |
| `RecencyRuns.ApplyTracks` | common/lru.h:77-146 | if the cache holds the most recently touched keys, newest first, so it does after one more Put or Get |
| `RecencyRuns.HoldsMostRecent` | common/lru.h:77-146 | after every run of Puts and Gets the cached keys are the `capacity` most recently touched distinct keys, in order of last touch; a touched key is missing only from a full cache and is older than all in it |
| `RecencyRuns.HitReturnsLastPut` | common/lru.h:95-146 | after every run a hit returns the value last put under that key |
| `LruCache.LinkedSize` | common/lru.h:175-178 | list and map hold equally many keys, so the size of the map is that of the list |
| `LruCache.LruCache.constructor` | common/lru.h:45-51 | a new cache is empty |
| `LruCache.LruCache.Find` | common/lru.h:77-85 | returns the node of the key iff present, now first in the list, everything else in its old order; list and map keep describing the same keys |
| `LruCache.LruCache.Get` | common/lru.h:95-104 | answers what the key was bound to and touches it |
| `LruCache.LruCache.HasKey` | common/lru.h:113-116 | answers whether the key is bound, and touches it |
| `LruCache.LruCache.Put` | common/lru.h:126-146 | refines the Put on recency lists, returning the least recently touched entry iff the key is new and the cache full |
| `LruCache.LruCache.Remove` | common/lru.h:154-168 | unlinks the key from list and map alike, answering whether it was there |
| `LruCache.LruCache.Clear` | common/lru.h:62-66 | the cache is empty |
| `LruCache.LruCache.Size` | common/lru.h:175-178 | the number of entries |
| `MetricIds.SomeIdFree` | common/metric_id_allocator.cc:36-42 | pigeonhole: as long as there are more ids than cache places and lost ids, some id is free |
| `MetricIds.SearchFindsFirstFree` | common/metric_id_allocator.cc:126-132 | if any id is free the cyclic search ends, in range, at the first id not in use at or after the cursor |
| `MetricIdInit.LoadedIs` | common/metric_id_allocator.cc:65-76 | after Init's loop the paired cache is the map, last loaded first, and then what is left of the devices it found |
| `MetricIdInit.LeftFacts` | common/metric_id_allocator.cc:65-76 | devices left are bound as they were found, and none of them is in the map; all fit the cache |
| `MetricIdInit.InitEvictsIff` | common/metric_id_allocator.cc:70-73 | Init evicts iff the devices found and the devices of the map are more than the cache holds |
| `MetricIdInit.LoadedIds` | common/metric_id_allocator.cc:66-76 | an id is in use after Init iff it was in use or brought, and no eviction freed it since |
| `MetricIdClean.Fate` | common/metric_id_allocator.cc:66-76 | a device that Init finds stays as it is, or is overwritten, or is evicted |
| `MetricIdClean.InitExactIff` | common/metric_id_allocator.cc:48-86 | after a successful Init the used ids are exactly those of the cached devices, each held by one device, iff the map is clean: no id twice, no device or id of the temporary cache, no id of a device that stays or is evicted later, and every id that it overwrites brought again |
| `MetricIdRuns.StepSound` | common/metric_id_allocator.cc:48-202 | every call keeps both caches bounded and duplicate-free, all ids in range, and nothing paired before the callbacks are set |
| `MetricIdRuns.EveryRunSound` | common/metric_id_allocator.cc:48-202 | so in every run from construction on, whatever the calls and callbacks do |
| `MetricIdRuns.StepExact` | common/metric_id_allocator.cc:48-202 | a call keeps the used ids exactly those of the cached devices, each held once, iff it is not an Init with an unclean map; evictions and failing callbacks included; and no call then hangs |
| `MetricIdRuns.EveryCleanRunExact` | common/metric_id_allocator.cc:48-202 | in every run whose Inits are clean, the used ids are exactly those of the cached devices, no two devices share one, and no next call hangs |
| `MetricIdRuns.AllocatesInCyclicOrder` | common/metric_id_allocator.cc:114-144 | a cached device is answered with its id, cursor unmoved; a new one gets the first free id in cyclic order and the cursor moves just past it; the search never ends iff the device is new and every id is in use |
| `MetricIdRuns.InitCursor` | common/metric_id_allocator.cc:65-79 | after Init the cursor is just past the largest id given, and at the smallest id iff none is given or the largest of all is |
| `MetricIdRuns.ScanBeforeInit` | common/metric_id_allocator.cc:48-86 | a device scanned before Init can share its id with one the map brings |
| `MetricIdRuns.SameIdTwice` | common/metric_id_allocator.cc:65-76 | Init accepts a map that gives one id to two devices |
| `MetricIdRuns.StepKeepsIdIff` | common/metric_id_allocator.cc:48-202 | a device cached before and after a call keeps its id iff the call is not an Init that brings it under another |
| `MetricIdRuns.IdIsStable` | common/metric_id_allocator.cc:114-174 | a device cached all along a run, scanned, saved or moved between caches, and not renamed by an Init, is still answered with its first id |
| `MetricIdHang.StepLoses` | common/metric_id_allocator.cc:48-202 | only Init loses ids, at most those of the paired devices it finds |
| `MetricIdHang.NoRunHangs` | common/metric_id_allocator.cc:36-42 | if the id space is larger than twice the paired cache and the temporary cache, no run hangs |
| `MetricIdHang.SomeRunHangs` | common/metric_id_allocator.cc:126-132 | if it is not, some run does: pair and scan as many devices as fit after a Close, Init with the paired ones under all other ids, scan one more |
| `MetricIdHang.SaveAfterClose` | common/metric_id_allocator.cc:90-100 | after a Close a scanned device is saved through the callbacks of the earlier Init, and is paired and stored |
| `MetricIdHang.InitLosesAnId` | common/metric_id_allocator.cc:48-86 | an Init that then brings it under another id leaves the old id in use and held by nobody |
| `MetricIdStore.SaveSyncIff` | common/metric_id_allocator.cc:147-174 | a Save keeps the store equal to the paired cache iff the callbacks it makes succeed, that for an evicted device included |
| `MetricIdStore.ForgetSyncIff` | common/metric_id_allocator.cc:177-202 | a Forget keeps them equal iff it finds nothing or its callback succeeds |
| `MetricIdStore.EveryRunSynced` | common/metric_id_allocator.cc:48-202 | in every run with working callbacks and Inits with what the store holds, every paired device is stored with its id, also between Close and Init; while initialized the store holds nothing else |
| `MetricIdStore.RestartKeepsPairedIds` | common/metric_id_allocator.cc:48-100 | Close and then Init from the store, in any iteration order: both succeed and every paired device is answered with the id it had |
| `MetricIdEffects.ForgetForgets` | common/metric_id_allocator.cc:177-202 | a Forget of a paired device takes it from the paired cache, frees its id and, if the callback succeeds, deletes its stored entry; no other device, id or entry changes; it is then known no more iff it was not scanned as well; a device not paired changes nothing |
| `MetricIdEffects.SaveRefused` | common/metric_id_allocator.cc:147-174 | a Save answers false iff the device is in neither cache or the callback fails, dies iff it would call a callback never set, and changes no binding of a device already paired |
| `MetricIdEffects.SavePairs` | common/metric_id_allocator.cc:147-174 | a scanned device moves with its id to the paired cache and, if the callback succeeds, into the store; only the last device of a full paired cache is lost, with its id and its entry; all other devices stay as they are |
| `MetricIdEffects.SaveKeeps` | common/metric_id_allocator.cc:147-174 | and no other id or stored entry changes |
| `MetricIdEffects.AllocateKnows` | common/metric_id_allocator.cc:114-144 | a scan makes the device known under the id answered, which was free if the device is new; only the last device of a full temporary cache is lost, with its id; the store does not change |
| `MetricIdEffects.CloseForgets` | common/metric_id_allocator.cc:90-100 | a Close answers whether there was something to close, and then no device is known and no id in use; store and callbacks stay |
| `MetricIdEffects.InitStores` | common/metric_id_allocator.cc:65-76 | Init deletes from the store exactly the devices it evicts whose callback succeeds |
| `MetricIdRecency.EveryRunInOrder` | common/metric_id_allocator.cc:48-202 | after every run each cache is in order of the last time its devices were loaded, saved, scanned or found there |
| `MetricIdRecency.EveryRunLosesOldest` | common/metric_id_allocator.cc:114-174 | in every run the device lost from a full cache is the one touched there least recently |
| `MetricIdAllocator.MetricIdAllocator.constructor` | common/metric_id_allocator.cc:44-46 | a new allocator has two separate empty caches, no callbacks and is not initialized |
| `MetricIdAllocator.MetricIdAllocator.Init` | common/metric_id_allocator.cc:48-86 | takes the specified Init step: refuses a second time, dies on too many devices or an id out of range, else loads all over what is paired already |
| `MetricIdAllocator.LoadAll` | common/metric_id_allocator.cc:65-76 | the loop gets to the end iff all ids are in range; it puts every device, frees the id of every evicted one, and never calls a callback that is not set |
| `MetricIdAllocator.MetricIdAllocator.Close` | common/metric_id_allocator.cc:90-100 | takes the specified Close step: everything but the callbacks forgotten, false if not initialized |
| `MetricIdAllocator.MetricIdAllocator.IsEmpty` | common/metric_id_allocator.cc:107-111 | true iff no device has an id |
| `MetricIdAllocator.MetricIdAllocator.FindFreeId` | common/metric_id_allocator.cc:126-132 | the wrap-around loop finds the first free id at or after the cursor, or goes round for ever iff every id is in use |
| `MetricIdAllocator.MetricIdAllocator.AllocateId` | common/metric_id_allocator.cc:114-144 | takes the specified Allocate step on the two cache objects and the id set, and keeps the invariant unless it hangs |
| `MetricIdAllocator.MetricIdAllocator.SaveDevice` | common/metric_id_allocator.cc:147-174 | takes the specified Save step, and keeps the invariant unless the process dies |
| `MetricIdAllocator.MetricIdAllocator.ForgetDevice` | common/metric_id_allocator.cc:177-192 | takes the specified Forget step, of which `ForgetForgets` says what it does, and keeps the invariant; the callback it calls is set |
| `MetricIdAllocator.MetricIdAllocator.ForgetDevicePostprocess` | common/metric_id_allocator.cc:198-202 | frees the id and deletes the stored device if the callback succeeds, touching neither cache |
| `ModuleRegistry.OrderIsClosed` | gd/module.cc:78-94 | whatever a started module needs, directly or not, is in the start order too |
| `ModuleRegistry.FinishedGood` | gd/module.cc:88-92 | registering a module whose dependencies are registered keeps the trace accepted and the start order a dependency order |
| `ModuleRegistry.StopReplay` | gd/module.cc:98-108 | stopping the last module not yet stopped is allowed: all that depend on it are stopped |
| `ModuleRegistry.DeleteReplay` | gd/module.cc:109-115 | deleting in reverse start order is allowed once all are stopped |
| `ModuleRegistry.ModuleRegistry.constructor` | gd/module.cc:67-71 | an empty registry that satisfies the invariant |
| `ModuleRegistry.ModuleRegistry.Start` | gd/module.cc:78-94 | afterwards exactly what was started before or is needed by the module is started, each once; the trace is accepted, only extended, and nothing is left half started |
| `ModuleRegistry.ModuleRegistry.StartList` | gd/module.cc:67-71 | the same for a list of modules |
| `ModuleRegistry.ModuleRegistry.Request` | gd/module.cc:78-94 | over all requests so far, the started modules are exactly those some request needs |
| `ModuleRegistry.ModuleRegistry.IsStarted` | gd/module.cc:63-65 | true iff some request needs the module |
| `ModuleRegistry.ModuleRegistry.GetDependency` | gd/module.cc:47-61 | answers the started instance of a listed dependency, and always succeeds for a started module and a dependency it lists |
| `ModuleRegistry.ModuleRegistry.StopAll` | gd/module.cc:96-119 | clears and stops each module once in reverse start order, then deletes each once in reverse start order; the observer accepts it and nothing is left |
| `ModuleTraces.ObserverIsRight` | gd/module.cc:78-119 | the observer's registered and stopped sets are what the events of the trace say |
| `ModuleTraces.EventsInOrder` | gd/module.cc:78-119 | in every accepted trace a module's Start finds all dependencies live, it is stopped once and after all live dependents, and nothing is deleted before all live modules are stopped |
| `ModuleTraces.ConstructedOncePerLife` | gd/module.cc:78-94 | between two constructions of a module its earlier instance was deleted |
| `MessageLoopThread.StepInv` | common/message_loop_thread.cc:43-199 | the invariant is kept by every step of every caller and worker |
| `MessageLoopThread.EveryRunInv` | common/message_loop_thread.cc:43-199 | so it holds in every interleaving |
| `MessageLoopThread.LifeCycle` | common/message_loop_thread.cc:43-199 | in every interleaving no null or stale pointer is used, at most one worker is unjoined, at most one caller is joining and `thread_` is the worker it joins, and a message loop exists exactly while that worker is between its two lock scopes |
| `MessageLoopThread.JoinedOnce` | common/message_loop_thread.cc:83-116 | no worker is joined twice, by whomever |
| `MessageLoopThread.FreedByJoiner` | common/message_loop_thread.cc:109-115 | whoever frees a thread has itself joined that thread |
| `MessageLoopThread.NextForHelps` | common/message_loop_thread.cc:43-199 | for each call under way there is an enabled step that brings it closer to its end |
| `MessageLoopThread.EveryCallCanReturn` | common/message_loop_thread.h:53-81 | from every reachable state each StartUp or ShutDown under way can return, without any new call |
| `MessageLoopThread.EveryFinishingRunEnds` | common/message_loop_thread.cc:43-199 | whatever the schedule, a run without new calls takes at most as many steps as a measure of the state says, each step lowering it by one |
| `MessageLoopThread.StuckMeansReturned` | common/message_loop_thread.h:53-81 | and when none of these steps can be taken any more, every call has returned |
| `MessageLoopThread.ShutDownStaysIff` | common/message_loop_thread.cc:83-98 | ShutDown stays to join iff the worker is in its loop and nobody has asked it to quit; otherwise it changes nothing |
| `MessageLoopThread.ShutDownReturnsStoppedIff` | common/message_loop_thread.h:71-81 | a ShutDown that returns at once leaves no thread running or starting iff there is none or its worker has exited |
| `MessageLoopThread.SecondShutDownDoesNotWait` | common/message_loop_thread.cc:83-98 | a second ShutDown returns while the thread still runs |
| `MessageLoopThread.ShutDownCompletes` | common/message_loop_thread.h:71-81 | a ShutDown that stayed leaves all workers exited, joined and freed, and the thread as never started |
| `MessageLoopThread.ShutDownWhileStarting` | common/message_loop_thread.h:71-81 | a ShutDown during start-up returns, and the thread runs |
| `MessageLoopThread.RunningWhileLeaving` | common/message_loop_thread.cc:132-135 | a thread whose run loop has returned can still count as running |
| `MessageLoopThread.StartUpWaitsIff` | common/message_loop_thread.cc:43-57 | StartUp waits iff there is no thread; otherwise the thread it leaves is running iff it is neither starting nor stopped |
| `MessageLoopThread.SecondStartUpDoesNotWait` | common/message_loop_thread.h:53-60 | a second StartUp returns before the thread runs |
| `MessageLoopThread.StartedRunsIff` | common/message_loop_thread.h:53-60 | when a StartUp that made the thread returns, its worker is in its loop and not asked to quit iff no ShutDown took effect since, and then the thread runs |
| `RepeatingTimer.DoubleRem` | common/repeating_timer.cc:138-142 | the two truncating remainders bring a negative delay into one period without changing its class |
| `RepeatingTimer.FirstGridPointIsFirst` | common/repeating_timer.cc:134-145 | the reference notion: no earlier multiple of the period is at or after now |
| `RepeatingTimer.NoDrift` | common/repeating_timer.cc:124-157 | after any number of runs, however late, the next expected time is the start plus that many periods |
| `RepeatingTimer.NthFiring` | common/repeating_timer.cc:124-157 | the n-th run asks for firing n + 1 at its due time if that has not passed, else at the first multiple of the period at or after now; never before the due time, always on the grid |
| `RepeatingTimer.WithinOnePeriod` | common/repeating_timer.cc:124-157 | a run that is not early is followed within one period, and requested times never go back |
| `RepeatingTimer.RepeatingTimer.SchedulePeriodic` | common/repeating_timer.cc:37-74 | succeeds iff the period is positive, a thread is given and the post succeeds; the first firing is one period after entry; a failure after cancelling leaves the timer unscheduled |
| `RepeatingTimer.RepeatingTimer.RunTask` | common/repeating_timer.cc:124-157 | posts the next run iff scheduled and running, with the delay that NthFiring speaks of |
| `RepeatingTimer.RepeatingTimer.Cancel` | common/repeating_timer.cc:108-115 | the timer is unscheduled |
| `LeakyBondedQueue.LastNSnoc` | common/leaky_bonded_queue.h:102-110 | keeping the last n after each item is keeping the last n of all items |
| `LeakyBondedQueue.LastNIsSuffix` | common/leaky_bonded_queue.h:102-110 | what is kept is a suffix of all items, as long as the queue has room for |
| `LeakyBondedQueue.LeakyBondedQueue.Enqueue` | common/leaky_bonded_queue.h:102-110 | the queue holds the last `capacity` items, in order |
| `LeakyBondedQueue.LeakyBondedQueue.EnqueueWithPop` | common/leaky_bonded_queue.h:112-124 | the same, and hands out the oldest item iff the queue was full |
| `LeakyBondedQueue.LeakyBondedQueue.Dequeue` | common/leaky_bonded_queue.h:126-132 | takes out the oldest item; None iff the queue is empty |
| `LeakyBondedQueue.LeakyBondedQueue.Clear` | common/leaky_bonded_queue.h:134-141 | the queue is empty |
| `LeakyBondedQueue.LeakyBondedQueue.Drain` | common/metrics.cc:504-527 | a drain loop moves the oldest items, in order, up to one more than the capacity in the log |
| `A2dpMetrics.Update` | common/metrics.cc:93-148 | merges a report field by field, as the fold the lemmas below speak of |
| `A2dpMetrics.CombineLoss` | common/metrics.cc:82-91 | a merged average lies between the two it merges and loses less than one count to truncation |
| `A2dpMetrics.TimerAverageClose` | common/metrics.cc:93-148 | after any reports the count is the exact sum, and average times count falls short of the exact weighted sum by at most one count per merge |
| `A2dpMetrics.AverageWithinReports` | common/metrics.cc:93-148 | with n counted reports the average is at most the exact mean and less than n below it |
| `A2dpMetrics.TimerFieldsTogether` | common/metrics.cc:110-120 | average and count are reported together or not at all, and a partial report leaves both alone |
| `A2dpMetrics.ZeroCountsKeepFirst` | common/metrics.cc:82-91 | while all counts are zero the first average reported stands |
| `A2dpMetrics.CombineFits` | common/metrics.cc:82-91 | averages of 31 bits and fewer than 2^32 schedulings never overflow 64 bits |
| `A2dpMetrics.FoldDuration` | common/metrics.cc:94-97 | the duration is the sum of those reported, -1 if none |
| `A2dpMetrics.FoldMinimum` | common/metrics.cc:98-105 | the timer minimum is the least reported, -1 if none |
| `A2dpMetrics.FoldMaximum` | common/metrics.cc:106-109 | the timer maximum is the greatest reported, -1 if none |
| `A2dpMetrics.FoldOverruns` | common/metrics.cc:125-129 | overruns are the sum of those reported, -1 if none |
| `A2dpMetrics.FoldOverrunsMaximum` | common/metrics.cc:121-124 | the greatest number of overruns is the greatest reported, -1 if none |
| `A2dpMetrics.FoldOffload` | common/metrics.cc:145-147 | offload is set iff some report said so |
| `A2dpMetrics.FirstCodecStands` | common/metrics.cc:142-144 | the first codec reported stands |
| `A2dpMetrics.CombineRealExact` | common/metrics.cc:71-80 | in exact arithmetic a merged average loses nothing |
| `A2dpMetrics.UnderrunAverageExact` | common/metrics.cc:130-141 | in exact arithmetic the underrun average is the weighted mean of all reports that count |
| `MetricsFigures.BlockFigures` | common/metrics.cc:418-431 | every field of a session's A2DP part is a figure of the reports merged into it: totals of what was reported, least minimum and greatest maxima, the timer average at most the exact mean and less than n below it, the exact underrun mean and count, the name of the first codec reported, offload iff some report says so; -1 or unknown if none does |
| `MetricsFigures.DurationElapsed` | common/metrics.cc:367-389 | a session's length is the whole seconds from its start to its end, modulo 2^64 milliseconds |
| `MetricsFigures.CodecNamed` | common/metrics.cc:240-255 | the codec is named by its index, unknown for any other index |
| `MetricsFigures.ClosedTells` | common/metrics.cc:367-436 | a closed session tells of its own segment: technology, device, reason, length and all A2DP figures of exactly its reports |
| `MetricsFigures.StatsList` | common/metrics.cc:534-545 | the headset profiles with a count above zero are listed, each once, with that count |
| `MetricsLog.EndMatches` | common/metrics.cc:367-389 | ending a session closes exactly its segment of reports |
| `MetricsRuns.EventStep` | common/metrics.cc:294-571 | every call keeps each queue the last of its kind of event and each counter the true number |
| `MetricsRuns.SessionStep` | common/metrics.cc:351-571 | every call keeps the open session, its A2DP part and the closed sessions those of the reference segments |
| `MetricsRuns.EveryRunMatches` | common/metrics.cc:294-571 | after every run queues, counters and open session are what the run's own history says |
| `MetricsRuns.EveryRunCountsHeadsets` | common/metrics.cc:438-454 | after every run each headset counter is the number of connections of its profile since the last dump |
| `MetricsRuns.DumpEmitsTheLast` | common/metrics.cc:456-547 | a dump after any run emits, per kind, exactly the last events since the previous dump or reset, in order, with their true number, the session it cuts off last, and each headset profile connected since the previous dump with its number; the queues are then empty |
| `MetricsRuns.DumpTells` | common/metrics.cc:351-547 | after any run, resets and overflow included, the sessions a dump emits are as many as the queue holds of those due, and each tells of its own segment, figure by figure, without naming the code that merges reports |
| `MetricsRuns.BuildDrains` | common/metrics.cc:504-527 | queues within capacity are drained to the last item |
| `MetricsRuns.ReportStep` | common/metrics.cc:351-498 | every call other than a reset keeps all reports, in order, each in one segment |
| `MetricsRuns.EveryReportInOneSession` | common/metrics.cc:402-498 | without a reset, the reports of closed segments and the open one are, in order, all reports made, none lost and none twice |
| `MetricsRuns.EveryClosedSessionEmittedIff` | common/metrics.cc:456-547 | without a reset, the dumps of a run together emit every session closed for them, in order and once, iff at no dump more are due than the queue holds |
| `MetricsRuns.EveryReportEmitted` | common/metrics.cc:402-547 | then, after a last dump, the emitted sessions are those of segments whose reports joined are all reports of the run, each telling of its own segment: every A2DP figure is that of exactly its own reports |
| `MetricsLogger.BluetoothMetricsLogger.LogPairEvent` | common/metrics.cc:294-310 | takes the specified step on the pair queue and counter |
| `MetricsLogger.BluetoothMetricsLogger.LogWakeEvent` | common/metrics.cc:312-327 | takes the specified step on the wake queue and counter |
| `MetricsLogger.BluetoothMetricsLogger.LogScanEvent` | common/metrics.cc:329-349 | takes the specified step on the scan queue and counter |
| `MetricsLogger.BluetoothMetricsLogger.LogBluetoothSessionStart` | common/metrics.cc:351-365 | takes the specified step: an open session is ended first, and a session is open afterwards |
| `MetricsLogger.BluetoothMetricsLogger.LogBluetoothSessionEnd` | common/metrics.cc:367-389 | takes the specified step; nothing without an open session |
| `MetricsLogger.BluetoothMetricsLogger.LogBluetoothSessionDeviceInfo` | common/metrics.cc:391-400 | takes the specified step; opens a session if there is none |
| `MetricsLogger.BluetoothMetricsLogger.LogA2dpSession` | common/metrics.cc:402-436 | takes the specified step; opens a BR/EDR audio session if there is none; what its figures then are is `BlockFigures` |
| `MetricsLogger.BluetoothMetricsLogger.LogHeadsetProfileRfcConnection` | common/metrics.cc:438-454 | takes the specified step on the headset counts |
| `MetricsLogger.BluetoothMetricsLogger.CutoffSession` | common/metrics.cc:485-498 | takes the specified step: the session is closed, and a copy without its A2DP part goes on |
| `MetricsLogger.BluetoothMetricsLogger.Build` | common/metrics.cc:500-547 | takes the specified step; its fifth loop is unreachable |
| `MetricsLogger.BluetoothMetricsLogger.WriteString` | common/metrics.cc:456-466 | hands out the log that Build made and leaves an empty one |
| `MetricsLogger.BluetoothMetricsLogger.Reset` | common/metrics.cc:549-571 | takes the specified step: all but the headset counts forgotten |
| `AudioParams.ParseAudioParams` | audio_bluetooth_hw/utils.cc:33-49 | the parse loop computes the parse function of the lemmas below |
| `AudioParams.PrintParams` | audio_bluetooth_hw/stream_apis.cc:414-417 | the print loop computes the print function of the lemmas below |
| `AudioParams.ParseJoin` | audio_bluetooth_hw/utils.cc:33-49 | for all texts, parsing two joined by ';' is parsing each, the second overriding the first |
| `AudioParams.SegmentSets` | audio_bluetooth_hw/utils.cc:33-49 | a segment sets the text before its first '=' to the text up to the second or the end, to nothing without an '=', and is skipped iff the key is empty |
| `AudioParams.ParseReadsLast` | audio_bluetooth_hw/utils.cc:33-49 | for every text, a key has the value of the last segment that gives it, and is absent iff none does |
| `AudioParams.PrintJoin` | audio_bluetooth_hw/stream_apis.cc:414-417 | entries are written one after the other, each as key, '=', value, ';' |
| `AudioParams.ParseIsClean` | audio_bluetooth_hw/utils.cc:33-49 | no text parses to an empty key or to a key or value with ';' or '=' |
| `AudioParams.RoundTripIff` | audio_bluetooth_hw/stream_apis.cc:414-417 | a map, printed in any order, parses back to itself iff it is clean in that sense |
| `AudioParams.ParseIsStable` | audio_bluetooth_hw/utils.cc:33-49 | what any text parses to survives printing and parsing |
| `Addresses.BtAddrStringInjective` | service/logging_helpers.cc:143-149 | two devices never share an address text |
| `GattConnections.ConnectAgrees` | service/gatt_server.cc:281-291 | a connection is added to both indexes or to neither, and they agree |
| `GattConnections.DisconnectAgreesIff` | service/gatt_server.cc:262-273 | the indexes agree after a disconnect iff it names the device of that connection, or a connection not known |
| `GattConnections.StepAgreesIff` | service/gatt_server.cc:107-568 | no other callback or call breaks the agreement |
| `GattConnections.EveryRunAgrees` | service/gatt_server.cc:247-295 | in every run with rightly named disconnects both indexes hold the same connections, each under its own id and its own address, once |
| `GattConnections.EveryRunIndexesPeers` | service/gatt_server.cc:247-295 | in every run, whatever devices its disconnects name, a connection id is known iff a connect of it is in force, with the device of that connect |
| `GattConnections.PeerConnected` | service/gatt_server.cc:281-291 | a connect in force is one that no later event of that id has ended |
| `GattResponses.BtAddrStringIsAddress` | types/raw_address.cc:42-63 | every address text passes the check on device addresses |
| `GattResponses.ResponseIsOwed` | service/gatt_server.cc:107-181 | a response handed to the stack is for a live connection of the named device on which that request is pending, with its handle, within 600 octets, empty for an execute-write |
| `GattResponses.RespondsIff` | service/gatt_server.cc:107-181 | an answer is handed over iff its address, offset and size are well formed and some connection of that device has the request pending |
| `GattResponses.StepOwes` | service/gatt_server.cc:107-568 | a request becomes pending only by being taken and stops being so only by its answer or its disconnect |
| `GattResponses.OwedIffOpen` | service/gatt_server.cc:107-568 | in every run with rightly named disconnects a request is pending iff one of that connection and id came in, was taken, and was neither answered nor disconnected since |
| `GattResponses.RequestTakenIff` | service/gatt_server.cc:545-568 | in every such run a request is taken and told to the delegate iff a connect of that connection to that device is in force and no request of that id is open there |
| `GattResponses.EveryResponseIsOwed` | service/gatt_server.cc:107-568 | in every run each response answers a request that came in on that very connection from the named device, with its handle, not answered or disconnected since |
| `GattResponses.NeverAnsweredTwice` | service/gatt_server.cc:107-568 | between two answers to one connection and id a new request came in |
| `GattAnswers.EveryRunOldestFirst` | service/gatt_server.cc:247-295 | in every run the connections of a device are listed in the order in which they came |
| `GattAnswers.AnswersTheNewest` | service/gatt_server.cc:107-181 | in every run, of the connections of the named device on which the request is open, the answer goes to the one that connected last |
| `GattIndications.NotifiedFacts` | service/gatt_server.cc:205-245 | an indication is sent only on connections with none pending, and is then pending on exactly those it was sent on |
| `GattIndications.SentIff` | service/gatt_server.cc:210-236 | it is sent on exactly the listed connections that have none pending and that the stack takes |
| `GattIndications.NotifySendsIff` | service/gatt_server.cc:183-245 | the call returns true iff the address is well formed and some connection of the device is free and taken; it is sent on exactly those, each of which then awaits this new indication; what was pending stays |
| `GattIndications.EveryRunRemembers` | service/gatt_server.cc:183-245 | in every run the pending map says which call each connection is awaited by, and the success flag whether one of its connections reported success |
| `GattIndications.NeverTwoPending` | service/gatt_server.cc:205-245 | a connection is never awaited by two notifications |
| `GattIndications.CallbackRunsIff` | service/gatt_server.cc:517-539 | in every run a callback runs exactly at the last report its call waits for, with success iff one of its connections reported success and else with that last status |
| `GattIndications.EveryCallbackWasSent` | service/gatt_server.cc:183-245 | a callback that runs belongs to a call that returned true |
| `GattIndications.CallbackRunsOnce` | service/gatt_server.cc:517-539 | no callback runs twice |
| `GattIndications.ResultReportedIff` | service/gatt_server.cc:517-539 | in every run the callback of a call that returned true has run by a time iff every connection it was sent on has reported by then |
| `GattIndications.SilentAfterDisconnect` | service/gatt_server.cc:259-279 | a connection lost before it reported: no callback, and the next notification on a new connection of the same id is refused |
| `GattServer.GattServer.constructor` | service/gatt_server.cc:247-295 | a new server has no connections and nothing pending |
| `GattServer.GattServer.ConnectionCallback` | service/gatt_server.cc:247-295 | takes the specified connect or disconnect step; other servers' connections are ignored |
| `GattServer.GattServer.EraseConnection` | service/gatt_server.cc:267-273 | the loop takes out the first record of the connection and keeps the rest in order |
| `GattServer.GattServer.RequestCallback` | service/gatt_server.cc:339-515 | takes the specified request step and tells whether the delegate hears of it, which `RequestTakenIff` says when it does |
| `GattServer.GattServer.SendResponse` | service/gatt_server.cc:107-181 | takes the specified respond step; true iff the stack took the response, and then the request is no longer pending |
| `GattServer.GattServer.FindWithRequest` | service/gatt_server.cc:140-147 | the loop finds the last connection in the list with the request pending, if any |
| `GattServer.GattServer.SendNotification` | service/gatt_server.cc:183-245 | takes the specified notify step; true iff sent on at least one connection |
| `GattServer.GattServer.SendToAll` | service/gatt_server.cc:205-245 | the loop sends on each connection without a pending indication, and answers whether it sent any |
| `GattServer.GattServer.IndicationSentCallback` | service/gatt_server.cc:517-539 | takes the specified report step, including whether and with what the callback runs |
| `GattServices.ServiceElements` | service/gatt_server.cc:60-105 | the nested loops write the flat list, of which the next two lemmas say every element |
| `GattServices.FlattenEnds` | service/gatt_server.cc:60-105 | the list begins with the service, primary or secondary as it is, with its uuid; it ends with the included services in order, each by its handle; its length is that of all parts |
| `GattServices.FlattenMiddle` | service/gatt_server.cc:70-91 | in between, each characteristic stands at its place with its uuid, properties and permissions, and its descriptors in order right after it |
| `GattServices.ServiceAdded` | service/gatt_server.cc:297-331 | the loop rebuilds the service that the flat list stands for |
| `GattServices.FailsIff` | service/gatt_server.cc:309-326 | a list cannot be rebuilt iff it has a descriptor before any characteristic |
| `GattServices.RebuildsTheTree` | service/gatt_server.cc:60-331 | for every service and every choice of handles by the stack, rebuilding the flattened list gives the same tree of characteristics and descriptors, each with the handle of its place |
| `GattServices.PlacedKeepsShape` | service/gatt_server.cc:60-331 | handles aside nothing of the tree changes |
| `GattServices.ComesBackIff` | service/gatt_server.cc:60-331 | the service that comes back is, handles aside, the one added iff that was primary and included no other |
| `GattBlobs.ServerInternals.AddBlob` | service/gatt_server_old.cc:158-192 | takes the specified step: the control attribute controls the blob and reads as zero |
| `GattBlobs.ControlReadsZero` | service/gatt_server_old.cc:165-190 | a new control attribute reads as a zero octet and controls its blob, which starts at section 0; no other attribute changes |
| `GattBlobs.ServerInternals.RequestRead` | service/gatt_server_old.cc:208-249 | takes the specified read step, answering at most 512 octets; `ReadsAnswerWhatWasSet` says of what value |
| `GattBlobs.ServerInternals.RequestWrite` | service/gatt_server_old.cc:251-305 | takes the specified write step, which may choose the section of a controlled blob; echoes the value if a response is needed; wakes the reader iff the write is complete and does not choose a section |
| `GattBlobs.ServerInternals.SetCharacteristicValue` | service/gatt_server_old.cc:701-716 | takes the specified step: the new value waits for the next latch |
| `GattBlobs.WrittenIs` | service/gatt_server_old.cc:267-269 | a write ends with its value at its offset, after what was there before, padded with zeros |
| `GattBlobs.WriteContents` | service/gatt_server_old.cc:251-277 | on any attribute a write leaves its value at its offset, after what was there before, and nothing after it |
| `GattBlobs.WriteTouches` | service/gatt_server_old.cc:251-277 | it changes no other attribute but the section of the one it controls, and that iff the control is then one octet, which is the section |
| `GattBlobs.ReadsSeeTheLatchedValue` | service/gatt_server_old.cc:208-249 | in every run, until a read at the start latches again or the value is written, every read answers from the same value |
| `GattBlobs.ReadAnswersWhatWasSet` | service/gatt_server_old.cc:217-221 | in every run the first read at the start after a value was set answers that value, as far as it fits |
| `GattBlobs.ReadsAnswerWhatWasSet` | service/gatt_server_old.cc:208-249 | in every run, until another value is set and taken over or one is written, a read at any offset answers the rest of the chosen section of the value that was set |
| `GattBlobs.AnswerIsRest` | service/gatt_server_old.cc:223-244 | a read at an offset answers with the rest of the section from there |
| `GattBlobs.SectionsArePrefix` | service/gatt_server_old.cc:223-226 | sections joined are a prefix of the value |
| `GattBlobs.WholeBlobIff` | service/gatt_server_old.cc:223-226 | all sections give the whole value iff it has at most 256 * 512 octets |
| `GattBlobs.SweepStep` | service/gatt_server_old.cc:208-277 | what a client has of a section stays a prefix of that section of the value the attribute has, through its own reads at any offset, latching or not, cut short or not, and through anything harmless that others do |
| `GattBlobs.ValueStays` | service/gatt_server_old.cc:208-249 | once past section 0 the value does not change, whatever is set |
| `GattBlobs.SweepReadsOneValue` | service/gatt_server_old.cc:208-277 | in every run a client that reads section after section, at any chain of offsets, while values keep being set and others read and write, has exactly the sections of one value: the one the attribute has had since the last read that latched |
| `GattBlobs.SweepReadsWhatWasSet` | service/gatt_server_old.cc:208-277 | and that value is the one last set before the client's read at the start of section 0 after which none was taken over |
| `GattBlobs.SweepReturnsWholeIff` | service/gatt_server_old.cc:208-277 | at the end of section 255 it has the whole value iff that has at most 256 * 512 octets |

## Left out

- LeakyBondedQueue.LeakyBondedQueue.constructor: capacity 0 is excluded, because an Enqueue would then pop an empty queue.
- RepeatingTimer.RepeatingTimer.SchedulePeriodic: times and the first due time are below 2^63 microseconds, about 292,000 years after boot.
- RepeatingTimer.NthFiring: the same bound on all due times of the run.
- A2dpMetrics.Update: 64-bit overflow of averages and counts, and rounding of the float average, are not modelled.
- A2dpMetrics.CombineRealExact: rounding of the float average is not modelled.
- A2dpMetrics.UnderrunAverageExact: rounding of the float average is not modelled.
- MetricIdAllocator.LoadAll: works on copies of the id set, cursor and store, which Init writes back in the same lock scope.
- AudioParams.ParseAudioParams: `android::base::Split` is not part of the repository and is modelled by its documented behaviour.
- GattBlobs.ServerInternals.RequestRead: a negative offset, which the stack does not send, is not modelled.
- GattBlobs.ServerInternals.RequestWrite: the pipe that wakes a reader is one flag, and the uuid kept for an execute-write is not modelled.
- GattBlobs.SweepReadsOneValue: events that read or write the attribute, or choose its section, are the client's own.
- GattBlobs.SweepReadsWhatWasSet: the same.
- GattBlobs.ServerInternals.SetCharacteristicValue: the indications sent to connected devices are not modelled.
- GattServer.GattServer.RequestCallback: the five request callbacks differ in what they tell the delegate and share this bookkeeping; the delegate's own behaviour is not modelled.
- GattServer.GattServer.SendResponse: that the stack's response struct is filled is modelled, its memory layout is not.
- GattServices.ServiceElements: a UUID is a number, and an included service contributes its handle only, as in the source.
- ModuleRegistry.ModuleRegistry.Start: injected test modules, and the handler and thread each module is given, are not modelled.
- MessageLoopThread: calls made from the worker thread itself, tasks posted to the loop and the order in which they run, and real-time scheduling.
- Deadlock freedom of the metrics logger's locks, which are taken one inside the other.
- The protobuf encoding and Base64 form of a dump.
- The statsd and audio metrics that `common/metrics.cc` also reports: straight-line calls without state.
- The GATT client, the adapter, A2DP, AVRCP, HFP, the advertising and scanning services and their binder layers.
- The audio HAL's streams, the OSI layer, the protocol stack under `stack/`, the new stack under `gd/` other than its registry, and the packet description language.
