# Sensor gateway: a verified model

This project models the data path of the sensor gateway and proves what the path promises, from the
per-sensor rings to the frames the dashboard shows.

A sensor thread writes readings into a power-of-two ring that overwrites its oldest entry when full. A reader
thread moves readings into a bounded blocking queue. A pool of workers pops them, files them under time windows
in a shared map, claims the windows that are old enough, turns each into a numbered frame with statistics and
anomalies, writes the frame to disk and hands it to the dashboard's frame cache. The cache is refreshed from disk
in the background and answers requests for the latest frames.

| module | what it holds |
|---|---|
| `Arithmetic`, `RealFacts`, `Folds`, `Wrappers` | bit masks and modulus, facts about squares and quotients, sums and unions over maps and sequences |
| `Ring` | the ring as an object over an array, against a sequence of contents |
| `Ledger`, `RingRuns` | whole call sequences of the ring: what became of every value written |
| `RingConcurrent` | the ring at the level of single loads and stores of one reader and one writer |
| `RingAgreement` | the two accounts of the ring agree on calls that do not interleave |
| `Models`, `Statistics` | readings, statistics, frames; one-pass statistics and deviation bounds over the reals |
| `Windows`, `Aggregation` | the pending map, the claim loop, frame computation, the engine object |
| `Workers`, `WorkerShutdown` | the worker pool as a state machine: conservation, shutdown, progress |
| `WorkerFrames`, `WorkerOrder`, `WorkerTurns`, `FrameTotals` | placement, numbering and order of frames over all runs; what one turn of a worker does; totals |
| `OrderWitnesses`, `FlushOrder` | runs in which ids leave window order; order through the final flush |
| `SharedBuffer`, `Wakeups`, `PoolQueue` | the bounded queue, its rates, its condition variables, its part in the worker pool |
| `FrameOrder`, `FrameCache`, `LatestFrames`, `CacheCoverage` | ordering by recency, the bounded upsert cache, the heap-based latest ten |
| `RefreshProtocol`, `RefreshRuns` | the dashboard cache object and the refresh protocol over all interleavings |
| `FrameKeys` | the worker pool never writes two frames under one key, as the refresh protocol needs |

State machines (`RingConcurrent`, `Workers`, `Wakeups`, `RefreshRuns`) have one action per atomic step of the
program, where an atomic step is a load, a store or a critical section. A run is any sequence of enabled actions,
so every theorem about runs covers every interleaving.

Where the code and its comments differ, the model follows the code:

- A comment on claiming windows says ids stay monotonic with window order (`gateway/src/aggregation.rs:138-139`).
  A reading that arrives for a window at or below one already numbered breaks this: from every start,
  `OrderWitnesses.LateReadingSpoilsOrder` gives a run in which it does. `WorkerOrder.OrderExactlyWithoutLate`
  proves that this is the only way until a worker leaves.
- A comment on the final flush promises deterministic ordering (`gateway/src/aggregation.rs:94`). Ids are taken
  outside the lock there. The ids one worker takes in its flush do rise with window start, in every interleaving
  (`FlushOrder.FlushIdsRise`). Across workers they need not: from every start with two workers or more,
  `OrderWitnesses.TwoFlushesRace` gives a run without a late reading in which two flushes number two windows
  either way round. `FlushOrder.OrderSurvivesFlushExactlyAlone` proves that order survives the flush in every run
  without a late reading if and only if there is one worker.
- A comment on shutdown says blocked readers can check the running flag again after being woken
  (`gateway/src/sensor_buffer.rs:526`). A producer inside `push` looks only at the queue.
  `Wakeups.WakeAllNeedsRoom` proves that it leaves exactly when there is room, and `Wakeups.ReadersCanBeJoined`
  that live workers make that room for every producer.
- The ring asks for a power of two above zero (`os_lib/src/queue.rs:95`). A ring of capacity 1 meets that and holds
  nothing (`RingConcurrent.CapacityOneHoldsNothing`).

## Model

| member | source | states |
|---|---|---|
| Arithmetic.MaskIsModulus | os_lib/src/queue.rs:236-238 | masking with `c - 1` is the remainder by `c`, for every power of two `c` and every number |
| Arithmetic.PowersOfTwoExactly | os_lib/src/queue.rs:128-133 | the capacity test accepts 1, 2, 4 and so on by doubling, 128 among them, and nothing else |
| Ring.NextIndexWraps | os_lib/src/queue.rs:226-238 | the successor index is `(i + 1) mod capacity` and stays in range |
| Ring.NextIndex | os_lib/src/queue.rs:236-238 | from an index in range, the successor is the next one, or zero at the end |
| Ring.DistanceBounded | os_lib/src/queue.rs:342-351 | the length computed from any two indices in range is in `0..capacity`, and walking that far from the read index reaches the write index |
| Ring.FullTest | os_lib/src/queue.rs:282-292 | the full test succeeds exactly when `capacity - 1` elements are stored |
| Ring.ReadAdvances | os_lib/src/queue.rs:249-272 | advancing the read index drops exactly the first element, which is the one in the acquired slot |
| Ring.WriteAdvances | os_lib/src/queue.rs:301-313 | with room, advancing the write index appends exactly the written slot |
| Ring.OverwriteAdvances | os_lib/src/queue.rs:301-313 | when full, advancing both indices appends the written slot and drops the oldest element |
| Ring.ReservedSlotHidden | os_lib/src/queue.rs:282-292 | storing into the slot at the write index does not change the contents before the commit |
| Ring.RoundQueue.New | os_lib/src/queue.rs:121-164 | succeeds exactly for powers of two with an empty queue, and tells zero apart from other bad capacities |
| Ring.RoundQueue.AcquireReadPtr | os_lib/src/queue.rs:249-261 | no slot exactly when empty, else the slot of the oldest element |
| Ring.RoundQueue.CommitRead | os_lib/src/queue.rs:268-272 | removes exactly the oldest element |
| Ring.RoundQueue.AcquireWritePtr | os_lib/src/queue.rs:282-292 | gives the reserved slot and whether the queue is full |
| Ring.RoundQueue.CommitWrite | os_lib/src/queue.rs:301-313 | contents become the newest `capacity - 1` of the old contents and the value in the slot |
| Ring.RoundQueue.Len | os_lib/src/queue.rs:342-351 | the number of stored elements |
| Ring.RoundQueue.TryRead | os_lib/src/queue.rs:436-441 | takes the oldest element, or reports empty exactly when empty |
| Ring.RoundQueue.WriteOverwrite | os_lib/src/queue.rs:482-489 | keeps the newest `capacity - 1` of old contents and value; the flag says exactly whether an element was dropped |
| Ring.RoundQueue.ReadBatch | os_lib/src/queue.rs:607-619 | returns and removes exactly the first `min(max, length)` elements |
| RingRuns.ReplayLedger | os_lib/src/queue.rs:436-489 | after any sequence of calls every value written was read, overwritten or is still queued, in that order of age, and reads are an in-order subsequence of writes |
| RingRuns.WritesBalance | os_lib/src/queue.rs:443-489 | writes = reads + flagged writes + length, after any sequence of calls |
| RingRuns.Perform | os_lib/src/queue.rs:436-489 | running any sequence of calls on an empty ring object gives exactly the contents, reads and flags of the replay, so the two results above hold of the object |
| RingConcurrent.Next | os_lib/src/queue.rs:249-313 | every single load or store, in any state, keeps both indices and every held index below the capacity |
| RingConcurrent.ConcurrentRefinement | os_lib/src/queue.rs:249-313 | in every interleaving where no overwriting write overlaps a read, values read are an in-order duplicate-free subsequence of values written, and the missing ones are exactly the overwritten and the still queued |
| RingConcurrent.NoneExactlyWhenEmpty | os_lib/src/queue.rs:249-256 | a read reports empty exactly when nothing written is unread at the load of the write index |
| RingConcurrent.NoSlotRace | os_lib/src/queue.rs:436-441 | no slot is read while it is being written |
| RingConcurrent.OverlapBreaksAccounting | os_lib/src/queue.rs:301-313 | from every consistent state where an overwrite overlaps a read, some continuation counts one value twice |
| RingConcurrent.FirstOverlapIsConsistent | os_lib/src/queue.rs:249-313 | any run with an overlap has a consistent state where the first one begins |
| RingConcurrent.OverlapFreeIsExact | os_lib/src/queue.rs:249-313 | overlap-freedom is the exact condition: with it the accounting holds, without it a prefix of the run can be continued to break it |
| RingConcurrent.LenBounded | os_lib/src/queue.rs:342-351 | a length computed from two loads at different moments of any run, overlaps included, is below the capacity |
| RingConcurrent.CapacityOneHoldsNothing | os_lib/src/queue.rs:121-133 | on a ring of capacity 1 no run ever reads a value |
| RingAgreement.WriteAgrees | os_lib/src/queue.rs:482-489 | the single loads and stores of an uninterrupted write, from any state between calls, do what the replay's write does, flag included |
| RingAgreement.ReadAgrees | os_lib/src/queue.rs:436-441 | those of an uninterrupted read do what the replay's read does |
| RingAgreement.ReplayIsARun | os_lib/src/queue.rs:249-313 | for every capacity and call sequence some run of single loads and stores ends with the contents, writes, reads and flags of the replay |
| Statistics.OnePassVariance | gateway/src/aggregation.rs:219-224 | mean of squares minus squared mean is the mean squared deviation, hence not negative |
| Statistics.SumsAdd | gateway/src/aggregation.rs:215-216 | the sums of a batch in two pieces are the sums of the pieces |
| Models.ValueIsMeanOfAxes | gateway/src/aggregation.rs:199-207 | the scalar of a reading is the mean of its three axes, or the temperature itself |
| Statistics.ZeroVarianceMeansConstant | gateway/src/aggregation.rs:219-225 | the variance is zero exactly when all values are equal |
| Statistics.MeanBetween | gateway/src/aggregation.rs:219 | the mean lies between any bounds on the values |
| Statistics.FlaggedSquares | gateway/src/aggregation.rs:269 | the deviation test with a root is the same test on squares |
| Statistics.FlaggedAtMost | gateway/src/aggregation.rs:251-278 | flagged values times the squared threshold never exceed the number of values, strictly when any is flagged |
| Statistics.DeviationBounded | gateway/src/aggregation.rs:191-236 | no value is further from the mean than `n - 1` variances, squared |
| Statistics.FlagNeedsLargeWindow | gateway/src/aggregation.rs:251-278 | a value is flagged only if `n - 1` exceeds the squared threshold |
| Statistics.SmallWindowsNeverReport | gateway/src/aggregation.rs:251-278 | at threshold 3, ten readings or fewer never give an anomaly |
| Statistics.DeviatesIsFlagged | gateway/src/aggregation.rs:269 | flagged means exactly: positive variance and squared deviation above threshold squared times variance |
| Statistics.SizeBoundIsExact | gateway/src/aggregation.rs:251-278 | some window of `n` values has a flagged value if and only if `n - 1` exceeds the squared threshold |
| Aggregation.ComputeStats | gateway/src/aggregation.rs:191-236 | the one-pass loop computes count, extremes, sums, mean and deviation as defined, sentinels for an empty batch; the two sums fit the count, mean and deviation |
| Aggregation.EmptyBatchStats | gateway/src/aggregation.rs:191-236 | with no readings count, sums, mean and deviation are zero and the extremes keep the search sentinels; `WorkerFrames.WindowPlacement` shows that no window of the pipeline holds an empty batch |
| Aggregation.StatsMeaning | gateway/src/aggregation.rs:191-236 | for a non-empty batch min ≤ avg ≤ max, both attained, all values between, a true deviation, zero exactly for equal values; sum = avg · count and sum_sq = count · (stddev² + avg²) |
| Aggregation.DetectAnomalies | gateway/src/aggregation.rs:251-278 | appends exactly the anomalies of the readings that deviate, in order |
| Aggregation.AnomalyCount | gateway/src/aggregation.rs:258-277 | one anomaly per flagged value |
| Aggregation.AnomaliesExceed | gateway/src/aggregation.rs:269-276 | every anomaly names its sensor and has severity above the threshold |
| Aggregation.AnomaliesDescribe | gateway/src/aggregation.rs:269-276 | anomaly by anomaly, in order, the report names the sensor, value and mean of one flagged reading, and its severity is the distance in deviations |
| Aggregation.EqualReadingsQuiet | gateway/src/aggregation.rs:251-278 | a batch whose values are all equal gives no anomaly |
| Aggregation.MaxInternal | gateway/src/aggregation.rs:320-325 | the deepest sensor queue among the readings, attained by one of them |
| Aggregation.MakeFrame | gateway/src/aggregation.rs:307-348 | the frame has the claim's id and window, ends one window after its start, and reports each sensor's statistics and depth and exactly the anomalies those statistics flag, in whatever order sensors are visited |
| Aggregation.ReportBatch | gateway/src/aggregation.rs:319-336 | one sensor's share of a frame |
| Aggregation.CountsAddUp | gateway/src/aggregation.rs:319-336 | the counts in a frame add up to the readings of its window |
| Aggregation.BatchAnomalyBound | gateway/src/aggregation.rs:251-278 | the size and number bounds for one sensor's batch as the engine computes it |
| Aggregation.FrameAnomalyBound | gateway/src/aggregation.rs:307-348 | over a whole frame, anomalies times the squared threshold never exceed the readings counted |
| Aggregation.QuietFrames | gateway/src/aggregation.rs:307-348 | at threshold 3 a frame with at most ten readings per sensor has no anomaly |
| Aggregation.AggregationEngine.constructor | gateway/src/aggregation.rs:42-76 | a window of at least one millisecond, nothing pending, ids from zero |
| Aggregation.AggregationEngine.Collect | gateway/src/aggregation.rs:110-122 | appends the reading to the batch of its sensor in the aligned window that contains it, and leaves every other batch as it was |
| Aggregation.AggregationEngine.ClaimReady | gateway/src/aggregation.rs:72-147 | terminates and takes a pending window exactly when its end is at least 50 ms and half a window in the past, oldest first, with consecutive ids, and moves their readings out of the map |
| Aggregation.AggregationEngine.Emit | gateway/src/aggregation.rs:149-159 | stores one frame for each claim, in order |
| Aggregation.AggregationEngine.Flush | gateway/src/aggregation.rs:88-106 | empties the map and stores a numbered frame for every window, oldest first |
| Windows.InsertAddsOne | gateway/src/aggregation.rs:115-121 | filing adds exactly that reading to the pending readings |
| Windows.InsertAppends | gateway/src/aggregation.rs:115-121 | the reading goes to the end of its batch and no other batch changes |
| Windows.InsertKeepsPlacement | gateway/src/aggregation.rs:110-122 | readings stay inside the windows that hold them, under their sensor, with no empty batch |
| Windows.RemoveTakes | gateway/src/aggregation.rs:137 | removing a window takes its readings and no others |
| Windows.WindowStartBounds | gateway/src/aggregation.rs:111-112 | the window start is a multiple of the window length, and the window contains the timestamp |
| Windows.WindowsDisjoint | gateway/src/aggregation.rs:111-112 | two aligned windows that cover one instant are the same window |
| Windows.AscendingLists | gateway/src/aggregation.rs:89-93 | the flush lists every window once with its readings, starts ascending |
| Windows.AscendingReadings | gateway/src/aggregation.rs:89-93 | the flush list holds exactly the pending readings |
| Windows.StoppingIsComplete | gateway/src/aggregation.rs:129-145 | stopping at the first window not ready leaves no ready window behind |
| Windows.ReadyMeans | gateway/src/aggregation.rs:72-136 | a window is old enough exactly when its end is at least 50 ms and half a window in the past |
| Workers.StepConserves | gateway/src/aggregation.rs:86-160 | every step of any worker or producer keeps pushed = queued + in hand + pending + written, as multisets of readings |
| WorkerShutdown.PipelineConservation | gateway/src/aggregation.rs:109-159 | that equation in every reachable state of any number of workers |
| WorkerShutdown.NothingLost | gateway/src/aggregation.rs:86-160 | once all workers have returned, queue and map are empty and the written frames hold exactly the pushed readings, even if one flushed while another held a reading |
| WorkerShutdown.NeverStuck | gateway/src/aggregation.rs:86-160 | until all workers have returned, some worker can take a step |
| WorkerShutdown.ShutdownTerminates | gateway/src/aggregation.rs:175-180 | after the flag is raised every run is shorter than a bound computed from the state |
| WorkerShutdown.ShutdownCompletes | gateway/src/main.rs:324-329 | every maximal run after the stop order ends with all workers returned and everything pushed written |
| WorkerFrames.WindowPlacement | gateway/src/aggregation.rs:110-122 | in every reachable state every pending or written reading lies in its window, starts are multiples of the length, pending windows are disjoint, no batch is empty |
| WorkerFrames.FrameIdsUnique | gateway/src/aggregation.rs:88-141 | in every reachable state each id below the counter is held or written exactly once, and no other id is |
| WorkerFrames.FrameIdsComplete | gateway/src/aggregation.rs:94-105 | when all workers have returned the written ids are exactly `0..n-1` |
| WorkerFrames.BatchesAscend | gateway/src/aggregation.rs:124-147 | each batch a worker claims has ids rising with window start, whatever the others do |
| WorkerFrames.IdOrderIsWindowOrder | gateway/src/aggregation.rs:138-141 | before the final flush and without late readings, id order is window order across all workers |
| WorkerFrames.ClaimOrderExact | gateway/src/aggregation.rs:129-141 | a claim keeps ids in window order exactly when no pending window is at or below one already numbered |
| WorkerOrder.OrderExactlyWithoutLate | gateway/src/aggregation.rs:110-147 | until a worker leaves, ids follow window order and no pending window can spoil it if and only if no reading was late |
| WorkerOrder.ClaimLoopComplete | gateway/src/aggregation.rs:72-147 | in any run, between taking the map and letting it go a worker claims exactly the windows in it whose end is at least 50 ms and half a window before its clock reading, oldest first, with rising ids |
| WorkerTurns.EveryTurnClaims | gateway/src/aggregation.rs:109-147 | no turn of a worker skips the claim: before it comes back to the top it has read the clock and then taken the map to claim with exactly that reading |
| WorkerTurns.WritesInIdOrder | gateway/src/aggregation.rs:86-160 | in every run each worker writes its frames in the order it took their ids, claims and final flush together, and holds what it has taken and not written |
| OrderWitnesses.LateReadingSpoilsOrder | gateway/src/aggregation.rs:110-147 | from every start, any two readings of which the second is in the same window or an earlier one can be numbered out of order, with no worker near shutdown |
| OrderWitnesses.TwoFlushesRace | gateway/src/aggregation.rs:88-106 | from every start with two workers or more, any two readings can be numbered by two flushes in either order, with no late reading |
| FlushOrder.FlushIdsRise | gateway/src/aggregation.rs:93-105 | for any number of workers and any interleaving, the ids one worker takes in its final flush rise with window start |
| FlushOrder.FlushTakesAll | gateway/src/aggregation.rs:89-106 | a worker that drains the map numbers those windows and no others, oldest first; by its return all are numbered and written |
| FlushOrder.OneWorkerKeepsOrder | gateway/src/aggregation.rs:86-160 | with one worker and no late reading, id order is window order to the end of the flush |
| FlushOrder.OrderSurvivesFlushExactlyAlone | gateway/src/aggregation.rs:86-160 | with a queue of capacity at least one, every run without a late reading keeps ids in window order through the flush if and only if there is one worker |
| FrameTotals.ProcessedWithinIngest | gateway/src/benchmark/report.rs:243-251 | the counts over all written frames never exceed the readings pushed, in every reachable state |
| FrameTotals.ProcessedEqualsIngest | gateway/src/benchmark/report.rs:243-251 | after shutdown the counts over all written frames equal the readings pushed |
| FrameTotals.StoredAnomaliesBounded | gateway/src/aggregation.rs:251-278 | every frame written in any run obeys the anomaly bound |
| FrameTotals.FramesCoverReadings | gateway/src/aggregation.rs:149-159 | in every run a written frame's interval is aligned, one window long, and covers every reading it reports, under its sensor |
| SharedBuffer.Queue.PushSection | gateway/src/sensor_buffer.rs:133-139 | appends and counts a push exactly when there is room; otherwise changes nothing but counts a wait |
| SharedBuffer.Queue.PopSection | gateway/src/sensor_buffer.rs:152-167 | takes the oldest reading and counts a pop, or reports empty exactly when empty; pushed = popped + queued throughout |
| SharedBuffer.RateMeter.UtilizationStats | gateway/src/sensor_buffer.rs:409-428 | under a second since the last published sample both rates are zero and nothing changes; otherwise they are the events per second since then, rounded down, and this sample becomes the last |
| SharedBuffer.RatesTelescope | gateway/src/sensor_buffer.rs:409-428 | over any run of samples, rate times interval sums to at most 1000 times the events and misses it by at most the elapsed time, for pushes and pops |
| SharedBuffer.SampleAll | gateway/src/sensor_buffer.rs:409-428 | a meter sampled any number of times publishes what those bounds are about |
| Wakeups.WakeupsNeverLost | gateway/src/sensor_buffer.rs:123-181 | in every reachable state with a sleeping producer the free slots do not exceed the producers on their way, likewise for consumers and queued readings; the queue is bounded and first-in first-out |
| Wakeups.StepKeepsWakeups | gateway/src/sensor_buffer.rs:123-181 | every critical section, wakeup, time-out and spurious wakeup keeps that |
| Wakeups.SectionsAgree | gateway/src/sensor_buffer.rs:123-167 | the critical sections of the state machine do to the queue and its counters what those of the queue object do |
| Wakeups.PopWaitsOrReturns | gateway/src/sensor_buffer.rs:152-166 | on an empty queue a fresh pop waits, and a woken one returns nothing if and only if its time is up and otherwise waits on; on any other queue it takes the oldest reading |
| Wakeups.PopReturnsRightly | gateway/src/sensor_buffer.rs:152-166 | in every run a consumer that comes back either took the oldest reading, or found the queue empty after its timer had gone off in that very call |
| Wakeups.PushesDeliver | gateway/src/sensor_buffer.rs:123-140 | in every run the readings of all pushes begun are those pushed and those waiting producers still hold, each once |
| PoolQueue.PushIsPushed | gateway/src/sensor_buffer.rs:133-139 | a push of the worker pool is possible exactly when the buffer takes the reading before the readers are joined, and does to the buffer what its push does |
| PoolQueue.PopIsPopped | gateway/src/sensor_buffer.rs:152-167 | a pop of the worker pool does to the buffer what its pop does and hands over the oldest reading |
| PoolQueue.OthersLeaveQueue | gateway/src/aggregation.rs:86-160 | no other step of a worker touches the queue |
| Wakeups.BlockedProducerNotStuck | gateway/src/sensor_buffer.rs:133-166 | with room for one reading and one live worker, whenever a producer is inside `push` some thread that is awake moves a reading in its next critical section |
| Wakeups.ReadersCanBeJoined | gateway/src/sensor_buffer.rs:524-531 | once no new push starts, at most twice the producers inside plus the queue length readings still move; while a producer is inside some awake thread moves one next, and when the bound is used up every producer is out |
| Wakeups.WakeAllNeedsRoom | gateway/src/sensor_buffer.rs:133-181 | a producer woken by `wake_all`, whatever other threads do before it gets the mutex, leaves `push` if and only if there is a free slot by then, and otherwise sleeps again |
| Wakeups.WakeAllWakesAll | gateway/src/sensor_buffer.rs:178-181 | after `wake_all` nobody is asleep on either condition variable |
| FrameOrder.SortSorts | dashboard/src/lib.rs:383-387 | the sort by recency is a permutation in order |
| FrameOrder.SortStable | dashboard/src/lib.rs:83-87 | frames with equal keys keep their order in the sort |
| FrameOrder.SortedKeysUnique | dashboard/src/lib.rs:383-387 | the order of the keys after a sort is determined by the input alone |
| FrameCache.SortedUpsert | dashboard/src/lib.rs:81-88 | before trimming, the upsert holds the new frame and every old one under another key, strictly ascending |
| FrameCache.TrimKeepsNewest | dashboard/src/lib.rs:89-92 | draining the front keeps the newest entries |
| FrameCache.FirstMerge | dashboard/src/lib.rs:81-93 | a merge into any key-unique vector, sorted or not, leaves the newest of its entries and the new frame |
| FrameCache.NextMerge | dashboard/src/lib.rs:81-93 | a merge into the newest entries of a store gives the newest entries of the updated store |
| FrameCache.IncrementalIsBatch | dashboard/src/lib.rs:81-93 | any non-empty run of merges gives exactly the newest 65536 of the whole history, latest value per key, strictly ascending: trimming early changes nothing |
| FrameCache.NewestUnique | dashboard/src/lib.rs:81-93 | there is only one such vector |
| LatestFrames.NewestFramesBounded | dashboard/src/lib.rs:398-427 | for every list: ten frames of the input, or all if fewer, newest first, and no frame left out is newer than one in it; the keys are those of a full descending sort cut to ten, and the frames too when keys are distinct |
| LatestFrames.FillHeap | dashboard/src/lib.rs:407-420 | after one pass the heap holds ten positions, and nothing passed over is newer than anything kept |
| LatestFrames.HeapKeysAreTopTen | dashboard/src/lib.rs:1154-1158 | sorting what the heap kept gives the keys of the reference answer |
| LatestFrames.NaiveIsNewestTen | dashboard/src/lib.rs:1154-1158 | sort-and-take answers with the newest ten, newest first, for every list |
| CacheCoverage.MergeKeepsCovered | dashboard/src/lib.rs:81-93 | a frame held, or crowded out by a full cache of newer ones, is still so after a merge under another key |
| CacheCoverage.MergedAllCovers | dashboard/src/lib.rs:476-478 | draining pushes into a load result covers everything in both, unless replaced by a later version |
| CacheCoverage.MergedAllEntries | dashboard/src/lib.rs:476-478 | draining pushes into a load result brings in nothing but the two, a push replacing what the load had under its key, and keys stay distinct |
| CacheCoverage.LatestShowsCovered | dashboard/src/lib.rs:398-427 | a covered frame is in the latest answer, or ten newer ones are |
| RefreshProtocol.MergeFrameIntoVec | dashboard/src/lib.rs:81-93 | the new frame and the old ones with another end or id, strictly oldest first, at most 65536; any left out is older than all 65536 kept |
| RefreshProtocol.FramesCache.RecordAggregatedFrame | dashboard/src/lib.rs:104-121 | merged at once and the time stamped, or appended to the pushes while refreshing and nothing else touched |
| RefreshProtocol.FramesCache.Decide | dashboard/src/lib.rs:500-522 | a load starts exactly when none is running and the stamp is more than 5000 ms old, in the foreground exactly when there is nothing to show; a request waits exactly when stale, empty and refreshing; all others get the cached frames |
| RefreshProtocol.FramesCache.DecideLatest | dashboard/src/lib.rs:578-610 | the same decision, answering with the newest ten, newest first |
| RefreshProtocol.FramesCache.ApplyDiskRefresh | dashboard/src/lib.rs:472-483 | the cache becomes the load result with the pushes merged in order: the newest of both, or the load result as it is when there were none |
| RefreshProtocol.FramesCache.ApplyAndShowLatest | dashboard/src/lib.rs:632-643 | a request that waited for its own load applies it and shows the newest ten of the result |
| RefreshRuns.StepKeepsInv | dashboard/src/lib.rs:472-569 | every write, record, request, read and apply keeps the protocol invariant |
| RefreshRuns.OneLoadAtMost | dashboard/src/lib.rs:500-522 | in every reachable state one load is in flight if the flag is set, none otherwise, and pushes are set aside only then |
| RefreshRuns.FreshAfterRecord | dashboard/src/lib.rs:112-116 | after a frame is merged at a time, a request starts a load if and only if more than 5000 ms have passed since |
| RefreshRuns.FreshAfterApply | dashboard/src/lib.rs:479-482 | the same after a load is applied |
| RefreshRuns.LoadStartsExactly | dashboard/src/lib.rs:500-522 | in any run only requests start loads, and one does if and only if none is in flight and more than 5000 ms have passed since the last merge or applied load |
| RefreshRuns.CacheIsOnDisk | gateway/src/storage.rs:63-65 | in every reachable state every cached or set-aside frame is the version on disk, or an earlier run's version whose rewrite is not merged yet |
| RefreshRuns.RecordedIsAccounted | dashboard/src/lib.rs:104-121 | in every reachable state every recorded frame is cached, set aside, or crowded out by 65536 newer cached ones |
| RefreshRuns.LatestShowsRecorded | dashboard/src/lib.rs:576-645 | in every reachable state, load in flight or not, the latest answer holds every recorded frame that is not set aside, or ten newer ones: a frame set aside during a load is the only recorded frame it may miss |
| RefreshRuns.SetAsideIsMissed | dashboard/src/lib.rs:104-121 | and it may: from every start, any two frames give a run in which the newer one, set aside, is missing from the answer |
| RefreshRuns.OldVersionLingers | gateway/src/storage.rs:43-65 | for every rewrite of an earlier run's file some run that writes nothing else leaves the old version in the cache |
| RefreshRuns.MatchesDiskExactly | gateway/src/storage.rs:43-65 | whatever a process is going to write: everything cached or set aside is the version on disk in every state of every such run if and only if no frame it writes replaces a file found at the start with a different frame |
| FrameKeys.WrittenKeysDiffer | gateway/src/storage.rs:43 | in every reachable state of the worker pool, the frames written have pairwise different keys |
| FrameKeys.PoolWritesAreEnabled | gateway/src/storage.rs:43-65 | the refresh protocol's condition on writes never holds back a frame of the pool |

## Left out

- `os_lib/src/queue_noncopy.rs`: a near copy of the ring that the library does not compile.
- Raw allocation, pointers, `MaybeUninit` and weak memory: an array and sequentially consistent steps stand for them. A slot half written is modelled as a torn cell.
- Values read from the ring when an overwrite overlaps a read: only index and length bounds hold there. The exact condition is proved instead.
- `f32` and `f64` rounding, NaN and infinities: statistics are over exact reals within the `f32` range, and the square root is a function with its defining property.
- Integer width of timestamps, counters and ids: unbounded numbers.
- Failed or cancelled disk loads, unreadable lines, JSON and file I/O: the disk is a map from key to frame, a load returns every file present at its start and perhaps later ones, and frames survive the round trip unchanged.
- A key written twice in one run: frame numbering excludes it, as `FrameKeys.WrittenKeysDiffer` proves, so the refresh protocol assumes it.
- The text of an anomaly's description and its constant type: they repeat the value and the mean, which the model keeps.
- `BinaryHeap` and `sort_by` of the standard library: a set of positions with a least element, and an insertion sort.
- `Vec::retain`, `BTreeMap` and `HashMap` of the standard library: functions on sequences and maps, with hash iteration in any order.
- SharedBuffer.Queue.PushSection: models one pass through the mutex rather than the whole blocking call, because another thread runs between two passes; the wait loop around it is `Wakeups`.
- SharedBuffer.Queue.PopSection: models one pass through the mutex, for the same reason.
- RefreshProtocol.FramesCache.Decide: models one pass of the loaders' loop; a request that waits asks again later, as another `Ask` step in `RefreshRuns`.
- RefreshProtocol.FramesCache.DecideLatest: models one pass, likewise; the answer after a load of its own is `ApplyAndShowLatest`.
- RefreshRuns.CacheIsOnDisk: says "on disk, or awaiting a merge" rather than plainly "on disk" for a file rewritten from an earlier run, because the plain form is false there; `RefreshRuns.MatchesDiskExactly` says exactly when it holds.
- Pushes after the reader threads are joined: the stop order of `gateway/src/main.rs:324-329` rules them out, and the worker pool assumes it.
- Panics of the fail-fast mode, mutex poisoning, and joining of threads that panicked.
- `totals()` as a consistent pair: its two counters are loaded separately, and the rate results ask only that each grows.
- `merge_buffer_telemetry_with_frames`, per-sensor buffer status and utilization ratio: one comparison per sensor.
- HTTP routing, templates, browser code, shutdown notices, rate parsing, sensor threads, the benchmark harness beyond its one conservation law.
