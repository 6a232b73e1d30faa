# Verified models of statsd's stateful algorithms

Dafny models of the small stateful algorithms inside Android's statsd daemon and its client
library, with proofs of what each is for. The groups below do not depend on each other; `Arith`,
`Options` and `ConditionStates` hold what several modules share. `dafny verify dfyconfig.toml` checks
them all.

**KLL quantile sketch** (`KllCapacity`, `KllLedger`, `KllTrace`, `KllStack`, `KllError`,
`KllHeight`, `KllQuantile`). A stack of compactors in which an item of level h stands for 2^h values, and a
reservoir sampler that replaces the lowest levels. The coin and the sampler's choice are arbitrary
numbers in range, so every result holds for every outcome. Level capacities are exact rationals,
ceil(k 2^j / 3^j), with 2 or less read as 0. k is at least 3: `RecursionEndsIff` shows that for a
smaller k another call of `AddLevel` follows after every number of them.

A ghost trace records what the code does, one action at a time: a level halved, added or given to
the sampler, an item placed on a level or absorbed by the sampler, a sample handed over, a weight
dropped. The invariant ties the fields to the replay of the trace, so the trace cannot say anything
that did not happen to them. The invariant also says that every compaction was called for when it was
made: a level is halved only when it is full in a crowded stack or handed to the sampler, and one is
added only over a full topmost level or for an item. Each operation's contract says which actions it
takes; that of `Add` gives the state after it exactly, up to the coins. `KllTrace` proves about any trace that the
rank in the levels is the true rank of what was taken in, up to the drift of each halving, hand-over
and drop; `KllError` follows the items up the levels to a bound that needs no trace at all, only the
number of values and the height of the stack; `KllHeight` bounds the height of a sketch of single
values by the logarithm of their number. The stack's fatal "infinite loop" branch is shown to
be dead.

**Pull scheduler** (`PullSchedule`, `PullManager`, `PullProtocol`). The receiver registry, the
synchronous alarm path, and the parallel path as a state machine of up to three worker threads and
the main loop, whose steps are the sections under a lock, the pulls and the notifications.

**Condition engine** (`ConditionGraph`, `ConditionConfig`, `SimpleCondition`, `ConditionTimer`). The
cycle check over predicate graphs, the selection and initialisation of a config's predicates, and the
memoised evaluation; the simple predicate that forgets false keys, against
a fold over the whole event history; the condition stopwatch, against the true time of a history.

**Field matchers** (`FieldMatcher`). Compilation of a selector tree to (field, mask) words of 32
bits, against the tree read structurally.

**Anomaly tracking** (`IndexedHeap`, `AlarmMonitor`, `AnomalyTracker`). The indexed heap with
interior removal, the alarm monitor on top of it with 32-bit sums that wrap, and the ring of
buckets with its cached sums, against an unbounded history.

**Row merging** (`RowOrder`, `PullerMerge`). Mapping of isolated uids, sorting and adjacent merging of
pulled rows, against GROUP BY with SUM.

**Client side** (`StatsEventCodec`, `StatsEvent`, `WriterQueue`). The event writer with its growing
buffer and sticky errors, against a decoder of the layout; the retrying writer queue as a state
machine of producers, one worker and the terminating thread.

**Varints** (`Varint`, `VarintEncoder`). The unrolled encoder and the length formula, against the
definition in the "Base 128 Varints" section of the Protocol Buffers encoding guide.

Where the code and its comments differ, the model follows the code:

- The cached sums "never contain entries of 0" (statsd/src/anomaly/AnomalyTracker.h:173), but adding
  a zero value leaves such an entry; nothing depends on it.
- The registered alarm may lie further than the minimum difference from the soonest alarm, because
  the 32-bit sum in `add` can wrap; `AddKeepsDrift` gives the exact condition.
- A position ALL below the first repeated level matches only position 0, and a field number 0 on the
  second level matches everything; `LeafExact` gives the exact condition.
- A predicate id that a config lists twice is dropped, but the check of its parents still finds the
  first copy, so a parent is kept whose child has no tracker and initialisation looks it up in vain;
  `KeptIsValidIff` gives the exact condition, `RepeatedChildIsDropped` the smallest config.
- `AddWithWeight` of the compactor stack reads the sampler's capacity again after the sampler may
  have doubled it, and the weight between the two remainders is dropped. The contract gives the amount
  in terms of the state before the call, the coins having no say in it; `CanLoseIff` says in which
  states some weight is lost.
- A negative bucket value can make a cached sum wrong, since a key whose sum reached zero is erased
  and nothing is then subtracted from it. Each operation's contract gives the exact condition under
  which right sums stay right; `NegativeValuesLoseTrack` and `OverwritingLosesTrack` show them lost.
- The writer accepts an attribution chain of no nodes; the decoder here reads it back, while the
  daemon's parser marks such an event invalid.

## Model

| member | source | states |
|---|---|---|
| `KllCapacity.TopCapacity` | lib/libkll/compactor_stack.cpp:179-187 | the raw capacity of the topmost level is k |
| `KllCapacity.CapacityIs` | lib/libkll/compactor_stack.cpp:179-187 | the raw capacity at distance j from the top is the least integer not below k times (2/3)^j, and the capacity is that or, for 2 or less, 0 |
| `KllCapacity.RawCapacityShrinks` | lib/libkll/compactor_stack.cpp:179-187 | capacities do not grow going down a level |
| `KllCapacity.ActivePrefix` | lib/libkll/compactor_stack.cpp:179-187 | if a level is active then so is every level above it, and an active capacity is at least 3 |
| `KllCapacity.CapacityBound` | lib/libkll/compactor_stack.cpp:106-118 | the capacities of m active levels add up to less than 3k + m |
| `KllCapacity.SmallKHasNoActiveLevel` | lib/libkll/compactor_stack.cpp:179-187 | some level is active if and only if k is at least 3, and then the topmost is |
| `KllCapacity.RecursionEndsIff` | lib/libkll/compactor_stack.cpp:106-118 | with k of 3 or more AddLevel never calls itself through DoubleSamplerCapacity and CompactLevel; with a smaller k, on an empty stack, it does so after every number of calls |
| `KllLedger.KeepCount` | lib/libkll/compactor_stack.cpp:157-177 | of the sorted items up to any bound, the even or odd half is kept, rounded by the coin |
| `KllLedger.HalvedEffect` | lib/libkll/compactor_stack.cpp:149-177 | a halving removes exactly half the items of its level, rounded by the coin, stores no new value, and changes the rank of every bound by exactly the drift of its entry |
| `KllLedger.CompactDrift` | lib/libkll/compactor_stack.cpp:149-177 | one halving at level h changes the weighted rank of any value by exactly 0 if an even number of its items is counted, and otherwise by 2^h up or down as the coin fell |
| `KllLedger.DriftBounded` | lib/libkll/compactor_stack.cpp:149-177 | no entry shifts a rank by more than its own bound: 2^h for a level that was not empty, the sample's weight, or the dropped weight |
| `KllLedger.TotalDriftBounded` | lib/libkll/compactor_stack.cpp:149-177 | a whole log shifts a rank by at most the sum of its entries' bounds |
| `KllTrace.Ledger` | lib/libkll/compactor_stack.cpp:59-177 | on every trace and at every bound, the rank in the levels, less the drift of its halvings, hand-overs and drops, with what the sampler holds, is the true rank of what was taken in |
| `KllTrace.Booked` | lib/libkll/sampler.cpp:35-75 | on every trace the sampler's weight is that of what it absorbed since its last restart |
| `KllTrace.Provenance` | lib/libkll/compactor_stack.cpp:59-177 | on every trace each stored or sampled value is one that was taken in |
| `KllStack.FullLevel` | lib/libkll/compactor_stack.cpp:122-131 | if the items reach the overall capacity, some active level is full (pigeonhole), and there is a first such level |
| `KllStack.HalvingsWarranted` | lib/libkll/compactor_stack.cpp:106-198 | on every trace of a stack, each compaction was called for by the state it was made in: a halving of a full level of a crowded stack, of the topmost level for which one was just added, or of the level just handed to the sampler; a new level over a full topmost one of a crowded stack, or for an item; a doubling when the new level left the lowest active one without capacity |
| `KllStack.SettledMeans` | lib/libkll/compactor_stack.cpp:120-147 | a settled stack is unchanged below its capacity, and otherwise gained a level if and only if its first full level is the topmost |
| `KllStack.EverySecond` | lib/libkll/compactor_stack.cpp:168-176 | the alternating loop keeps the even or the odd positions |
| `KllStack.CompactorStack.constructor` | lib/libkll/compactor_stack.cpp:35-45 | an empty stack of one level of capacity k, satisfying the invariant |
| `KllStack.CompactorStack.Reset` | lib/libkll/compactor_stack.cpp:52-57 | back to the initial state |
| `KllStack.CompactorStack.AddLevel` | lib/libkll/compactor_stack.cpp:106-118 | exactly one more level, with the capacity the levels give it; if the lowest active one has none left, and only then, the sampler takes that level and it is halved into the next; nothing else changes |
| `KllStack.CompactorStack.DoubleSamplerCapacity` | lib/libkll/compactor_stack.cpp:189-198 | the sampler's capacity doubles, or is 2 at first, and stays 2 to the number of replaced levels; the replaced level is halved upwards, and nothing else changes |
| `KllStack.CompactorStack.CompactLevel` | lib/libkll/compactor_stack.cpp:149-155 | the level is halved into the next, a topmost level into one added for it, and nothing else happens; at least half its items (rounded down) are gone, and the mutual recursion ends |
| `KllStack.CompactorStack.Halve` | lib/libkll/compactor_stack.cpp:160-177 | the new levels and item count are those of a halving by the coin, and that is what the trace says |
| `KllStack.CompactorStack.CompactPass` | lib/libkll/compactor_stack.cpp:123-131 | a pass over the levels of a crowded stack strictly reduces the number of items, and stops short of the top only below the capacity; when that was just reached it compacts the first full level and nothing else |
| `KllStack.CompactorStack.CompactStack` | lib/libkll/compactor_stack.cpp:120-147 | always ends, with fewer items than the overall capacity; the abort for a pass that removed nothing is unreachable; nothing happens below the capacity; when it was just reached, exactly the first full level is compacted |
| `KllStack.CompactorStack.Add` | lib/libkll/compactor_stack.cpp:59-67 | takes in exactly the value, once, and drops nothing. Sampler off: the value goes on level 0 and nothing else happens below the capacity; when that is reached exactly the first full level is compacted, and a level is added if and only if it is the topmost. Sampler on: it takes in the value and nothing else changes, until it is full and hands its sample on in the same way |
| `KllStack.CompactorStack.AddWithWeight` | lib/libkll/compactor_stack.cpp:71-93 | takes in the value with the whole weight and drops exactly Loss of it, in one piece: the sampler's capacity if the remainder fills the sampler, the flushed item makes the topmost level and no other be compacted, and the capacity goes an odd number of times into the weight, and otherwise nothing; all of this is known before the call and independent of the coins; the rest is placed one item per bit of the quotient; a weight that is not positive does nothing |
| `KllStack.CanLoseIff` | lib/libkll/compactor_stack.cpp:71-93 | in a state some weight loses something if and only if the sampler holds something and one item more makes the topmost level, and no other, be compacted |
| `KllStack.CompactorStack.AddBits` | lib/libkll/compactor_stack.cpp:80-90 | besides compactions, exactly one item is placed for every set bit, on the level of the bit, and a level added exactly for each bit that has none |
| `KllStack.CompactorStack.AddBit` | lib/libkll/compactor_stack.cpp:81-89 | one step of that loop: a level if it is missing, and exactly one item on it if the bit is set |
| `KllStack.CompactorStack.SamplerAdd` | lib/libkll/sampler.cpp:35-43 | the sampler takes in exactly one more value, and when full hands its sample on |
| `KllStack.CompactorStack.SamplerAddWithWeight` | lib/libkll/sampler.cpp:45-64 | the sampler takes in the whole weight over as many flushes as it takes, drops nothing, and stays below its capacity, which for a weight below it doubles once if the sampler is flushed and the flushed item makes the topmost level be compacted, and stays the same otherwise |
| `KllStack.CompactorStack.AddSampleToCompactorStackAndRestart` | lib/libkll/sampler.cpp:71-75 | exactly the sample, with the sampler's whole weight, is placed on the lowest active level, the stack settles, and the sampler restarts empty; nothing is taken in or dropped; whether the capacity doubled is decided by the state before |
| `KllStack.DoubledRemainder` | lib/libkll/compactor_stack.cpp:76-78 | when the capacity doubles between the two reads, one old capacity's worth of weight is dropped if and only if the quotient by it is odd |
| `KllStack.SplitWeight` | lib/libkll/compactor_stack.cpp:76-78 | however often the capacity doubles, the remainder only grows, so weight can only be dropped, never invented |
| `KllError.Flow` | lib/libkll/compactor_stack.cpp:149-177 | on every trace, what ever came to a level is what halvings took off it and what it holds |
| `KllError.FullFlow` | lib/libkll/compactor_stack.cpp:123-131 | full halvings took at least the level's capacity each, and moved up at most half of that and half an item each |
| `KllError.ArrivalBound` | lib/libkll/compactor_stack.cpp:120-177 | the weight that ever came to level h is at most the weight placed up to it times the product of 1 + 1/capacity over the levels below |
| `KllError.ErrorSamplerOff` | lib/libkll/compactor_stack.cpp:120-177 | with the sampler off, the sum of 2^level over all halvings is at most the number of values times that product up to the top, less one |
| `KllHeight.TopLoad` | lib/libkll/compactor_stack.cpp:106-198 | with an item of level h counting (3/2)^h, adding a level over a full one and halving that does not increase the sum, although the level handed to the sampler may hold a single item |
| `KllHeight.AddedLoad` | lib/libkll/compactor_stack.cpp:59-67 | an added value increases the sum, with what the sampler holds, by at most one, and a level is added only when it has reached what k items on the topmost level count |
| `KllQuantileModel.RankError` | lib/libkll/kll.cpp:48-62 | on every trace the rank of any value in the sketch differs from the true rank by at most 2^level for each halving of a level that was not empty, the weight of each sample handed over, each drop, and the weight in the sampler |
| `KllQuantileModel.WeightLedger` | lib/libkll/compactor_stack.cpp:59-93 | on every trace the weight in the levels and the sampler is the weight taken in, off by exactly 2^h up or down for each odd-sized halving at level h, less the dropped weights |
| `KllQuantileModel.LogOfTrace` | lib/libkll/sampler.cpp:71-75 | every sample handed over had exactly the weight it stood for, and the log holds exactly the drops |
| `KllQuantileModel.KllQuantile.constructor` | lib/libkll/kll.cpp:36-46 | an empty history |
| `KllQuantileModel.KllQuantile.Add` | lib/libkll/kll.cpp:48-53 | the history gains the value, which is what the stack took in, and the stack is as its own Add leaves it; min and max are the extremes of the history and num_values its length |
| `KllQuantileModel.KllQuantile.AddWeighted` | lib/libkll/kll.cpp:55-62 | the same with a weight, of which exactly the Loss of the state before is lost; nothing happens for a weight that is not positive |
| `KllQuantileModel.KllQuantile.Record` | lib/libkll/kll.cpp:117-127 | min, max and the count stay those of the history |
| `KllQuantileModel.KllQuantile.Reset` | lib/libkll/kll.cpp:129-132 | the history is empty and the stack in its initial state |
| `KllQuantileModel.KllQuantile.RankErrorNow` | lib/libkll/kll.cpp:48-62 | the rank error of the sketch as it stands after any calls, against the history of what was added |
| `KllQuantileModel.KllQuantile.RankErrorSamplerOff` | lib/libkll/compactor_stack.cpp:120-177 | with the sampler off, the rank of any value is off by at most num_values times the product of 1 + 1/capacity over the levels below the top, less one |
| `KllQuantileModel.KllQuantile.HeightBound` | lib/libkll/compactor_stack.cpp:59-67 | a sketch of n single values with h > 1 levels has k times 3^(h-2) at most n times 2^(h-2), sampler or not |
| `KllQuantileModel.KllQuantile.WeightLedgerNow` | lib/libkll/compactor_stack.cpp:59-93 | the weight in the sketch is num_values, off by 2^h per odd-sized compaction at level h and the dropped weights |
| `KllQuantileModel.KllQuantile.SketchBounds` | lib/libkll/compactor_stack.cpp:106-198 | every stored or sampled item is a value that was added and lies between min and max; fewer than 3k plus the number of active levels are stored |
| `KllQuantileModel.LosesWeight` | lib/libkll/compactor_stack.cpp:76-78 | whenever one item more makes the topmost level, and no other, be compacted and the sampler is one short of its capacity c, adding a value c + 1 times as one weight loses exactly c, whatever the coins |
| `KllQuantileModel.LosingStateIsReached` | lib/libkll/compactor_stack.cpp:59-93 | with k = 3, four values were taken in by the trace in which the first halving keeps the even items and the second, of the emptied level, has any coin; it replays to a state that satisfies the invariant and the condition of LosesWeight |
| `PullSchedule.BumpLands` | statsd/src/external/StatsPullerManager.cpp:332-337 | a due receiver moves into (now, now + interval] in its old phase with its interval and receiver unchanged, and the number of skipped buckets fits in a 32-bit int for any 64-bit times |
| `PullSchedule.ScheduledIff` | statsd/src/external/StatsPullerManager.cpp:332-337 | the table after an alarm is the one in which every receiver keeps its interval and itself, those not due keep their time, and the others have the first time of their phase after now; that determines it |
| `PullSchedule.RoundInterval` | statsd/src/external/StatsPullerManager.cpp:179-186 | whole minutes: the asked interval rounded down, one minute if it is less |
| `PullSchedule.DeliverEach` | statsd/src/external/StatsPullerManager.cpp:325-341 | serving a list of distinct receivers moves each once, leaves the others, and keeps the running minimum exact |
| `PullSchedule.DeliverBatches` | statsd/src/external/StatsPullerManager.cpp:314-350 | serving two batches is serving their concatenation |
| `PullSchedule.MinUnique` | statsd/src/external/StatsPullerManager.cpp:337-337 | the next alarm is determined by the table of receivers |
| `PullManager.StatsPullerManager.RegisterReceiver` | statsd/src/external/StatsPullerManager.cpp:165-199 | a receiver is added once per key with its rounded interval, at the end of the key's list, a new last list if there was none, and all other lists are as they were; nothing changes if it was there; the alarm is never later than any receiver |
| `PullManager.StatsPullerManager.constructor` | statsd/src/external/StatsPullerManager.cpp:67-73 | no receivers, one list per key and one record of a receiver in it, as every operation keeps it |
| `PullManager.StatsPullerManager.RegisterUndone` | statsd/src/external/StatsPullerManager.cpp:165-217 | unregistering right after registering leaves the records as they were, and at most an empty list more |
| `PullManager.StatsPullerManager.UnRegisterReceiver` | statsd/src/external/StatsPullerManager.cpp:201-217 | removes exactly the receiver's record under its key if there is one, changes nothing otherwise, and the receiver is not registered after it |
| `PullManager.StatsPullerManager.CollectDue` | statsd/src/external/StatsPullerManager.cpp:364-394 | due receivers that want no data are told so once and moved on; exactly the others that are due are collected under their keys; the minimum of the rest is exact |
| `PullManager.StatsPullerManager.DeliverTo` | statsd/src/external/StatsPullerManager.cpp:417-429 | serves one pull's receivers in order |
| `PullManager.StatsPullerManager.OnAlarmFiredSynchronous` | statsd/src/external/StatsPullerManager.cpp:364-431 | each due receiver gets exactly one call, with the outcome of its own key's pull if it wanted data; every receiver that was due has its first time of its phase after now, all else in the table is unchanged; the minimum is exact |
| `PullManager.StatsPullerManager.OnAlarmFired` | statsd/src/external/StatsPullerManager.cpp:280-362 | the same, and the next alarm is the exact minimum (parallel pulls off) |
| `PullManager.StatsPullerManager.InitPullerQueue` | statsd/src/external/StatsPullerManager.cpp:453-507 | due receivers that want no data are told so once; every other due receiver is in exactly one job of its key, queued if the key has a puller and failed if not |
| `PullManager.PassesSchedule` | statsd/src/external/StatsPullerManager.cpp:280-362 | first pass plus deliveries in any grouping give the same table and minimum |
| `PullProtocol.NextKeepsInv` | statsd/src/external/StatsPullerManager.cpp:234-354 | every step of a worker or the main loop, and every spurious wake-up, keeps: no job lost or served twice, pendingThreads exact, no lost wake-up, the table that of the deliveries so far |
| `PullProtocol.WorkerMoves` | statsd/src/external/StatsPullerManager.cpp:234-277 | what a worker may do next in each place it can be, the pull succeeding or failing |
| `PullProtocol.MainMoves` | statsd/src/external/StatsPullerManager.cpp:314-354 | what the main loop may do next: deliver the first result, wait, exit, or wake up for no reason |
| `PullProtocol.ExitMeansDone` | statsd/src/external/StatsPullerManager.cpp:347-349 | when the main loop exits, no worker has anything left to pull, both queues are empty and every job was delivered exactly once |
| `PullProtocol.NeverStuck` | statsd/src/external/StatsPullerManager.cpp:314-354 | until everything has finished some step is enabled |
| `PullProtocol.StepDecreases` | statsd/src/external/StatsPullerManager.cpp:239-277 | every step decreases a measure, so the protocol ends |
| `PullProtocol.RunKeepsInv` | statsd/src/external/ThreadSafeQueue.h:28-41 | the invariant holds in every state of every run |
| `PullProtocol.ParallelSchedules` | statsd/src/external/StatsPullerManager.cpp:286-354 | on every interleaving each due receiver that wants data is served exactly once, and table and next alarm are those of the synchronous path whatever the pulls return |
| `PullProtocol.ParallelAlarm` | statsd/src/external/StatsPullerManager.cpp:280-362 | the whole parallel alarm, from the start made by initPullerQueue: each due receiver is called exactly once; jobs without a puller are delivered as failures, each queued job once with the result its worker pushed, and every call says success if and only if its job's result does; when the results pushed are those of the keys' pulls the calls answer as on the synchronous path; the table has every due receiver at its first time after now and the next alarm is its exact minimum |
| `PullProtocol.CallsTell` | statsd/src/external/StatsPullerManager.cpp:325-331 | every call that delivers results reaches a receiver of some job and says success if and only if that job succeeded |
| `ConditionGraph.ChecksIffGood` | statsd/src/condition/CombinationConditionTracker.cpp:99-140 | the recursive check accepts exactly when every reachable child exists and no walk repeats a predicate |
| `ConditionGraph.IsTrackerValid` | statsd/src/condition/CombinationConditionTracker.cpp:99-140 | ends on any graph, is valid if and only if no missing child and no cycle is reachable, restores the stack on success, and otherwise reports a chain of ids that leads to the defect |
| `ConditionGraph.ValidGraphHasRank` | statsd/src/metrics/parsing_utils/metrics_manager_util.cpp:1902-1911 | a graph whose predicates all pass the check has a rank that falls along children, so evaluation ends |
| `ConditionGraph.ChildIsValid` | statsd/src/condition/CombinationConditionTracker.cpp:99-140 | a child of a predicate that passes the check exists and passes it |
| `ConditionGraph.PartIsValid` | statsd/src/metrics/parsing_utils/metrics_manager_util.cpp:1916-1925 | in a part of a graph that has all its children, a predicate that passes the check in the whole passes it in the part |
| `ConditionGraph.EvaluateCombination` | statsd/src/condition/condition_util.cpp:33-86 | the loop with flags and an early exit computes the three-valued AND, OR, NOT, NAND, NOR of its children |
| `ConditionGraph.CombineMeans` | statsd/src/condition/condition_util.cpp:33-86 | for evaluated children: unknown if one is; otherwise AND is true if and only if all are, OR if and only if one is, NAND and NOR are their negations, NOT is true if and only if the first is false |
| `ConditionGraph.IsConditionMet` | statsd/src/condition/CombinationConditionTracker.cpp:177-191 | fills the cache with plain values only, never changes an evaluated entry, and ends |
| `ConditionGraph.EvalUnique` | statsd/src/condition/CombinationConditionTracker.cpp:177-191 | the plain value does not depend on the rank that certifies termination |
| `ConditionConfig.RefusedIffRepeated` | statsd/src/metrics/parsing_utils/metrics_manager_util.cpp:1875-1900 | an id is listed if and only if a copy of it was taken or refused, and a taken id was refused as well if and only if the config lists it twice |
| `ConditionConfig.KeptChild` | statsd/src/metrics/parsing_utils/metrics_manager_util.cpp:1902-1925 | a child of a kept predicate is kept if and only if its id is not repeated |
| `ConditionConfig.KeptIsValidIff` | statsd/src/metrics/parsing_utils/metrics_manager_util.cpp:1875-1925 | the kept predicates of a config form a valid graph if and only if none of them has a repeated id among its children |
| `ConditionConfig.RepeatedChildIsDropped` | statsd/src/metrics/parsing_utils/metrics_manager_util.cpp:1875-1925 | of two copies of a simple predicate and a combination over it, the combination is kept and its child is not |
| `ConditionConfig.ReadPredicates` | statsd/src/metrics/parsing_utils/metrics_manager_util.cpp:1875-1900 | the first loop takes the first usable copy of each id and refuses repeated and unusable ones |
| `ConditionConfig.CheckAll` | statsd/src/metrics/parsing_utils/metrics_manager_util.cpp:1902-1911 | the second loop adds exactly the ids that fail the check, in whatever order the map yields them |
| `ConditionConfig.Select` | statsd/src/metrics/parsing_utils/metrics_manager_util.cpp:1916-1925 | the third loop lists what is left in the order of the config, and the index is the inverse of the list |
| `ConditionConfig.SelectConditions` | statsd/src/metrics/parsing_utils/metrics_manager_util.cpp:1872-1925 | together: exactly the kept predicates are listed, each once, and all is reported valid if and only if nothing was dropped |
| `ConditionConfig.Init` | statsd/src/condition/CombinationConditionTracker.cpp:40-97 | init ends, wires every descendant with the places of its children exactly once, leaves trackers under initialisation alone, and fills the cache with plain values without changing any entry that was evaluated |
| `ConditionConfig.InitConditions` | statsd/src/metrics/parsing_utils/metrics_manager_util.cpp:1864-1938 | for a config in which no kept predicate has a repeated child, the trackers are those of the kept predicates wired by their places, and the first cache is their plain recursive evaluation |
| `ConditionConfig.Query` | statsd/src/condition/ConditionWizard.cpp:25-33 | on such a config the memoised query of any kept predicate ends and equals plain recursive evaluation, even if other predicates are invalid |
| `SimpleCondition.UpdatedRepresents` | statsd/src/condition/SimpleConditionTracker.cpp:192-272 | a start or stop keeps the compressed counts standing for the fold of the whole history, nested or not, though false keys are erased |
| `SimpleCondition.ClearedRepresents` | statsd/src/condition/SimpleConditionTracker.cpp:153-171 | so does forgetting every key on stop_all |
| `SimpleCondition.ReadIsValue` | statsd/src/condition/SimpleConditionTracker.cpp:359-412 | an exact query read off the compressed counts is the folded three-valued state |
| `SimpleCondition.SimpleConditionTracker.constructor` | statsd/src/condition/SimpleConditionTracker.cpp:33-39 | before any event every key has the configured initial value |
| `SimpleCondition.SimpleConditionTracker.HandleStopAll` | statsd/src/condition/SimpleConditionTracker.cpp:153-171 | the history gains a stop_all; exactly the started keys are reported as changed to false |
| `SimpleCondition.SimpleConditionTracker.HandleConditionEvent` | statsd/src/condition/SimpleConditionTracker.cpp:192-272 | unless the guardrail drops it, the event joins the history and the key's new state and whether it changed are those of the fold |
| `SimpleCondition.SimpleConditionTracker.GuardRailIff` | statsd/src/condition/SimpleConditionTracker.cpp:173-190 | an event is dropped if and only if it would bring an 801st key |
| `SimpleCondition.SimpleConditionTracker.CountEvent` | statsd/src/condition/SimpleConditionTracker.cpp:199-272 | the new counts, state, change flag and delta sets |
| `SimpleCondition.SimpleConditionTracker.EvaluateCondition` | statsd/src/condition/SimpleConditionTracker.cpp:274-357 | stop_all beats stop beats start; the two delta sets are disjoint and the started keys are the old ones plus those changed to true minus those changed to false |
| `SimpleCondition.SimpleConditionTracker.CurrentState` | statsd/src/condition/SimpleConditionTracker.cpp:307-333 | an event that matches nothing reports the folded state, or when sliced true if and only if some key's folded state is true and the default otherwise |
| `SimpleCondition.SimpleConditionTracker.IsConditionMet` | statsd/src/condition/SimpleConditionTracker.cpp:359-412 | an exact-link query returns the fold of the history |
| `SimpleCondition.SimpleConditionTracker.IsConditionMetUnlinked` | statsd/src/condition/SimpleConditionTracker.cpp:370-385 | a query without a link returns the fold if not sliced, and the default for unseen keys if sliced |
| `SimpleCondition.SimpleConditionTracker.IsConditionMetPartial` | statsd/src/condition/SimpleConditionTracker.cpp:359-412 | a partial-link query is true if and only if some key containing the link is true, and unknown if and only if false is not the default and all such keys are unknown |
| `ConditionTimer.StretchIsSteady` | statsd/src/condition/ConditionTimer.h:133-142 | the stretch from a boundary to the last change is true, or false, throughout when no other change lies after the boundary, and is not when one does and change times strictly increase |
| `ConditionTimer.BoundaryFacts` | statsd/src/condition/ConditionTimer.h:86-117 | with at most one change after a boundary the last stretch alone corrects the timer; with more, at strictly increasing times, it does not |
| `ConditionTimer.ConditionTimer.constructor` | statsd/src/condition/ConditionTimer.h:38-42 | an empty history that starts at the first bucket |
| `ConditionTimer.ConditionTimer.TotalTime` | statsd/src/condition/ConditionTimer.h:44-54 | at any later time the durations returned, the running timer and the open interval add up to the true time |
| `ConditionTimer.ConditionTimer.OnConditionChanged` | statsd/src/condition/ConditionTimer.h:133-142 | a real change joins the history; durations returned plus the timer stay the true time |
| `ConditionTimer.ConditionTimer.NewBucketStart` | statsd/src/condition/ConditionTimer.h:73-131 | returned durations add up to the true time before the boundary when at most one change lies after it, and do not when more do and change times strictly increase; each bucket's duration is exact in the first case. The start delay is how late the boundary is handled if the condition was true at it and 0 otherwise, when no change or an odd number lies after it, and the other way round for an even number; the correction is that less the delay kept before |
| `ConditionTimer.ValueByParity` | statsd/src/condition/ConditionTimer.h:86-117 | the value at a boundary is the present one if and only if an even number of changes has followed |
| `FieldMatcher.GetEncodedField` | statsd/src/FieldValue.cpp:33-44 | the shifting loop packs the path bytes below the depth byte |
| `FieldMatcher.EncodeMatcherMask` | statsd/src/FieldValue.cpp:46-48 | the mask bytes below a full top byte |
| `FieldMatcher.FieldReads` | statsd/src/FieldValue.cpp:33-44 | a packed field read as a word: one less than the number of levels in the top byte, the levels' bytes below it from the second highest down, 0 where there is none |
| `FieldMatcher.MaskReads` | statsd/src/FieldValue.cpp:46-48 | the same for a mask, whose top byte is full |
| `FieldMatcher.Translate` | statsd/src/FieldValue.cpp:77-123 | appends one matcher for every leaf of the tree, in order, although the two arrays are shared by all branches |
| `FieldMatcher.TranslateFieldMatcher` | statsd/src/FieldValue.cpp:125-132 | the matchers of all leaves under the atom |
| `FieldMatcher.WordMatch` | statsd/src/FieldValue.cpp:54-56 | one AND and compare of words is a compare of depth and of each byte under its mask |
| `FieldMatcher.LeafMatch` | statsd/src/FieldValue.cpp:50-64 | what a compiled leaf matches, exactly, for field numbers 0 to 255 |
| `FieldMatcher.LeafExact` | statsd/src/FieldValue.cpp:50-64 | with field numbers 0 to 255, a compiled leaf matches what its selectors say on every log field if and only if ALL is used on the second level only and number 0 is not used there, or a number above 127 keeps it from matching anything |
| `FieldMatcher.NumberZeroMatchesAnything` | statsd/src/FieldValue.h:248-251 | a field number 0 on the second level is taken for ALL |
| `FieldMatcher.ZeroReadAsAll` | statsd/src/FieldValue.h:248-251 | every leaf with number 0 on the second level, no number above 127 and no ALL elsewhere matches a log field it does not select |
| `FieldMatcher.LeavesMeaning` | statsd/src/FieldValue.cpp:77-123 | the leaves of a tree select what the tree selects structurally, too deep branches selecting nothing |
| `FieldMatcher.CompilationPreservesMeaning` | statsd/src/FieldValue.cpp:33-132 | a log field matches some emitted matcher if and only if the tree selects its path under FIRST, LAST, ALL and ANY, for field numbers 0 to 255, with ALL on nodes of the first level only and no number 0 on the second |
| `IndexedHeap.FirstSwapUp` | statsd/src/anomaly/indexed_priority_queue.h:171-180 | the first swap of a sift-up leaves only the moved element and its parent in doubt, even if its old children were too |
| `IndexedHeap.SwapDown` | statsd/src/anomaly/indexed_priority_queue.h:183-193 | swapping with the sooner child leaves only that child's children in doubt |
| `IndexedHeap.ReplaceInverse` | statsd/src/anomaly/indexed_priority_queue.h:115-120 | moving the last element over any other keeps the index the exact inverse of the heap |
| `IndexedHeap.ReplaceHeap` | statsd/src/anomaly/indexed_priority_queue.h:115-124 | and breaks the order at that one place only |
| `IndexedHeap.TopIsMin` | statsd/src/anomaly/indexed_priority_queue.h:159-162 | the top of a heap is a minimum |
| `IndexedHeap.IndexedPriorityQueue.constructor` | statsd/src/anomaly/indexed_priority_queue.h:88-90 | an empty queue |
| `IndexedHeap.IndexedPriorityQueue.EmptyIffNoContents` | statsd/src/anomaly/indexed_priority_queue.h:62-69 | empty if and only if it holds no alarm |
| `IndexedHeap.IndexedPriorityQueue.Top` | statsd/src/anomaly/indexed_priority_queue.h:159-162 | null if and only if empty, otherwise a soonest alarm |
| `IndexedHeap.IndexedPriorityQueue.SwapIndices` | statsd/src/anomaly/indexed_priority_queue.h:210-220 | swaps two elements, the index staying the inverse |
| `IndexedHeap.IndexedPriorityQueue.SiftUp` | statsd/src/anomaly/indexed_priority_queue.h:171-180 | repairs the order above its start, contents and inverse kept |
| `IndexedHeap.IndexedPriorityQueue.SiftDown` | statsd/src/anomaly/indexed_priority_queue.h:183-193 | repairs the order below its start, contents and inverse kept |
| `IndexedHeap.IndexedPriorityQueue.Push` | statsd/src/anomaly/indexed_priority_queue.h:93-100 | adds to the set; null and alarms already there change nothing |
| `IndexedHeap.IndexedPriorityQueue.Remove` | statsd/src/anomaly/indexed_priority_queue.h:103-127 | removes an element from anywhere in the heap and says whether it was there |
| `IndexedHeap.IndexedPriorityQueue.Pop` | statsd/src/anomaly/indexed_priority_queue.h:131-149 | removes the top |
| `IndexedHeap.IndexedPriorityQueue.Clear` | statsd/src/anomaly/indexed_priority_queue.h:152-156 | empties the queue |
| `AlarmMonitorModel.AddKeepsDrift` | statsd/src/anomaly/AlarmMonitor.cpp:72-75 | adding keeps the registered time within the minimum difference of the soonest alarm if and only if the 32-bit sum does not wrap below the registered time for an alarm that is in truth far later |
| `AlarmMonitorModel.RemoveKeepsDrift` | statsd/src/anomaly/AlarmMonitor.cpp:92-96 | removing keeps it even when the sum wraps |
| `AlarmMonitorModel.DriftCanBeLost` | statsd/src/anomaly/AlarmMonitor.cpp:72-75 | a concrete pair of alarms for which adding does not keep it |
| `AlarmMonitorModel.AlarmMonitor.constructor` | statsd/src/anomaly/AlarmMonitor.cpp:32-38 | no alarm, nothing registered |
| `AlarmMonitorModel.AlarmMonitor.SetStatsCompanionService` | statsd/src/anomaly/AlarmMonitor.cpp:42-56 | a connected service is told the soonest time exactly |
| `AlarmMonitorModel.AlarmMonitor.Add` | statsd/src/anomaly/AlarmMonitor.cpp:58-76 | null and zero-time alarms are refused; the registered time is 0 if and only if there is no alarm; the drift bound is kept under exactly that condition |
| `AlarmMonitorModel.AlarmMonitor.Remove` | statsd/src/anomaly/AlarmMonitor.cpp:78-97 | removes one alarm and keeps the drift bound |
| `AlarmMonitorModel.AlarmMonitor.PopSoonerThan` | statsd/src/anomaly/AlarmMonitor.cpp:101-123 | returns exactly the alarms due by then, leaves all others, and registers the soonest of them exactly if anything was due |
| `AnomalyTrackerModel.WindowSlides` | statsd/src/anomaly/AnomalyTracker.cpp:87-92 | moving the window by one bucket drops the first and takes in the next |
| `AnomalyTrackerModel.IndexInjective` | statsd/src/anomaly/AnomalyTracker.cpp:63-68 | two buckets of one window never share a slot |
| `AnomalyTrackerModel.Slide` | statsd/src/anomaly/AnomalyTracker.cpp:88-92 | emptying the next slot keeps the ring that of the history, one bucket on |
| `AnomalyTrackerModel.Forget` | statsd/src/anomaly/AnomalyTracker.cpp:80-85 | after a jump of N buckets or more an empty ring and empty sums are what the history says, whatever the sums were before |
| `AnomalyTrackerModel.Write` | statsd/src/anomaly/AnomalyTracker.cpp:134-142 | replacing a bucket of the window keeps the ring that of the written history |
| `AnomalyTrackerModel.SubtractedExact` | statsd/src/anomaly/AnomalyTracker.cpp:154-163 | taking a value off is exact if and only if the key is there or the value is 0 |
| `AnomalyTrackerModel.SlideExactIff` | statsd/src/anomaly/AnomalyTracker.cpp:87-92 | sums that were right are right after sliding over any number of buckets if and only if every key that has no cached sum, or whose sum comes to 0 on the way as a bucket with it falls out, has a window sum of 0 at the end |
| `AnomalyTrackerModel.SubtractedAllExact` | statsd/src/anomaly/AnomalyTracker.cpp:145-163 | taking a bucket off is exact for every key if and only if each of its keys has a cached sum or a value of 0 |
| `AnomalyTrackerModel.WriteExactIff` | statsd/src/anomaly/AnomalyTracker.cpp:134-142 | replacing a bucket keeps right sums right if and only if each key of the old one has a cached sum or a value of 0 |
| `AnomalyTrackerModel.EntryExactIff` | statsd/src/anomaly/AnomalyTracker.cpp:106-117 | replacing one entry keeps them right if and only if its key has a cached sum or its old value is 0 |
| `AnomalyTrackerModel.NonNegativeSafe` | statsd/src/anomaly/AnomalyTracker.cpp:87-92 | without negative values every slide is exact |
| `AnomalyTrackerModel.NonNegativeCovered` | statsd/src/anomaly/AnomalyTracker.cpp:134-142 | and so is every replacement |
| `AnomalyTrackerModel.NegativeValuesLoseTrack` | statsd/src/anomaly/AnomalyTracker.cpp:154-163 | with 1, 2 and -2 in three buckets the sum is right at first; after the first two have fallen out it is 0 while the window holds -2 |
| `AnomalyTrackerModel.OverwritingLosesTrack` | statsd/src/anomaly/AnomalyTracker.cpp:134-142 | without any slide: once the first of these buckets has been emptied the sum is right, and emptying the second leaves 0 while the window holds -2 |
| `AnomalyTrackerModel.AnomalyTracker.constructor` | statsd/src/anomaly/AnomalyTracker.cpp:41-45 | an empty history |
| `AnomalyTrackerModel.AnomalyTracker.SubtractBucketFromSum` | statsd/src/anomaly/AnomalyTracker.cpp:145-152 | every key of the bucket has its value taken off, and no other key is touched, in whatever order |
| `AnomalyTrackerModel.AnomalyTracker.AddBucketToSum` | statsd/src/anomaly/AnomalyTracker.cpp:165-173 | every key's sum grows by its value in the bucket |
| `AnomalyTrackerModel.AnomalyTracker.AdvanceMostRecentBucketTo` | statsd/src/anomaly/AnomalyTracker.cpp:70-94 | advances, never backwards, keeping the ring that of the history; right sums stay right if and only if the slide is exact in the sense of SlideExactIff, always after a jump of N buckets or without negative values |
| `AnomalyTrackerModel.AnomalyTracker.AddPastBucket` | statsd/src/anomaly/AnomalyTracker.cpp:126-143 | what is kept is the history with that bucket written; right sums stay right if and only if nothing kept is written, the bucket replaced can be taken off, or the slide to the new bucket is exact; they are right again after a jump of N buckets; negative bucket numbers are ignored |
| `AnomalyTrackerModel.AnomalyTracker.AddPastValue` | statsd/src/anomaly/AnomalyTracker.cpp:96-124 | the same for one entry of a bucket, existing or not |
| `AnomalyTrackerModel.AnomalyTracker.UpdateEntry` | statsd/src/anomaly/AnomalyTracker.cpp:106-117 | one entry of a bucket that is there, with the condition of EntryExactIff |
| `AnomalyTrackerModel.AnomalyTracker.GetPastBucketValue` | statsd/src/anomaly/AnomalyTracker.cpp:175-189 | the value last written in the window, 0 outside |
| `AnomalyTrackerModel.AnomalyTracker.GetSumOverPastBuckets` | statsd/src/anomaly/AnomalyTracker.cpp:191-197 | the sum of the last-written values of the N buckets up to the most recent, when the sums are right |
| `AnomalyTrackerModel.AnomalyTracker.DetectAnomaly` | statsd/src/anomaly/AnomalyTracker.cpp:199-207 | for a bucket past the most recent, true if and only if the N buckets before it plus the current value exceed the threshold, when the sums are right after advancing, which holds under exactly the condition of AdvanceMostRecentBucketTo |
| `RowOrder.RowsTotal` | statsd/src/external/puller_util.cpp:85-97 | of two different rows exactly one is less: over exact values the comparator is total and asymmetric |
| `RowOrder.RowsTransitive` | statsd/src/external/puller_util.cpp:85-97 | and transitive, as std::sort demands |
| `RowOrder.FieldValuesTotal` | statsd/src/FieldValue.h:385-405 | the same for single field values, over the variant's order |
| `RowOrder.AddsIff` | statsd/src/external/puller_util.cpp:126-131 | a field adds if and only if its first number, without the last-bit, is additive and its depth is not 1 |
| `PullerMerge.SortSorted` | statsd/src/external/puller_util.cpp:84-97 | the result is sorted by the comparator and a permutation |
| `PullerMerge.AgreeIsSameKey` | statsd/src/external/puller_util.cpp:120-135 | the position-by-position test is equality of the rows with additive values struck out |
| `PullerMerge.CanMerge` | statsd/src/external/puller_util.cpp:112-139 | the loop decides exactly that |
| `PullerMerge.PlusExact` | statsd/src/FieldValue.cpp:236-268 | an addition is exact if and only if both sides have one numeric type or there is nothing to add |
| `PullerMerge.AddValues` | statsd/src/external/puller_util.cpp:141-148 | adds the additive, non-repeated positions and leaves the others |
| `PullerMerge.MergeNeighbours` | statsd/src/external/puller_util.cpp:111-150 | the in-place loop is the fold over neighbours |
| `PullerMerge.TotalsPreserved` | statsd/src/external/puller_util.cpp:111-150 | for any layout and order, the sum of every group at every additive position is unchanged when the rows of a group have one numeric type there |
| `PullerMerge.GroupsKept` | statsd/src/external/puller_util.cpp:111-150 | no group appears or disappears |
| `PullerMerge.OneRowPerGroupIff` | statsd/src/external/puller_util.cpp:111-150 | the output has one row per group if and only if equal keys stand together |
| `PullerMerge.SortedIsGrouped` | statsd/src/external/puller_util.cpp:84-97 | sorting makes them stand together when the rows share a field list with the additive fields last |
| `PullerMerge.AdditiveFirstCanSplitGroups` | statsd/src/external/puller_util.cpp:84-97 | with an additive field first it need not: three sorted rows of two groups stay three |
| `PullerMerge.LayoutExactIff` | statsd/src/external/puller_util.cpp:83-153 | for rows that share a field list, every input merges to one row per key if and only if the additive fields come last in the list |
| `PullerMerge.SplitGroup` | statsd/src/external/puller_util.cpp:83-153 | with an additive field before one that is not, rows with 1, 2, 3 at the first and 1, 2, 1 at the second stay apart |
| `PullerMerge.SortAndMerge` | statsd/src/external/puller_util.cpp:83-153 | sort and merge together are the merge that LayoutExactIff speaks of: same groups, same totals, and one row per distinct key when the rows share a field list with the additive fields last |
| `PullerMerge.MapUids` | statsd/src/external/puller_util.cpp:69-80 | every uid of the attribution chain, or every annotated uid, becomes its host's, and nothing else changes |
| `PullerMerge.HostRowIs` | statsd/src/external/puller_util.cpp:69-80 | position by position: with a chain its uids become their hosts' and nothing else changes, without one the annotated values |
| `PullerMerge.AttributionUidIff` | statsd/src/FieldValue.cpp:145-151 | a field is the uid of a node if and only if it is an integer whose path starts with 1 and ends in 1, with or without the last-bit, whichever the node |
| `PullerMerge.MapAndMerge` | statsd/src/external/puller_util.cpp:50-154 | nothing without uids in the first event; an event of another atom stops with the events before it mapped; otherwise the mapped rows grouped and summed |
| `StatsEventCodec.LERoundTrip` | lib/libstatssocket/stats_event.cpp:148-167 | little-endian bytes read back |
| `StatsEventCodec.ReadFieldBack` | statsd/src/logd/LogEvent.cpp:659-726 | a field with its annotations is read back, whatever follows |
| `StatsEventCodec.EventRoundTrip` | statsd/src/logd/LogEvent.cpp:604-744 | decoding an encoded event gives its fields and annotations back, in order |
| `StatsEventCodec.WireType` | lib/libstatssocket/stats_event.cpp:58-69 | the first byte of a field holds the number of annotations and the type id that the list of ids gives |
| `StatsEventCodec.WireValue` | lib/libstatssocket/stats_event.cpp:137-186 | a scalar is written as 4 or 8 bytes from the lowest up, a bool as one byte, a string behind its length |
| `StatsEvent.AStatsEvent.constructor` | lib/libstatssocket/stats_event.cpp:71-86 | an event that holds its timestamp |
| `StatsEvent.AStatsEvent.SetAtomId` | lib/libstatssocket/stats_event.cpp:93-102 | the first id directly after the timestamp counts, a second is ignored, a late one is an error |
| `StatsEvent.AStatsEvent.Overflows` | lib/libstatssocket/stats_event.cpp:113-133 | the buffer is doubled until it exceeds what is needed, up to 50 KB, keeping what was written, and is not touched if there is room; an error beyond that |
| `StatsEvent.AStatsEvent.Append` | lib/libstatssocket/stats_event.cpp:137-174 | all bytes are written inside the buffer if they fit the maximal payload; none, and the overflow bit, otherwise |
| `StatsEvent.AStatsEvent.AppendString` | lib/libstatssocket/stats_event.cpp:177-186 | length and bytes, or the bit for an unterminated string if it is as long as the maximal payload, or the overflow bit |
| `StatsEvent.AStatsEvent.StartField` | lib/libstatssocket/stats_event.cpp:188-192 | the type byte at the recorded position |
| `StatsEvent.AStatsEvent.WriteScalar` | lib/libstatssocket/stats_event.cpp:194-229 | one more field, without an error if and only if there was none and it fits; otherwise exactly the bit of a string that is too long, or of the overflow; the atom id and the built flag are left alone |
| `StatsEvent.AStatsEvent.WriteByteArray` | lib/libstatssocket/stats_event.cpp:214-223 | the same for bytes, null reading as empty |
| `StatsEvent.AStatsEvent.WriteAttributionChain` | lib/libstatssocket/stats_event.cpp:232-246 | the same for a chain of at most 127 nodes, an error for more |
| `StatsEvent.AStatsEvent.WriteArray` | lib/libstatssocket/stats_event.cpp:248-309 | the same for a list of at most 127 scalars of one type |
| `StatsEvent.AStatsEvent.IncrementAnnotationCount` | lib/libstatssocket/stats_event.cpp:312-326 | counts up in the high four bits of the type byte, up to 15 |
| `StatsEvent.AStatsEvent.AddScalarAnnotation` | lib/libstatssocket/stats_event.cpp:328-356 | the last field gains the annotation, without an error if and only if it follows a field, its id fits, there is room and there are fewer than 15, and with the bit of what failed otherwise |
| `StatsEvent.AStatsEvent.BuildInternal` | lib/libstatssocket/stats_event.cpp:371-390 | without errors a decoder recovers exactly the fields and annotations written, in order; with errors the event is the fixed 21 bytes of timestamp, atom id and error mask |
| `StatsEvent.AStatsEvent.RewriteAsError` | lib/libstatssocket/stats_event.cpp:376-389 | that error event, from any state |
| `StatsEvent.MaskTells` | lib/libstatssocket/stats_event.cpp:43-56 | each error was raised if and only if its bit, with the value from the list, is on in the bytes of the mask |
| `StatsEvent.MaskUnique` | lib/libstatssocket/stats_event.cpp:43-56 | so different sets of errors have different masks |
| `StatsEvent.AStatsEvent.Build` | lib/libstatssocket/stats_event.cpp:392-398 | the same once; building again changes nothing |
| `WriterQueue.StepKeepsInv` | lib/libstatssocket/stats_buffer_writer_queue.cpp:67-161 | every step keeps: at most 4800 commands; accepted commands are those that left, then those drained, then those queued; the log is what the departures say |
| `WriterQueue.PushExact` | lib/libstatssocket/stats_buffer_writer_queue.cpp:67-79 | once the worker has started and until the join a push can always be made; with fewer than 4800 commands queued it joins the end of the queue and is accepted, otherwise nothing changes |
| `WriterQueue.StartExact` | lib/libstatssocket/stats_buffer_writer_queue.cpp:58-65 | the first push starts the worker and changes nothing else |
| `WriterQueue.AcceptedAreAdmitted` | lib/libstatssocket/stats_buffer_writer_queue.cpp:67-79 | on every run the buffers accepted are exactly those pushed while fewer than 4800 commands were queued, in order |
| `WriterQueue.AdmittedLeaveInOrder` | lib/libstatssocket/stats_buffer_writer_queue.cpp:67-161 | and they have left first to last, or are drained or queued still |
| `WriterQueue.FrontLeavesSoon` | lib/libstatssocket/stats_buffer_writer_queue.cpp:112-161 | every step of the worker makes the front command leave or the worker exit, or brings that nearer, at most 42 steps away |
| `WriterQueue.RunKeepsInv` | lib/libstatssocket/stats_buffer_writer_queue.cpp:67-161 | so in every state of every run, commands leave in order after the first success or the tenth failure, and a try is told to note a drop exactly when it is the tenth |
| `WriterQueue.ConservedKept` | lib/libstatssocket/stats_buffer_writer_queue.cpp:67-79 | first in, first out, nothing lost between acceptance and departure |
| `WriterQueue.AccountedKept` | lib/libstatssocket/stats_buffer_writer_queue.cpp:132-148 | the attempts made are exactly those of the departed commands plus those on the front one |
| `WriterQueue.WorkerCanMove` | lib/libstatssocket/stats_buffer_writer_queue.cpp:112-161 | the worker waits only on an empty queue |
| `WriterQueue.TerminationNotStuck` | lib/libstatssocket/stats_buffer_writer_queue.cpp:94-102 | once the flag is up some thread can move until the join, whether or not the marker found room |
| `WriterQueue.TerminationIsBounded` | lib/libstatssocket/stats_buffer_writer_queue.cpp:94-161 | from the flag on there are at most six steps of worker and terminate(), however many pushes come between |
| `WriterQueue.JoinedMeansAllAccounted` | lib/libstatssocket/stats_buffer_writer_queue.cpp:38-43 | after join and drain every accepted command has left exactly once |
| `Varint.RoundTrip` | lib/libkll/encoding/varint.cpp:24-46 | the encoding of any 64-bit value decodes to it, whatever follows |
| `Varint.CountLeadingZeros64` | lib/libkll/encoding/bits_util.h:40-59 | halving and the table count exactly the zeroes above the top bit, 64 for 0 |
| `Varint.LengthIsGroups` | lib/libkll/encoding/varint.cpp:24-46 | the encoding has one byte per started group of seven bits |
| `Varint.Length64` | lib/libkll/encoding/varint.h:42-48 | the multiply-and-shift formula gives the number of encoded bytes, at most ten |
| `VarintEncoder.Encode32` | lib/libkll/encoding/varint.h:50-76 | the unrolled encoder writes the base-128 encoding in the buffer from its start on, and nothing else |
| `VarintEncoder.Encode64` | lib/libkll/encoding/varint.cpp:24-46 | the same for 64 bits, with two ors standing for four |
| `VarintEncoder.AppendToString` | lib/libkll/encoding/encoder.cpp:47-54 | ten bytes of buffer always suffice; the encoding is appended |
| `VarintEncoder.SerializeToPackedStringAll` | lib/libkll/encoding/encoder.cpp:56-63 | the encodings one after another |
| `VarintEncoder.PackedRoundTrip` | lib/libkll/encoding/encoder.cpp:56-63 | unpacking gives the sequence back |
| `VarintEncoder.PackedUnique` | lib/libkll/encoding/encoder.cpp:56-63 | no two sequences pack to the same string |

## Left out

- KllStack.CompactorStack.constructor: k of 1 or 2, which the source accepts, is excluded, because the source then never returns (RecursionEndsIff).
- KllQuantileModel.KllQuantile.constructor: likewise, and k of 0 stands for a value computed with floating point, which the model is given.
- ConditionConfig.InitConditions: a config in which a kept predicate has a repeated child is excluded, because the source then dereferences the end of a map (statsd/src/condition/CombinationConditionTracker.cpp:72-73).
- ConditionConfig.Query: the same configs are excluded, since they never get as far as a query.
- FieldMatcher.LeafExact: field numbers above 255, whose bits run into the bytes of other levels, are excluded.
- RowOrder.RowsTotal: a NaN, which compares with nothing, has no counterpart: floats and doubles are exact reals.
- AnomalyTrackerModel.AnomalyTracker.constructor: an alert with no buckets is excluded; a config with one is rejected before (statsd/src/metrics/parsing_utils/metrics_manager_util.cpp:1755).
- The value of k computed from the error parameters with log and sqrt, and the failure probability of the sketch: floating point and distributions.
- 32-bit and 64-bit overflow of the sketch's counters and of added row values: integers are unbounded there.
- SerializeToProto of the sketch beyond its varints.
- Binder, sockets, files, sqlite and protobuf code, sleeps, timeouts and logging.
- Receivers that have died: the code dereferences the promoted reference of a due receiver that is not pulled, so registered receivers are taken to be alive.
- UnRegisterReceiver does not move the alarm; neither does the model, so the alarm may be early, never late.
- The uid provider and the choice of puller: which keys have a puller and which pulls succeed are parameters.
- The table of isolated uids, which is a parameter, and annotations carried by merged rows.
- Aliasing of a bucket handed to AddPastBucket with its caller, and bucket values rounded as doubles.
- Refractory periods, subscriptions and the alarms of duration anomalies: each is a single lookup or update in a map that nothing modelled here reads.
- Liveness of alarms: popSoonerThan does not register anything when nothing was due.
- The callbacks that carry the registered alarm time to the system.
- Change tracking of combination predicates (evaluateCondition), the matchers and slicing set up by init, and the update of trackers from a changed configuration.
- Predicates sliced by ANY positions, which the tracker refuses, and dimension extraction by links: a link query is given its key, and partial containment is a parameter.
- AStatsEvent_overwriteTimestamp, meant for tests, and the socket write of a built event.
- Meaning of annotations for the daemon, key-value pairs and the parser's validity checks beyond the layout.
- Starting the writer's thread and the race of terminate with it: termination starts after the worker has started.
- Bit-level aliasing of int64 and uint64: a serialized int64 is its 64-bit pattern.
