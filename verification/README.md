# Verified model of the query, rule and delivery cores

This project models the parts of a Prometheus-derived time-series database where caches,
codecs, rewrites and goroutines have to agree with something simpler, and proves that they do.
One module follows one component:

- **Look-back windows** (`samples`, `ring`, `buffered`, `ledger`, `matrix`, `matrixruns`,
  `matrixeval`, `memoized`, `storageseries`): the growable ring buffer, the two look-back
  iterators and the selectors built on them. The main results say that at every step of every
  range query the reused, incrementally filled windows are exactly what a plain filter of the
  whole series gives, when exactly the sample limit stops the query, and that an instant
  selector is exactly a search of the whole series.
- **Wire codec** (`wirescalars`, `wiremessages`, `wireformat`, `wirewriter`, `wirereader`,
  `wireunmarshal`, `wireroundtrip`, `wirerecords`, `wirenormal`): the generated Protocol Buffers
  code for remote-write messages. The bytes are those of the Protocol Buffers encoding, sizes are
  exact, writers fill their buffer exactly, readers are total and do with any records, in any
  order, what a table says, and reading what was written gives the message back if and only if no
  plain double field holds -0.0.
- **Queries** (`timeranges`, `stepinvariant`, `stepmeaning`, `enginereads`): where subqueries place their steps,
  the rewriting that evaluates step-invariant parts once, which samples a query asks storage for
  and which ones its result depends on.
- **Discovery, alerts, rules, notifications** (`discovery`, `discoverysteps`, `alerting`,
  `alertingruns`, `rulegroups`, `rulescheduling`, `notifier`): state machines whose steps are the
  points where goroutines can interleave, with invariants over whole runs.
- **Kernels** (`topk`, `quantile`, `rate`): the bounded heap, the bucket quantile and the
  extrapolated rate, over the reals.

`dafny verify dfyconfig.toml` checks the whole project.

## Reading the model

- Objects whose methods update fields are classes. Their methods are proved equal to functions
  on values, and the theorems are about those functions.
- Times are unbounded integers in milliseconds. The sentinel `math.MinInt64` is kept as
  `MIN_TIME`; look-backs that would reach below it are excluded by `requires`.
- A storage iterator is a series and a position in it. `Samples.SeekPos` is the contract of its
  `Seek`; `StorageSeries.StorageSeriesIterator.Seek` is code that meets it.
- In the transition systems a step is what one goroutine does while it holds a lock, or a single
  channel operation. A run is any sequence of enabled steps, so the theorems cover every
  interleaving.

## Where the code falls short of its intent

- *Sample accounting with histograms.* `matrixIterSlice` subtracts the size of the retained
  histograms where it means that of the dropped ones (promql/engine.go:2345).
  `MatrixSelector.Accounting` gives the error as a formula and the exact condition under which
  the counter is right; `MatrixRuns.MiscountedRun` is a query of two steps after which it is not.
  What the sample limit does with the miscounted value is stated exactly
  (`MatrixEval.Evaluator.EvalSelector`), and without histograms the count is right
  (`MatrixRuns.FloatCounter`).
- *Pinned selectors in subqueries.* A subquery whose evaluator starts where the outer one does
  skips the adjustment of offsets for `@` (promql/engine.go:1995), so a pinned selector inside a
  subquery with an offset is read at the wrong time, where its samples were not asked for
  (`EngineReads.SlippedRead`). `StepInvariant.SlippedPin` is such a query;
  `StepInvariant.PreservedExactlyWhen` proves that rewriting preserves the meaning at the steps of
  the query if and only if the condition `Sound` holds. The condition depends on the text of the
  query, its start, its end and its interval: `StepInvariant.SlipUnseen` is the same text with
  other steps, for which it holds. `EngineReads.AskedForExactly` says which reads were asked for,
  and `EngineReads.SelectedIsEnough` that under the condition all that matter were.
- *Negative zero.* The `!= 0` guards of the writers drop -0.0. `WireNormal.NegativeZeroLost` is a
  message that changes; `WireNormal.Lossless` says exactly which ones do.
- *Quantile 0.* With an empty lowest bucket that ends above zero, the 0-quantile divides zero by
  zero. `Quantile.ZeroQuantileLost` is a histogram where it does; `Quantile.ValueOrNaN` says
  exactly when there is a value.
- *Seeking to the least time.* A fresh `storageSeriesIterator` that is asked for `math.MinInt64`
  does not advance and claims a float (promql/value.go:454-467); in every other case
  `StorageSeries.StorageSeriesIterator.Seek` meets the iterator contract.

## Model

| member | source | states |
|---|---|---|
| `Ring.SampleRing.ClaimSlot` | storage/buffer.go:591-615 | growing a full ring at any wrap position, or claiming the next slot, keeps the logical contents and leaves the newest index one past them |
| `Ring.SampleRing.Evict` | storage/buffer.go:617-626 | advancing the head over the wrap drops exactly the leading samples older than the bound and keeps the newest |
| `Ring.SampleRing.Migrate` | storage/buffer.go:474-494 | moving a typed buffer to the interface buffer keeps contents and indices |
| `Ring.SampleRing.Add` | storage/buffer.go:438-548 | under every buffer in use, adding a sample leaves the old contents plus the sample, without what is older than the delta, and a valid ring (newest index is first plus length minus one, modulo the capacity) |
| `Ring.SampleRing.ReduceDelta` | storage/buffer.go:719-753 | a larger delta is refused and changes nothing; a smaller one drops exactly what falls out of it |
| `Ring.SampleRing.Reset` | storage/buffer.go:308-319 | empties the ring and keeps its delta |
| `Ring.SampleRing.NthLast` | storage/buffer.go:756-771 | succeeds exactly if that many are buffered, and then returns the nth newest |
| `Ring.SampleRing.All` | storage/buffer.go:773-823 | the two copied runs together are the contents, oldest first |
| `Ring.SampleRingIterator.Next` | storage/buffer.go:345-407 | steps through the contents in order and reads each sample with its type, although histogram pointers of earlier samples stay behind |
| `Ring.Execute` | storage/buffer.go:308-753 | any program of adds, reductions and resets on a fresh ring ends in the state of the abstract run |
| `Ring.RunIsWindow` | storage/buffer.go:265-319 | closed form over whole runs: with samples in time order, the ring holds exactly the samples since the last reset within the current delta of the newest |
| `Ring.DeltaIsLeast` | storage/buffer.go:719-753 | the current delta is the least of the first one and all it was reduced to |
| `Buffered.BufferedSeriesIterator.Seek` | storage/buffer.go:85-112 | the iterator ends in the specified state, whether it jumps, steps or runs out |
| `Buffered.BufferedSeriesIterator.Next` | storage/buffer.go:115-138 | buffers the current sample and advances |
| `Buffered.BufferedSeriesIterator.Reset` | storage/buffer.go:59-65 | a reused iterator is as good as a new one, with the original delta |
| `Buffered.SeekCovers` | storage/buffer.go:85-112 | after a seek the iterator stands on the first sample at or after the time, and the buffer holds every sample within the delta before it and none at or after it |
| `Buffered.ReduceCovers` | storage/buffer.go:68-70 | a reduced delta keeps that coverage for the smaller delta |
| `MatrixEval.Evaluator.MatrixIterSlice` | promql/engine.go:2300-2454 | the points of a step from those of the step before, the change of the sample counter, and exactly when the sample limit stops it |
| `MatrixSelector.SliceIsFilter` | promql/engine.go:2300-2454 | reused plus appended points are exactly the samples of the half-open window that are not stale, in order |
| `MatrixSelector.InRangeExactly` | promql/engine.go:2364-2440 | the filter finds exactly the floats in the half-open range that are not the stale marker, and the histograms whose sum is not |
| `MatrixEval.Evaluator.EvalSteps` | promql/engine.go:1748-1794 | all steps of a range query over one series succeed exactly if the counter stays within the limit at every step that finds new points; then every step sees exactly the plain filter of its window, with the delta reduced after a step that has points, also with `@`, and the counter has moved by the sum of the steps; there is one window for each step time up to the end, with bounds written out in start, interval, range and offset |
| `MatrixEval.Evaluator.EvalSelector` | promql/engine.go:1726-1820 | the same for all series with one reused iterator, with the output of the function counted and checked after each series and the points of the last step given back; each result is the list of those filters |
| `MatrixRuns.WindowsAt` | promql/engine.go:1748-1766 | the window of step k holds exactly the samples after `maxt` minus the range and up to `maxt`, which is start plus k intervals minus the offset, or with `@` start minus the offset |
| `MatrixRuns.FloatCounter` | promql/engine.go:2306-2327 | without histograms the counter has grown, after any number of steps, by exactly the length of the latest window |
| `MatrixRuns.FloatLimit` | promql/engine.go:2397-2401 | without histograms all steps succeed if and only if every window is empty or fits under the limit on top of what was counted before |
| `MatrixRuns.FloatLeaves` | promql/engine.go:1797-1820 | without histograms a series leaves nothing but its output on the counter |
| `MatrixSelector.WeightExactly` | promql/engine.go:2385-2401 | each float weighs one, each histogram its size |
| `MatrixSelector.Accounting` | promql/engine.go:2306-2357 | the counter moves by the change in weight plus a drift; it is exact if and only if no histogram is retained or retained and dropped ones weigh the same |
| `MatrixRuns.MiscountedRun` | promql/engine.go:2330-2347 | a series with one histogram in the windows of both steps of a query: the second step retains it and takes it off the counter |
| `Memoized.MemoizedSeriesIterator.Seek` | storage/memoized_iterator.go:75-102 | ends in the specified state and reports the float type of the current sample |
| `Memoized.MemoizedSeriesIterator.Next` | storage/memoized_iterator.go:106-127 | remembers the current sample as a float or float histogram and advances |
| `Memoized.SelectIsSearch` | promql/engine.go:2149-2181 | one look-back from any earlier reference time yields the latest sample of the look-back, or nothing if there is none or it is stale, for every delta of at least the look-back minus one |
| `Memoized.LatestExactly` | promql/engine.go:2149-2181 | that search looks at the last sample up to the reference time and yields it, as a float or float histogram, unless it is too old or stale |
| `Memoized.ShorterDeltaMisses` | promql/engine.go:2110-2111 | any smaller delta misses a sample inside the look-back, so the delta of look-back minus one is the least |
| `Memoized.VectorSelectorSingle` | promql/engine.go:2149-2181 | the code's answer is that search, and the iterator covers the new reference time |
| `Memoized.EvalSeries` | promql/engine.go:1450-1517 | for all series and every non-decreasing run of reference times each answer is the search of that series, also after it is exhausted |
| `StorageSeries.StorageSeriesIterator.Next` | promql/value.go:485-531 | walks the time-ordered merge of floats and histograms, one sample at a time |
| `StorageSeries.StorageSeriesIterator.Seek` | promql/value.go:454-467 | meets the iterator contract for seeking on the merged series, except that a fresh iterator asked for the least time stays put and claims a float |
| `StorageSeries.MergeKeepsAll` | promql/value.go:485-531 | the merge is a permutation of the two lists |
| `StorageSeries.MergeIncreasing` | promql/value.go:485-531 | increasing lists without a common time merge into a series that the look-back iterators accept |
| `WireScalars.SovExact` | prompb/types.pb.go:2379-2381 | the size computed from the bit length is the number of base-128 digits, for every value |
| `WireScalars.ReadVarintOf` | prompb/types.pb.go:1997-2007 | every 64-bit value takes at most ten bytes and is read back from them, whatever follows |
| `WireScalars.DecodeVarint` | prompb/types.pb.go:3369-3383 | the reading loop that cuts to 64 or 32 bits in every round gives the value cut once at the end, with the same errors |
| `WireScalars.ZigZag` | prompb/types.pb.go:2382-2384 | zigzag interleaves signs, its reader inverts it, and the 64-bit form used for sizing agrees with the 32-bit form that is written |
| `WireFormat.VarintShortest` | prompb/types.pb.go:1997-2007 | no varint has more digits than its value needs |
| `WireFormat.VarintAt` | prompb/types.pb.go:1997-2007 | digit i is the value divided by 128 to the i, modulo 128, with the top bit set in all but the last |
| `WireFormat.ReadVarintDigits` | prompb/types.pb.go:3369-3383 | a varint ends at the first byte below 128, within ten bytes, and is the sum of its seven-bit digits times powers of 128 |
| `WireFormat.ReadVarintEndless` | prompb/types.pb.go:3369-3383 | without a final digit in ten bytes the value overflows, or the buffer ends before that |
| `WireFormat.LittleEndianAt` | prompb/types.pb.go:1303-1306 | byte i of a fixed 64-bit value is the value divided by 256 to the i, modulo 256 |
| `WireFormat.FromEight` | prompb/types.pb.go:2588-2590 | eight bytes are read as the sum of each byte times its power of 256, the first the least |
| `WireFormat.OneAtOne` | prompb/types.pb.go:1289-1310 | the sample of value 1.0 at time 1 is the bytes 09 00 00 00 00 00 00 f0 3f 10 01 |
| `WireFormat.HistogramFormat` | prompb/types.proto:63-120 | the same for a histogram, with both oneofs, zigzag and packed fields |
| `WireFormat.TimeSeriesFormat` | prompb/types.proto:41-135 | the encoding is, field by field, that of the Protocol Buffers specification: number, wire type and payload of every field of all six messages, defaults absent, unknown bytes last |
| `WireMessages.HistogramSize` | prompb/types.pb.go:2077-2140 | `Size()` of a histogram is the length of its encoding |
| `WireMessages.TimeSeriesSize` | prompb/types.pb.go:2196-2230 | `Size()` is the length of the encoding at every level of nesting |
| `WireWriter.EncodeVarint` | prompb/types.pb.go:1997-2007 | puts the digits in front of the offset and touches nothing else |
| `WireWriter.MarshalHistogram` | prompb/types.pb.go:1379-1520 | written back to front, the buffer holds the encoding right before the given end and is otherwise unchanged |
| `WireWriter.MarshalTimeSeries` | prompb/types.pb.go:1624-1690 | the same for a time series with all its nested messages |
| `WireWriter.Marshal` | prompb/types.pb.go:1609-1617 | a buffer of `Size()` bytes is filled exactly, the index ends at 0, and the result is the encoding, which is the specification's |
| `WireReader.SkipField` | prompb/types.pb.go:4357-4434 | on any bytes, skipping an unknown field fails or passes over at least one byte and never past the end, nested groups included |
| `WireReader.NextTimeSeries` | prompb/types.pb.go:3367-3546 | on any bytes, one round fails or uses at least one byte and at most all |
| `WireReader.NextHistogram` | prompb/types.pb.go:2750-3268 | the same for a histogram, with its fixed, packed and single fields |
| `WireUnmarshal.SkipTypes` | prompb/types.pb.go:4357-4434 | the loop with its group depth computes the recursive definition, errors included |
| `WireUnmarshal.Unmarshal` | prompb/types.pb.go:3364-3550 | the loop over the buffer computes the recursive reader on every byte sequence, and so accounts for every byte or fails; bytes that the specification gives for a message are read as that message, with negative zeros made positive |
| `WireRoundTrip.HistogramRoundTrip` | prompb/types.pb.go:2747-3272 | reading an encoded histogram gives it back with its negative zeros made positive |
| `WireRoundTrip.TimeSeriesRoundTrip` | prompb/types.pb.go:3364-3550 | reading an encoded time series gives it back with negative zeros made positive, unknown fields included |
| `WireRecords.SkipsItem` | prompb/types.pb.go:4357-4434 | an unknown field of any wire type, also a group with all that is nested in it, is skipped exactly |
| `WireRecords.SampleRecords` | prompb/types.pb.go:2580-2625 | the same for a sample |
| `WireRecords.HistogramRecords` | prompb/types.pb.go:2776-3265 | the same for a histogram with records that are not packed: scalars are overwritten, single deltas and counts appended |
| `WireRecords.PackedDeltas` | prompb/types.pb.go:2913-2989 | a packed field of integers is appended as a whole; `PackedDoubles` says so of doubles |
| `WireRecords.TimeSeriesRecords` | prompb/types.pb.go:3394-3546 | reading any records, in any order, does what the table says of each: messages are appended, unknown records kept as they are, a wrong wire type refused |
| `WireNormal.Lossless` | prompb/types.pb.go:1289-1310 | the round trip is lossless if and only if no plain double field holds -0.0 |
| `WireNormal.NegativeZeroLost` | prompb/types.pb.go:1303-1308 | a message with one sample of value -0.0 is read back with 0.0 |
| `WireNormal.ParseTimeSeriesClean` | prompb/types.pb.go:3535-3543 | whatever a reader accepts, the bytes it sets aside are whole unknown fields |
| `WireNormal.Reencode` | prompb/types.pb.go:3364-3550 | any message that came off the wire survives being written and read again, up to zero signs |
| `TimeRanges.FirstStepIsLeast` | promql/engine.go:1988-1993 | with truncating division and either sign, a subquery starts at the least multiple of its step above the start of its window |
| `TimeRanges.SubqueryWindow` | promql/engine.go:1967-1993 | the inner points in any window are exactly the multiples of the step there |
| `TimeRanges.SubqueryTimes` | promql/engine.go:837-860 | the loop returns the sums along the path and the closest `@` |
| `TimeRanges.AccumulatePinned` | promql/engine.go:833-853 | an `@` discards every sum above it |
| `TimeRanges.RangeCovers` | promql/engine.go:897-936 | at any nesting depth, the interval computed for a selector contains everything the engine reads for it if neither it nor a subquery above it has `@`, and otherwise everything the meaning of the query needs |
| `TimeRanges.RangeExactly` | promql/engine.go:897-936 | both ends of the interval: the start of the query less all offsets and ranges and the look-back or range, plus one millisecond, and its end less all offsets; with `@` on the selector, from its timestamp |
| `TimeRanges.RangePinned` | promql/engine.go:901-917 | below a pinned subquery the sums are taken from its timestamp |
| `TimeRanges.RangeReached` | promql/engine.go:897-936 | no more is asked for than is read: without `@` the last read ends where the interval does, and the first begins where it does, but for the steps of the subqueries above |
| `TimeRanges.FindMinMaxTime` | promql/engine.go:865-895 | the traversal with its shared variables finds an interval that contains every window any selector of the query reads without `@`, and every window its meaning needs with `@` |
| `StepInvariant.Constant` | promql/engine.go:3578-3660 | what is marked step invariant has the same value at all times, if no function but those eleven looks at the time |
| `StepMeaning.MeaningOfSelector` | promql/engine.go:3669-3699 | a selector reads at the step, at its `@`, at the start or at the end, less its offset |
| `StepMeaning.MeaningOfSubquery` | promql/engine.go:1967-2000 | a subquery collects its expression's values, in order, at exactly the multiples of its step in the half-open window that ends at the step or at its `@`, less its offset |
| `StepMeaning.MarkedExactly` | promql/functions.go:1755-1763 | a call is marked step invariant exactly if all its arguments are and its function is none of eleven, given by name |
| `StepMeaning.CalledAtEveryStep` | promql/engine.go:3608-3623 | the time functions without arguments are called at every step with the time of that step |
| `StepMeaning.TimePasses` | promql/engine.go:3608-3623 | `time()` is the time of the step at every step of every query |
| `StepInvariant.PreprocessPreserves` | promql/engine.go:3564-3660 | under the condition, evaluating the rewritten tree once where it is wrapped gives the meaning of the original at every step |
| `StepInvariant.PreservedExactlyWhen` | promql/engine.go:1967-2072 | the condition is necessary as well: rewriting preserves the meaning at the steps of the query if and only if it holds |
| `StepInvariant.RestartsSound` | promql/engine.go:1995-2000 | a simple sufficient condition: every subquery moves the start of its evaluator, or has neither offset nor `@` |
| `StepInvariant.SlippedPin` | promql/engine.go:1995-2000 | `last_over_time((x @ 0)[1m:5m] offset 1m)` at a step of one minute: the selector is read one minute late and misses a sample that the meaning finds |
| `StepInvariant.SlipUnseen` | promql/engine.go:1995-2000 | the same query with steps whose windows hold no inner point is right |
| `EngineReads.ValueOfReads` | promql/engine.go:1552-2072 | the engine's value depends on nothing but the reads listed for it: storage that returns the same for these gives the same value |
| `EngineReads.AskedForExactly` | promql/engine.go:897-936 | a read that enters the result of a query lies in the interval asked for its selector if and only if the selector is not pinned or has not slipped |
| `EngineReads.SlippedRead` | promql/engine.go:960-974 | the query of `SlippedPin` reads outside the interval it asked for |
| `EngineReads.NothingSlips` | promql/engine.go:3669-3699 | under the condition of `PreservedExactlyWhen` every pinned selector is read at its timestamp |
| `EngineReads.SoundAsksForAll` | promql/engine.go:951-980 | under that condition every read that enters the result was asked for |
| `EngineReads.SelectedIsEnough` | promql/engine.go:951-980 | under that condition the engine on storage that answers only what was asked for, and anything else at will, has the meaning of the query on all of storage |
| `EngineReads.SoundWithinFound` | promql/engine.go:865-895 | under that condition every sample such a read looks at lies in the interval of `FindMinMaxTime` for the rewritten query |
| `Discovery.Store.UpdateGroup` | discovery/manager.go:389-409 | an update replays its batch on one subscription and leaves the others alone |
| `Discovery.Store.Switch` | discovery/manager.go:228-254 | dropped subscribers lose their groups, kept and new ones get those of an old one, nothing else changes |
| `Discovery.ReplayIsLast` | discovery/manager.go:396-408 | a replay holds, per source, the last group received, unless that one is empty |
| `DiscoverySteps.InvStep` | discovery/manager.go:204-377 | every step of ApplyConfig, updaters, cleaners and the sender keeps the invariant |
| `DiscoverySteps.ReplayHolds` | discovery/manager.go:321-349 | in every interleaving each subscriber, however late, holds the replay of all batches its provider has applied |
| `DiscoverySteps.NothingLeftBehind` | discovery/manager.go:308-319 | once ApplyConfig has returned, no key of a dropped provider or subscriber remains |
| `DiscoverySteps.NoLostWakeup` | discovery/manager.go:351-377 | if what the receiver has is out of date, the trigger is set, or someone is about to set it, or the sender will take or holds a current snapshot |
| `Alerting.AlertingRule.Collect` | rules/alerting.go:350-417 | two rows with the same labels are refused; otherwise one alert per row |
| `Alerting.AlertingRule.Eval` | rules/alerting.go:341-497 | all four outcomes, and the active map after each: every instance takes its own step, over the limit all are forgotten, a failure changes nothing; a resolved instance that stays out of the result is kept unchanged up to 900000 ms after it resolved and then dropped |
| `Alerting.AlertingRule.SendAlerts` | rules/alerting.go:560-578 | exactly the alerts that need sending are passed on and stamped |
| `Alerting.Execute` | rules/group.go:539-563 | any run of rounds, as a group drives them, computes the specified map and log of sent alerts |
| `AlertingRuns.InstancesAreSeparate` | rules/alerting.go:428-490 | the map holds, for each instance, what that instance's own events lead to |
| `AlertingRuns.EveryAlertIsExplained` | rules/alerting.go:441-490 | over every run: an instance fired at the first evaluation that came the hold time after it became active, having been in every result since; it stays firing through an absence only within the keep-firing time; it resolved at the first evaluation after that; it has a resolution time if and only if it is inactive; an instance without an entry was not in the latest result |
| `AlertingRuns.RoundByCases` | rules/alerting.go:428-490 | the whole transition of an instance in a successful round of any run: born, pending, firing after the hold time, kept firing, resolved, forgotten after 900000 ms; the value is refreshed, and an alert that is sent is valid for four intervals or resend delays, whichever is longer |
| `AlertingRuns.ResolvedStays` | rules/alerting.go:454-471 | over every run: a resolved instance that stays out of the results is in the map, unchanged, exactly if no successful round came more than 900000 ms after it resolved |
| `AlertingRuns.OverTheLimit` | rules/alerting.go:484-495 | a round is over the limit exactly if more instances than that would be pending or firing |
| `AlertingRuns.SentWhenItMatters` | rules/alerting.go:94-105 | in every successful round an instance is sent exactly if it just started firing or resolved, or is unchanged, not pending, and past the resend delay; never while pending; a firing one never vanishes |
| `RuleGroups.BuildDependencyMap` | rules/group.go:1081-1137 | nil exactly if some selector is a wildcard or reads alert series; otherwise a rule is listed under another if and only if it uses its name, in terms of the names in the selectors |
| `RuleGroups.Dependencies` | rules/group.go:1043-1058 | zero if and only if no rule lists it |
| `RuleGroups.AnalyseRules` | rules/manager.go:455-466 | both flags are set exactly for the independent rules, and none is touched if inputs are unknown |
| `RuleGroups.ConcurrencyController.Allow` | rules/manager.go:492-502 | a slot is taken exactly if both flags are set and one is free |
| `RuleGroups.ConflictsStayInFront` | rules/group.go:1070-1080 | if one rule reads what another writes, neither may run in the background |
| `RuleScheduling.ReadsAsInOrder` | rules/group.go:649-667 | whatever runs meanwhile, a rule finds in the store what it would find had the rules run in order |
| `RuleScheduling.Confluent` | rules/group.go:649-668 | every interleaving that finishes leaves the store of sequential evaluation, and every slot still taken belongs to a rule that is over and can return it |
| `RuleScheduling.Bounded` | rules/manager.go:479-506 | at no point are more slots taken than there are, and every rule in the background holds one; a slot may outlive its rule, because it is returned after the loop was told |
| `RuleScheduling.NeverStuck` | rules/group.go:649-668 | a run that has not finished can go on whatever other groups do |
| `Notifier.Manager.Enqueue` | notifier/notifier.go:434-459 | the queue becomes the newest alerts that fit, and every alert that does not is counted as dropped |
| `Notifier.Manager.Send` | notifier/notifier.go:434-463 | the same, and the signal is set exactly if it was or if there were alerts |
| `Notifier.Manager.NextBatch` | notifier/notifier.go:307-322 | batch and rest together are the queue, and the batch is its first 64 or all |
| `Notifier.InvStep` | notifier/notifier.go:350-416 | every step of `Send`, the send loop and the draining keeps the invariant |
| `Notifier.NothingLost` | notifier/notifier.go:391-397 | in every run: accepted alerts are delivered, in flight, counted as dropped or queued; the queue is bounded and holds the newest; delivery keeps the order of acceptance and repeats nothing |
| `Notifier.NoLostWakeup` | notifier/notifier.go:350-371 | while alerts are queued the signal is set, or a `Send` is about to set it, or the loop will look again |
| `Notifier.DrainedAtTheEnd` | notifier/notifier.go:399-416 | a draining loop ends only when every accepted alert was delivered or counted as dropped |
| `TopK.Up` | promql/functions.go:1771-1794 | sifting up with an order that is not irreflexive on NaN restores the heap and keeps the elements |
| `TopK.Down` | promql/functions.go:1771-1790 | sifting down does, too |
| `TopK.Replace` | promql/engine.go:3250-3255 | overwriting the top and fixing the heap exchanges exactly the top for the new sample |
| `TopK.Offer` | promql/engine.go:3196-3272 | after any sample the group holds a choice of the k best of its floats, with histograms ignored even if they come first |
| `TopK.AggregationK` | promql/engine.go:3177-3272 | for any input order every group ends with a choice of the k best of its floats |
| `TopK.BestIsUnique` | promql/engine.go:3235-3272 | two choices of the k best have the same size and differ in ties only |
| `TopK.NaNComesLast` | promql/engine.go:3242-3256 | with at most k floats nothing is left out; NaN is kept only if everything left out is NaN |
| `TopK.ValuesDecide` | promql/engine.go:3235-3272 | numbers that `topk` leaves out are at most, and those that `bottomk` leaves out at least, any that it keeps; an infinity gives way to its like only |
| `Quantile.CoalesceBuckets` | promql/quantile.go:455-469 | merging in place computes the merge of equal bounds |
| `Quantile.CoalescedCounts` | promql/quantile.go:450-469 | the count per distinct bound is kept |
| `Quantile.CoalescedDistinct` | promql/quantile.go:450-469 | sorted buckets end with strictly increasing bounds |
| `Quantile.EnsureMonotonic` | promql/quantile.go:497-524 | correcting in place computes the envelope and both flags |
| `Quantile.EnvelopeNonDecreasing` | promql/quantile.go:471-496 | counts become non-decreasing, whatever the tolerance, and bounds are kept |
| `Quantile.EnvelopeIdempotent` | promql/quantile.go:497-524 | a second pass changes nothing |
| `Quantile.EnvelopeIsMax` | promql/quantile.go:497-524 | without tolerance each count becomes the largest so far |
| `Quantile.EnvelopeAt` | promql/quantile.go:500-522 | each count is raised to the one below if it is less or nearly the same, and else kept |
| `Quantile.FlagsExact` | promql/quantile.go:494-496 | neither flag is set if and only if nothing was changed |
| `Quantile.FlagsMean` | promql/quantile.go:500-522 | one flag reports a count that was less than the one below, the other a count that differed by rounding |
| `Quantile.Search` | promql/quantile.go:142-142 | the binary search finds the first bucket that reaches the rank |
| `Quantile.BucketQuantile` | promql/quantile.go:107-161 | the whole function, with all its special results and flags; for q in [0, 1] a value that is returned divides the observations in the ratio q, within the first bucket to reach q times their number, or is the highest finite bound, or the lowest bound if that is not above 0 |
| `Quantile.InUnitIsQuantile` | promql/quantile.go:130-161 | the same for the function on values, without the intermediate rank |
| `Quantile.ValueOrNaN` | promql/quantile.go:130-161 | for quantiles in [0, 1] there is a value exactly if the given buckets have two distinct bounds, an observation is left, and not both q is 0 and all buckets at the least bound, which is above 0, are empty; otherwise NaN |
| `Quantile.ObservedExactly` | promql/quantile.go:497-524 | an observation is left if and only if a given count is positive, whenever the tolerance does not take zero for rounding |
| `Quantile.ZeroQuantileLost` | promql/quantile.go:150-160 | one observation above 1 and none below: the 0-quantile is NaN |
| `Quantile.InterpolationInside` | promql/quantile.go:147-160 | the interpolated value lies within its bucket |
| `Quantile.QuantileInverts` | promql/quantile.go:147-160 | the quantile is the inverse of the linearly interpolated cumulative count, in the bucket where that count reaches the rank |
| `Quantile.QuantileMonotone` | promql/quantile.go:107-161 | the quantile never decreases as q grows |
| `Rate.Difference` | promql/functions.go:106-121 | last minus first plus the values lost in resets is the sum of the increases from point to point |
| `Rate.IncreaseWithoutResets` | promql/functions.go:110-121 | the increase of a positive counter is the difference of its ends if and only if there was no reset |
| `Rate.IncreaseSplits` | promql/functions.go:110-121 | increases over adjacent parts add up |
| `Rate.IncreaseOfTwo` | promql/functions.go:110-121 | from one point to the next the increase is the difference, or after a drop the new value |
| `Rate.ExtrapolatedRate` | promql/functions.go:72-183 | the result for counters and gauges, as increase and per second; none for fewer than two samples |
| `Rate.BothEndsCovered` | promql/functions.go:127-166 | a boundary closer than 1.1 average distances is reached exactly, else half an average distance is covered; a counter is followed back at most to zero, and exactly to zero if that comes first |
| `Rate.ExtrapolatedExactly` | promql/functions.go:167-172 | the result relates to the increase or difference as the extrapolated interval to the sampled one |
| `Rate.PerSecondExactly` | promql/functions.go:173-178 | a rate times the range in milliseconds is a thousand times the increase |
| `Rate.ExtrapolationBounds` | promql/functions.go:127-172 | the interval extrapolated to covers the samples and never exceeds the range |
| `Rate.NeverBelowZero` | promql/functions.go:149-165 | following the average slope back to the chosen start never takes a counter below zero |
| `Rate.IncreaseBounds` | promql/functions.go:106-178 | the increase of a non-negative counter is at least what was observed and at most what its slope gives over the whole range |

## Left out

- The storage engine below the iterators (chunks, compression, compaction), the query parser, label hashing, relabelling and native histogram arithmetic: label sets, histograms and query results are opaque values here.
- Rounding, overflow and subnormals of floats: values are reals with tags for infinities and NaN, or 64-bit patterns in the codec. The tolerance test of the quantile is an arbitrary relation.
- Integer overflow of times and of buffer indices. An announced length near 2^63 makes the code report an invalid length where the model reports an unexpected end; both refuse the bytes.
- The readers of Label, Sample, BucketSpan, Exemplar and Histogram are recursive functions; only the loops of TimeSeries and of skipping are also written as loops. Reading into a message that is not empty is covered by the functions' second argument, not by the loop.
- Reuse of slices and histogram objects between steps, and the capacity hints and pools, of the window code: points are values, so aliasing of reused histograms is not modelled.
- The shared text of `addF`, `addH`, `addFH` and `addSample` is written once, over one element type.
- A second range vector among the arguments of one function, of which the engine would unwrap only the first; no function takes two. `timestamp()` applied directly to a pinned selector, which sets the offset anew at every step, and parameters of aggregations: the step-invariance model has neither.
- TimeRanges.RangeCovers: with `@` it is about what the meaning of a query needs, because the engine's reads of a slipped selector lie elsewhere; `EngineReads` is about the engine. Steps that the engine evaluates beyond the window of a pinned subquery and then discards are reads in neither. A subquery pinned to exactly `math.MaxInt64` milliseconds, which stands for no timestamp, is excluded.
- `limitk`, `limit_ratio`, and the order in which `topk` and `bottomk` return their samples.
- The histogram path of `extrapolatedRate`, and `HistogramQuantile`.
- The library sort before `coalesceBuckets` is a stable insertion by bound. The order of equal bounds does not matter: `Quantile.CoalescedCounts` and `Quantile.CoalescedDistinct` determine the merged buckets.
- Restoring alert state after a restart and copying it between groups; annotations and templates of alerts. `AlertingRuns` assumes evaluation times that increase and lie further from the zero time than the resend delay, which is not negative.
- RuleScheduling.Confluent: assumes that a rule sees only the metrics its selectors name and that no two rules write the same series, staleness markers included; storage errors are not modelled.
- Shutdown of the discovery manager, its ticker, and custom providers. What `allGroups` merges per job is kept per job and provider, which tells more states apart.
- Delivery of notifications over HTTP: a batch succeeds or fails as a whole, by choice of the environment.
