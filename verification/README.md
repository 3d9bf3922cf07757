# Verified model of the data plane's aggregation layer

A Dafny model of the parts of the data plane that keep state in memory or merge into stored rows,
with proofs of what every run of them keeps. Every component has a specification (datatypes and
functions that do what the source does, branch by branch), theorems about that specification, and,
where the source updates state in place, classes and loops proved equal to it.

| files | component |
|---|---|
| `EdgePairing`, `EdgeTheorems`, `EdgeOrigins`, `EdgeOnce`, `EdgeBalance`, `EdgeAccumulator` | pairing client and server spans into topology edges |
| `Samples`, `SampleRuns` | bounded latency samples per minute (RED metrics) and their percentiles |
| `TraceSummary` | trace summaries: in-memory deltas merged into stored rows |
| `EbpfAbi` | the division-avoiding token bucket and the log2 histogram slots |
| `LatencyP95`, `EbpfMetrics`, `EbpfPoints`, `EbpfFields`, `Watermark` | the percentile read off a histogram, aggregation of eBPF edge rows, the points it emits, and runs of the watermarked rounds |
| `Cleanup`, `CleanupRuns`, `CleanupService`, `ApmRetention` | retention: the multi-round cleanup scheduler and eviction over a size budget |
| `AliasCache` | the alias cache under concurrent readers and writers |
| `Ingest` | deduplicated ingest under failures and retries |
| `LogIndex` | log deletion through the index and through a scan |
| `KvPrefix` | ordered prefix ranges and pruning |
| `MergeSources` | the two-source edge view |
| `Spans`, `Totals`, `Progress`, `Arithmetic`, `Wrappers` | the span record, sums over maps and sequences, loops over key sets, small helpers |

Results named `...InFields` (and `EdgeOrigins`) say once more, in the raw fields and constants of the
inputs, what the specification's own definitions mean, so that no definition stands on its name alone.

`dafny verify dfyconfig.toml` checks everything. Lemmas over recursive functions carry
`{:induction false}`: every induction is written out.

## Where the code departs from its documentation

The model follows the code. Each departure below has a lemma that exhibits it or says exactly when
it shows.

- A flushed or reloaded trace delta restarts at 0, not at the largest time, so the stored start of a
  trace becomes 0 once a span meets such an entry (`TraceSummary.WrittenStartExactIff`,
  `TwoFlushesStartAtZero`). The intended reset is the other value of the model's `ResetPolicy`.
- Clean trace entries all end at 0, so eviction "oldest first" constrains nothing
  (`TraceSummary.EvictionIsBlind`).
- When a server arrives before its client, the dedup key is the client's parent. The client may be
  counted on its server and again by the flush (`EdgeOnce.DoubleCountRun`), counted again when it is
  replayed (`ReplayCountsTwice`), or not counted at all when a child span was recorded under this
  client's key (`ChildHidesCall`). `ServerFirstCount` and `ClientThenServerPairs` say for any state
  when it is exactly once; a guard keyed by the client's own id is the other value of `DedupKey`.
- The counter of dropped pending spans counts expired dedup records too, and never a server
  (`EdgeBalance.DroppedPendingCountsRecords`); over capacity only clients are dropped
  (`EdgeBalance.CapacityHeldIff`).
- A row that starts exactly on a minute is processed with the minute before it and may be
  overwritten, or never processed when the first watermark is that minute
  (`Watermark.CommittedMinuteCompleteIff`, `BoundaryRowIsLost`, `OriginRowIsLost`).
- Retention deletes summaries by their stored start, so a trace whose start was reset to 0 goes at the
  first positive cut, however recent it is (`ApmRetention.SummaryOutlivesCutIff`).
- `apm_edge_requests_total` and `apm_edge_errors_total` drop the port and the reason, so their points
  overwrite each other (`EbpfPoints.IdentitiesUniqueIff`, `SharedPointExactIff`, `TwoPortsLosePoints`).
- A retention of more than 106,751,991 days overflows; with one day more than that data goes at once
  (`Cleanup.DeadlineExactIff`, `OverflowingDeadline`).
- A delete or toggle of an alias invalidates only if a separate row-count query reports a hit
  (`AliasCache.MissedWriteServedIff`, `MissedDeleteStaysCached`, `MissedToggleStaysCached`).
- An empty label value in a log filter also selects records that lack the label on the index path
  (`LogIndex.IndexAgreesIff`).

## Model

| member | source | states |
|---|---|---|
| EdgeTheorems.EdgesConserve | crates/dataplane-apm/src/edge.rs:166-411 | in every run, for every scope and aspect, pending edges plus what flushes took equal all calls ever counted (calls, errors, duration sum, maximum) |
| EdgeTheorems.RowsConserve | crates/dataplane-apm/src/edge.rs:376-504 | stored rows plus increments lost to failed writes equal everything flushed, for any resolver answers, also when several targets resolve to one row; per target too, for a known target no answer names |
| EdgeTheorems.StoredRowsConserve | crates/dataplane-apm/src/edge.rs:341-504 | stored rows, lost increments and pending edges together equal everything counted: in all, per minute, source and agent, and per minute, source and target for a known target that no resolver answer names |
| EdgeTheorems.RowsHoldResolvedItems | crates/dataplane-apm/src/edge.rs:384-504 | row by row: any scope of the stored rows, one target included, gains exactly the accepted items that resolve into it |
| EdgeTheorems.SamplesConserve | crates/dataplane-apm/src/red.rs:154-248 | present and drained sample groups together account for every counted call, with drained groups only from closed minutes |
| EdgeTheorems.SamplesAgreeWithEdges | crates/dataplane-apm/src/edge.rs:231-259 | per minute, source and unresolved target, samples over statuses equal calls over agents, error samples equal errors, same sum and maximum |
| EdgeOrigins.CallsComeFromSpans | crates/dataplane-apm/src/edge.rs:166-411 | every call a run counts has the time, status, duration and service of an observed client span, the minute that holds its time, and the service of an observed server with that parent or the name the peer host gives |
| EdgeOrigins.KeysComeFromCalls | crates/dataplane-apm/src/edge.rs:203-411 | in every run pending edges, stored rows, sample groups and drained groups are keyed by counted calls (a row possibly by what its unknown target resolved to) |
| EdgeOrigins.CallsAreCountedInTheirMinute | crates/dataplane-apm/src/edge.rs:220-230 | in every run each call is counted in a minute that starts at a multiple of 60 seconds and holds its time, and so is every edge, row and sample group |
| EdgeOrigins.SameMinuteSameEdge | crates/dataplane-apm/src/edge.rs:220-230 | two counted calls share an edge exactly when one minute holds both times and services and agent are the same |
| EdgeOrigins.SumsAreOfCalls | crates/dataplane-apm/src/edge.rs:238-246 | the sums conserved are the number of a scope's calls, of those with status "error", and the sum and longest of their durations |
| EdgeOrigins.ObservingEvicts | crates/dataplane-apm/src/edge.rs:198-305 | after observing a client, or a server with a parent, exactly the pending spans and records older than two minutes before it are gone, victims apart |
| EdgeOrigins.ClockIsObserved | crates/dataplane-apm/src/edge.rs:166-200 | eviction has run at exactly the times of the spans that take part |
| EdgeTheorems.WriteBatchStores | crates/dataplane-apm/src/edge.rs:450-504 | reading back, adding and replacing item by item moves the whole batch into the rows or the lost list, in every scope that resolving moves no item into or out of |
| EdgeTheorems.ResolvesUnknownOnly | crates/dataplane-apm/src/edge.rs:384-400 | resolving renames only targets that start with unknown, only to the answer, and changes nothing else of the row |
| SampleRuns.DrainMoves | crates/dataplane-apm/src/red.rs:222-248 | draining closed groups moves their weight to the output and changes no total |
| SampleRuns.DroppedIsShortfall | crates/dataplane-apm/src/red.rs:84-248 | in every run of span and edge samples, the shared counter of dropped samples is exactly what present and drained groups of both sides counted beyond the samples they kept |
| EdgeOnce.CountedOncePerTtl | crates/dataplane-apm/src/edge.rs:203-305 | keyed by the client's own id: whatever step of a run counts a client again, some span observed before that step was more than the TTL newer than the earlier call, for any order, replay, eviction and flush |
| EdgeOnce.ServerFirstCount | crates/dataplane-apm/src/edge.rs:174-212 | for a client arriving in any state and flushed after its minute: which calls arrival and flush count, and that they are exactly one call if and only if it pairs on arrival exactly when something (a drop, a record of its own key, its own pairing) holds the flush back |
| EdgeOnce.OwnKeyCountsAtMostOnce | crates/dataplane-apm/src/edge.rs:174-216 | with the client's own id as key, arrival and flush together never count it twice, and once exactly if it pairs on arrival or is neither dropped nor already recorded |
| EdgeOnce.EarliestServerNamesCall | crates/dataplane-apm/src/edge.rs:174-196 | of two servers that wait for their client the first names the call's target, and it is one call |
| EdgeOnce.ClientThenServerPairs | crates/dataplane-apm/src/edge.rs:183-212 | the same for a client whose server comes next: the server counts exactly that client's call, in its minute and with its duration and status, unless something holds it back, and then no flush counts the client either |
| EdgeOnce.DoubleCountRun | crates/dataplane-apm/src/edge.rs:174-181 | the failing run of the written key: server, client, flush ends with one call on the server and one on the fallback target |
| EdgeOnce.ReplayCountsTwice | crates/dataplane-apm/src/edge.rs:174-212 | second failing run of the written key: client, server, another server, the client replayed; counted twice with nothing older than the TTL |
| EdgeOnce.ChildHidesCall | crates/dataplane-apm/src/edge.rs:174-212 | third failing run: a child recorded under its parent's key, then client and server; the client is neither counted, nor waiting, nor evicted |
| EdgeBalance.ClientsAreConserved | crates/dataplane-apm/src/edge.rs:166-411 | when each client comes once and before its servers: clients seen = counted + waiting + evicted, and none is counted twice |
| EdgeBalance.CapacityHeldIff | crates/dataplane-apm/src/edge.rs:284-299 | after eviction pending spans fit the capacity exactly when the waiting servers do; otherwise no client is left |
| EdgeBalance.EvictionIsExact | crates/dataplane-apm/src/edge.rs:267-283 | nothing older than two minutes stays and nothing younger goes, victims apart: clients, servers and dedup records |
| EdgeBalance.FlushTakesClosed | crates/dataplane-apm/src/edge.rs:347-374 | a flush takes exactly the clients whose minute closed and turns exactly the uncounted ones into calls on their fallback target |
| EdgeBalance.DroppedPendingCountsRecords | crates/dataplane-apm/src/edge.rs:267-305 | the dropped counter is evicted clients plus expired dedup records, in every run |
| EdgeBalance.PairedEdgesCountPairs | crates/dataplane-apm/src/edge.rs:203-264 | the counter of paired edges is every counted call that is not a fallback of a flush |
| EdgeBalance.DroppedSamplesAccounted | crates/dataplane-apm/src/red.rs:154-187 | the edges' share of the dropped samples is exactly the shortfall of present and drained edge groups, which keep as many samples as counted up to the cap |
| EdgeAccumulators.EdgeAccumulator.ObserveSpan | crates/dataplane-apm/src/edge.rs:166-200 | in-place observe equals the specified step, with the oldest clients as victims |
| EdgeAccumulators.EdgeAccumulator.RecordCall | crates/dataplane-apm/src/edge.rs:203-264 | in-place record equals the specified one and reports whether the call was counted |
| EdgeAccumulators.EdgeAccumulator.ObserveClientSpan | crates/dataplane-apm/src/edge.rs:173-182 | the client branch of observe, loop over waiting servers included |
| EdgeAccumulators.EdgeAccumulator.ObserveServerSpan | crates/dataplane-apm/src/edge.rs:183-196 | the server branch of observe |
| EdgeAccumulators.EdgeAccumulator.EvictPending | crates/dataplane-apm/src/edge.rs:267-305 | expiry and capacity eviction in place; victims are the oldest clients, of the right number |
| EdgeAccumulators.EdgeAccumulator.ExpirePending | crates/dataplane-apm/src/edge.rs:267-283 | servers, clients and dedup records older than the TTL go; clients and records are counted |
| EdgeAccumulators.EdgeAccumulator.EvictOverflow | crates/dataplane-apm/src/edge.rs:284-299 | the oldest clients go, as many as the overflow and no more than there are |
| EdgeAccumulators.EdgeAccumulator.DropOldestClients | crates/dataplane-apm/src/edge.rs:287-297 | no client dropped is newer than one kept |
| EdgeAccumulators.EdgeAccumulator.TakeForFlush | crates/dataplane-apm/src/edge.rs:347-382 | the locked part of a flush: every closed waiting client and every edge is taken |
| EdgeAccumulators.EdgeAccumulator.TakeFallbacks | crates/dataplane-apm/src/edge.rs:350-374 | every client whose minute closed leaves; those not counted yet become fallback edges and samples |
| EdgeAccumulators.EdgeAccumulator.WriteItems | crates/dataplane-apm/src/edge.rs:385-411 | written + lost = items of the batch, rows as specified |
| EdgeAccumulators.EdgeAccumulator.Flush | crates/dataplane-apm/src/edge.rs:341-411 | take, resolve and write; rows and state as specified for any outcome of resolver and store |
| EdgeAccumulators.EdgeTable.ReadAddReplace | crates/dataplane-apm/src/edge.rs:450-504 | one row read back, added to and replaced |
| Samples.GroupDescribesDurations | crates/dataplane-apm/src/red.rs:154-187 | a group counts, sums and bounds every duration of its key and keeps the first ones up to the cap, in order |
| Samples.SortSorts | crates/dataplane-apm/src/red.rs:222-235 | sorting orders the samples and keeps them with multiplicity |
| Samples.DrainClosed | crates/dataplane-apm/src/red.rs:222-248 | exactly the groups whose minute is over leave, each listed once with its statistics |
| Samples.DrainedSamplesSorted | crates/dataplane-apm/src/red.rs:222-248 | drained samples are sorted and the ones kept |
| Samples.PercentileIsNearestRank | crates/dataplane-apm/src/red.rs:58-64 | a percentile is a sample with at least p percent up to it and less than p percent below it |
| Samples.RedSamples.Observe | crates/dataplane-apm/src/red.rs:154-187 | one sample on one side; the other side unchanged; overflow counted |
| Samples.RedSamples.TakeClosed | crates/dataplane-apm/src/red.rs:190-197 | closed groups of both sides are taken, open ones stay |
| TraceSummary.SettledIsSummary | crates/dataplane-apm/src/accumulator.rs:152-405 | in every run the stored row merged with in-flight and pending deltas is the summary of the kept spans in order of arrival (counts, errors, end, services, collector, earliest root with first arrival winning ties, start per reset policy) |
| TraceSummary.SettledRowInFields | crates/dataplane-apm/src/accumulator.rs:152-405 | the same in the spans' fields: start, service and name of the parentless span that starts first (first arrival on ties), latest timestamp plus duration, number of spans and of those with status "error" up to 32 bits, services, last collector |
| TraceSummary.SpansAccounted | crates/dataplane-apm/src/accumulator.rs:152-266 | each span seen is kept or lost exactly once; none lost means all kept in order |
| TraceSummary.BatchingIsInvisible | crates/dataplane-apm/src/accumulator.rs:124-405 | two lossless runs that stored the same spans of a trace hold the same row, whatever their flushes, evictions, restarts and reloads; start and duration only for equal lateness or the intended reset |
| TraceSummary.WrittenStartExactIff | crates/dataplane-apm/src/accumulator.rs:243-243 | the written reset stores the earliest start exactly when no stored span met a reset or reloaded entry |
| TraceSummary.TwoFlushesStartAtZero | crates/dataplane-apm/src/accumulator.rs:236-245 | failing run: two spans flushed separately give start 0 and a duration equal to the latest end |
| TraceSummary.EvictionIsBlind | crates/dataplane-apm/src/accumulator.rs:269-288 | any clean entries of the right number satisfy the eviction order, since all end at 0 |
| TraceSummary.MergeSums | crates/dataplane-apm/src/accumulator.rs:304-405 | merging a delta into a row gives the summary of both span lists, for saturating counts and the 0 sentinels |
| TraceSummary.ObserveSums | crates/dataplane-apm/src/accumulator.rs:152-181 | observing a span extends the summary by that span |
| TraceSummary.SummaryUnique | crates/dataplane-apm/src/accumulator.rs:304-405 | a span list has at most one summary row |
| TraceSummary.FlushIsARun | crates/dataplane-apm/src/accumulator.rs:228-266 | what the flush method does is a valid sequence of machine steps: take, writes, eviction |
| TraceSummary.TraceTable.FlushOne | crates/dataplane-apm/src/accumulator.rs:304-405 | read-merge-replace of one row |
| TraceSummary.TraceSummaryAccumulator.Observe | crates/dataplane-apm/src/accumulator.rs:152-181 | field-by-field update of one delta, others untouched; the root becomes the span's timestamp, service and name exactly when it has no parent and starts before the root so far |
| TraceSummary.TraceSummaryAccumulator.Take | crates/dataplane-apm/src/accumulator.rs:236-248 | the batch is exactly the nonempty deltas, each reset |
| TraceSummary.TraceSummaryAccumulator.WriteAll | crates/dataplane-apm/src/accumulator.rs:250-262 | each trace of the batch is merged where the store accepts it, others untouched |
| TraceSummary.TraceSummaryAccumulator.Flush | crates/dataplane-apm/src/accumulator.rs:228-266 | snapshot, reset, write each trace, evict; failed writes lose their delta |
| TraceSummary.TraceSummaryAccumulator.EvictIfNeeded | crates/dataplane-apm/src/accumulator.rs:269-288 | clean entries with the least end, as many as the overflow and no more than there are |
| TraceSummary.TraceSummaryAccumulator.Reload | crates/dataplane-apm/src/accumulator.rs:124-149 | recent traces are registered with nothing pending; existing deltas stay |
| EbpfAbi.TokensPerTickIsCeiling | crates/ebpf-abi/src/lib.rs:352-360 | the rate per tick is the least that does not underestimate the rate per second |
| EbpfAbi.RefillExactIff | crates/ebpf-abi/src/lib.rs:382-400 | the wrapping refill equals the unbounded one for every level and time exactly when the settings fit |
| EbpfAbi.DerivedBurstFits | crates/ebpf-abi/src/lib.rs:414-423 | settings with a burst derived from a rate always fit |
| EbpfAbi.DerivedBurstIsTenth | crates/ebpf-abi/src/lib.rs:414-423 | a derived burst is a tenth of the rate per second, at least one and at most ten thousand |
| EbpfAbi.WrappedRefillStarves | crates/ebpf-abi/src/lib.rs:382-400 | concrete settings whose refill wraps to an empty bucket |
| EbpfAbi.StepIsIdeal | crates/ebpf-abi/src/lib.rs:371-406 | a call admits exactly when the ideal refill holds a token, and leaves one less |
| EbpfAbi.WindowAdmitsAtMost | crates/ebpf-abi/src/lib.rs:371-406 | every window of a run admits at most one bucket plus the ticks inside it times the rate, wrapping or not |
| EbpfAbi.FirstBurstIsAdmitted | crates/ebpf-abi/src/lib.rs:371-406 | the first calls of a fresh bucket, up to its size, are all admitted |
| EbpfAbi.HistSlotBrackets | crates/ebpf-abi/src/lib.rs:432-442 | a slot holds exactly the values between its power of two and the next; the last is open |
| EbpfAbi.HistSlotMonotone | crates/ebpf-abi/src/lib.rs:432-442 | larger values have no smaller slot |
| LatencyP95.HistogramP95 | crates/dataplane-apm/src/ebpf_metrics.rs:421-434 | the loop finds the first slot whose cumulative count reaches 95 percent |
| LatencyP95.P95IsSlotOfNearestRank | crates/dataplane-apm/src/ebpf_metrics.rs:421-443 | for every histogram representing the samples, the result is 2^(slot of the nearest-rank p95 + 1) |
| LatencyP95.P95WithinFactorTwo | crates/dataplane-apm/src/ebpf_metrics.rs:436-443 | above the true p95 and at most twice it on [1, 2^32), with the two outer cases |
| LatencyP95.MergeRepresents | crates/dataplane-apm/src/ebpf_metrics.rs:246-257 | slot-wise addition with padding gives the histogram of the pooled samples |
| LatencyP95.MergedP95 | crates/dataplane-apm/src/ebpf_metrics.rs:246-257 | the p95 of merged rows is that of all their samples pooled, to the slot |
| LatencyP95.Accumulate | crates/dataplane-apm/src/ebpf_metrics.rs:252-257 | resize and add loop |
| LatencyP95.NearestRankIsPercentile | crates/dataplane-apm/src/red.rs:58-64 | the rank used is that of the exact percentile |
| EbpfMetrics.AggregateRows | crates/dataplane-apm/src/ebpf_metrics.rs:183-258 | the accumulation loop over rows |
| EbpfMetrics.CountRow | crates/dataplane-apm/src/ebpf_metrics.rs:194-245 | the counters one row adds to |
| EbpfMetrics.AddDurationOf | crates/dataplane-apm/src/ebpf_metrics.rs:246-257 | the duration entry one row adds to, a new one starting from zeros of its length |
| EbpfMetrics.SeriesHoldsItsRows | crates/dataplane-apm/src/ebpf_metrics.rs:194-245 | each series is the sum of what the rows of its minute, edge and detail add, and exists only if one does |
| EbpfMetrics.AggregationConserves | crates/dataplane-apm/src/ebpf_metrics.rs:183-258 | per minute, source and target, each metric's series sum to the rescan of the rows |
| EbpfMetrics.ConnectionsTotal | crates/dataplane-apm/src/ebpf_metrics.rs:405-414 | the rescan loop |
| EbpfMetrics.DurationsSumTheirRows | crates/dataplane-apm/src/ebpf_metrics.rs:246-257 | an edge's duration entry sums its rows, keeps the longest, merges the histograms |
| EbpfMetrics.AverageAtMostMax | crates/dataplane-apm/src/ebpf_metrics.rs:356-386 | emitted average at most emitted maximum when every row's sum is at most connections times its maximum |
| EbpfPoints.Aggregate | crates/dataplane-apm/src/ebpf_metrics.rs:183-402 | each series is emitted once under its own identity with its value, nothing else is an `ebpf_*` point, and no identity repeats exactly when the rows are uniform |
| EbpfPoints.DurationPointsSurvive | crates/dataplane-apm/src/ebpf_metrics.rs:246-402 | after a window is written the store holds, per edge and minute, the duration sum over the connections of its rows, the longest duration of its rows and the percentile of all their histograms merged, each under its own identity, or what it had before |
| EbpfPoints.IdentitiesUniqueIff | crates/dataplane-apm/src/ebpf_metrics.rs:260-402 | `ebpf_*` points never share an identity; all points are distinct exactly when each edge uses one port and one failure reason per minute |
| EbpfPoints.EbpfIdInjective | crates/dataplane-apm/src/ebpf_metrics.rs:261-355 | different series have different identities |
| EbpfPoints.EbpfPointsSurvive | crates/dataplane-apm/src/ebpf_metrics.rs:260-355 | each `ebpf_*` counter point is in the store with its own value after the window |
| EbpfPoints.SharedPointExactIff | crates/dataplane-apm/src/ebpf_metrics.rs:273-329 | the shared requests or errors point is the edge's total exactly when all but the last emitted series are zero |
| EbpfPoints.TwoPortsLosePoints | crates/dataplane-apm/src/ebpf_metrics.rs:261-331 | concrete window of two rows with two ports and two failure reasons: both shared points end up below the edge's total, in any order of emission |
| EbpfPoints.LastSeriesStays | crates/dataplane-apm/src/ebpf_metrics.rs:273-329 | of several series with one identity the last stays |
| EbpfFields.CountersInFields | crates/dataplane-apm/src/ebpf_metrics.rs:183-355 | after a window is written the store holds, under the identity made of a row's own fields and minute, the connections, retransmits, resets, failures and bytes each way summed over exactly the rows that agree in them |
| EbpfFields.DurationsInFields | crates/dataplane-apm/src/ebpf_metrics.rs:246-386 | and the average and longest duration over the rows of the same services and minute, by measurement and field name |
| EbpfFields.SharedPointInFields | crates/dataplane-apm/src/ebpf_metrics.rs:273-331 | connections end up under the shared requests measurement and failures under the shared errors one, as the value of one series of the edge |
| Watermark.WindowsTile | crates/dataplane-apm/src/ebpf_metrics.rs:69-100 | committed windows tile the time line, minute-aligned, without gap or overlap, in every run |
| Watermark.WatermarkNeverDecreases | crates/dataplane-apm/src/ebpf_metrics.rs:69-100 | the watermark never decreases and its origin never moves, even when the clock goes back |
| Watermark.WatermarkIsSetByRound | crates/dataplane-apm/src/ebpf_metrics.rs:69-100 | in every run the watermark is the last full minute at least the lag before the clock of some round |
| Watermark.LagLeavesRoom | crates/dataplane-apm/src/ebpf_metrics.rs:69-100 | no watermark is ahead of the greatest clock seen minus the lag, so a row no later than the lag is still to be processed |
| Watermark.StoreHoldsCommitted | crates/dataplane-apm/src/ebpf_metrics.rs:69-100 | with rounds failing after any prefix of writes, each settled series holds what its last committed window summed |
| Watermark.CommittedMinuteIsComplete | crates/dataplane-apm/src/ebpf_metrics.rs:69-123 | without rows exactly on the minute, a committed minute's point is its full sum |
| Watermark.CommittedMinuteCompleteIff | crates/dataplane-apm/src/ebpf_metrics.rs:69-123 | with them, exactly when not: a window ended on the minute, rows lie inside it and those on it count; or the first watermark was that minute and no row lies inside it |
| Watermark.BoundaryRowIsLost | crates/dataplane-apm/src/ebpf_metrics.rs:115-115 | failing run: two rounds, and only the second row's connections remain |
| Watermark.OriginRowIsLost | crates/dataplane-apm/src/ebpf_metrics.rs:69-123 | failing run: a row exactly on the first watermark is in no window and its committed minute has no point |
| Watermark.Aggregator.RunOnce | crates/dataplane-apm/src/ebpf_metrics.rs:69-100 | one round, complete or failing part way, is a valid step; a complete one sets the watermark to, or advances it exactly when later than it is, the last full minute at least the lag before now |
| Watermark.Aggregator.WritePoints | crates/dataplane-apm/src/ebpf_metrics.rs:91-97 | points are written in order up to the failing one |
| Watermark.LoadRows | crates/dataplane-apm/src/ebpf_metrics.rs:102-148 | the rows of the half-open window |
| Cleanup.LiveItemsMergeSpecs | bins/dataserver/src/cleanup.rs:178-230 | an item is live exactly when an enabled spec names it with a nonempty id; longest retention, first nonempty kind |
| Cleanup.LiveItemsInFields | bins/dataserver/src/cleanup.rs:137-230 | in the specs' fields: live exactly when an enabled spec has the nonempty id; the most days any asks for, with 3 for an eBPF kind and 1 for others as default and at least 1 |
| Cleanup.ParseAgentSpecs | bins/dataserver/src/cleanup.rs:186-230 | the merge loop over specs |
| Cleanup.DeadlineExactIff | bins/dataserver/src/cleanup.rs:277-278 | the deadline is exact if and only if it fits in 64 bits |
| Cleanup.CutoffExactIff | bins/dataserver/src/cleanup.rs:480-481 | the cutoff is exact if and only if the days fit |
| Cleanup.OverflowingDeadline | bins/dataserver/src/cleanup.rs:278-278 | one day more than fits: deadline in the past, cutoff at the largest time |
| Cleanup.FailedFetchSchedulesNothing | bins/dataserver/src/cleanup.rs:537-563 | a round without a list keeps live keys, and retain keys only fall due |
| Cleanup.RoundKeepsValid | bins/dataserver/src/cleanup.rs:258-305 | live and retain keys stay disjoint and nonempty |
| Cleanup.LeavingIsScheduled | bins/dataserver/src/cleanup.rs:258-305 | who gets a deadline, who loses one, who is live, and that all other deadlines stay |
| Cleanup.LiveLogsKeepTheirRetention | bins/dataserver/src/cleanup.rs:470-492 | a live item's log goes exactly when a list was fetched and the record is as old as the retention |
| Cleanup.LivePointsAndEdgesKeepTheirRetention | bins/dataserver/src/cleanup.rs:386-427 | exactly which points of a live item go (only when it keeps fewer days than the store) and which edges (only for eBPF items) |
| Cleanup.RemovedKeyMeansRemovedData | bins/dataserver/src/cleanup.rs:430-516 | a deadline goes exactly when it has come, with all logs of the item, exactly its edges before now and exactly its points before a positive deadline |
| Cleanup.OtherItemsUntouched | bins/dataserver/src/cleanup.rs:386-520 | items neither listed nor due lose nothing |
| Cleanup.LogsFirstLosesPoints | bins/dataserver/src/cleanup.rs:564-566 | in the other order a due item's points outlive its deadline key |
| CleanupRuns.DeadlinesAreTracked | bins/dataserver/src/cleanup.rs:258-305 | in every run: live keys are the latest list, and each deadline is no earlier than the last sighting plus the retention then |
| CleanupRuns.AbsentItemsOutliveTheirRetention | bins/dataserver/src/cleanup.rs:525-579 | data of an unlisted item goes only after its last recorded retention elapsed with no sighting in between |
| CleanupRuns.ListedItemsKeepTheirRetention | bins/dataserver/src/cleanup.rs:525-579 | a listed item's log goes exactly when it is as old as the latest list's retention, in a round that fetched one |
| CleanupRuns.PurgedItemsLeaveNothing | bins/dataserver/src/cleanup.rs:430-516 | over runs the deadline is positive, so a purged item leaves no log, no earlier edge and no point before it |
| CleanupServices.DeleteEdgesBefore | crates/dataplane-apm/src/ebpf_retention.rs:45-91 | exactly the matching rows go, in matches / batch + 1 batches, whichever rows each batch picks |
| CleanupServices.DeleteBatch | crates/dataplane-apm/src/ebpf_retention.rs:53-84 | one statement deletes up to the batch size of matching rows |
| CleanupServices.CleanupService.MarkRemovedItems | bins/dataserver/src/cleanup.rs:258-305 | both loops in place |
| CleanupServices.CleanupService.ScheduleLeft | bins/dataserver/src/cleanup.rs:266-291 | items that left get their deadline and lose their live key |
| CleanupServices.CleanupService.AdmitListed | bins/dataserver/src/cleanup.rs:292-304 | listed items lose their deadline and get their live key |
| CleanupServices.CleanupService.ApplyTsRetention | bins/dataserver/src/cleanup.rs:386-453 | loops over live items and retain keys; the result counts the items and the due positive deadlines |
| CleanupServices.CleanupService.ApplyRetention | bins/dataserver/src/cleanup.rs:470-520 | loops over live items and retain keys, keys deleted last; the results are the logs and edges that went |
| CleanupServices.CleanupService.PurgeDue | bins/dataserver/src/cleanup.rs:493-516 | due items lose logs, edges and then the key; the results are the logs and edges that went |
| CleanupServices.CleanupService.RunCleanup | bins/dataserver/src/cleanup.rs:525-579 | one pass equals the specified round, prunes the ingest keys older than the deduplication window, and reports exactly what went |
| CleanupServices.CleanupService.PruneIngestKeys | bins/dataserver/src/cleanup.rs:567-572 | exactly the keys that start with `ingest/` and hold no time or one before now minus the days go, key order is kept, and zero days keep all |
| ApmRetention.EvictedTwice | crates/dataplane-apm/src/retention.rs:173-209 | cutting at two times is cutting at the later |
| ApmRetention.StepIsLeast | crates/dataplane-apm/src/retention.rs:138-141 | the step is the least one not shorter than the configured seconds (one at least) and than the window divided by the rounds |
| ApmRetention.OldestGoFirst | crates/dataplane-apm/src/retention.rs:173-225 | survivors are exactly the rows at or after the cut, and only APM data is touched |
| ApmRetention.SummaryOutlivesCutIff | crates/dataplane-apm/src/retention.rs:191-193 | over every run of the trace accumulator: a stored summary outlives a cut exactly when none of its spans started before it, and one reset to start 0 exactly when the cut is not positive |
| ApmRetention.RoundLimitLeavesShortTail | crates/dataplane-apm/src/retention.rs:136-155 | hitting the round limit leaves fewer than that many microseconds |
| ApmRetention.NothingOlderThanNow | crates/dataplane-apm/src/retention.rs:142-146 | `no_apm_data_left` means no such row older than now |
| ApmRetention.ApmRetention.Run | crates/dataplane-apm/src/retention.rs:105-170 | for any size measurements the pass ends, its reason is right, and exactly the APM rows before the cutoff plus rounds times the longer of configured seconds and the window's share are gone, or before now when that comes first |
| ApmRetention.ApmRetention.EvictUntilWithin | crates/dataplane-apm/src/retention.rs:131-166 | the eviction loop: each round was over budget and before the end of the window, the reason fits, and the rows gone are exactly those before the time that many rounds reach |
| ApmRetention.ApmStores.EvictOlderThan | crates/dataplane-apm/src/retention.rs:173-209 | one cut with its counts |
| AliasCache.ResolvesAreFresh | crates/dataplane-apm/src/alias.rs:310-374 | under any interleaving, a resolve begun after an invalidating write returned uses a table that has it, and its row comes from that write or a later one |
| AliasCache.RunInv | crates/dataplane-apm/src/alias.rs:353-374 | records loaded under a version were read after the version was reached |
| AliasCache.MissedWriteServedIff | crates/dataplane-apm/src/sink.rs:206-227 | a delete or toggle whose row count reads zero returns without invalidating, and the next resolve misses it exactly when the cache holds an unexpired table of the current version from before it |
| AliasCache.ServedOldIff | crates/dataplane-apm/src/alias.rs:353-374 | under any interleaving: a resolve begun after a change was stored is done with records from before it exactly when its own check of the cache hit such records |
| AliasCache.MissedDeleteStaysCached | crates/dataplane-apm/src/sink.rs:221-227 | failing run: a deleted row still answers |
| AliasCache.MissedToggleStaysCached | crates/dataplane-apm/src/sink.rs:206-218 | failing run: a row switched off still answers as it was |
| AliasCache.SlowReaderStoresOlder | crates/dataplane-apm/src/alias.rs:367-373 | a slow reader replaces a newer table by an older one |
| AliasCache.RowDependsOnLastTouch | crates/dataplane-apm/src/alias.rs:172-244 | a row is what the changes up to its last touch made of it |
| AliasCache.RowIsLastWrite | crates/dataplane-apm/src/alias.rs:172-244 | a row exists exactly when the last change that wrote its id was an upsert, and is that record with the switch and time of the last toggle since |
| AliasCache.BestMatch | crates/dataplane-apm/src/alias.rs:322-351 | the winner by kind, then newest, then first listed; none exactly when nothing matches; a record naming the process answers before one beginning its name, that before one beginning the pod's, that before an address block |
| AliasCache.WinnerAnswersInOrder | crates/dataplane-apm/src/alias.rs:322-410 | the winner in the records' and the query's own fields: which kind answers, when a record of it qualifies, and that it is the newest and first listed of them |
| AliasCache.BestOfKind | crates/dataplane-apm/src/alias.rs:336-350 | the newest enabled match of one kind, the first listed on ties |
| AliasCache.WinnerIsUnique | crates/dataplane-apm/src/alias.rs:322-351 | at most one record wins |
| AliasCache.Cache.Load | crates/dataplane-apm/src/alias.rs:353-374 | after any run whose state the fields mirror, an uninterrupted load mirrors the protocol's resolve, and its records list the enabled rows of the table as of the changes that resolve says |
| AliasCache.Cache.Invalidate | crates/dataplane-apm/src/alias.rs:310-312 | bumping the version is the protocol's step, after any run |
| AliasCache.Cache.Cached | crates/dataplane-apm/src/alias.rs:357-365 | the locked check is the protocol's step, after any run of other readers and writers |
| AliasCache.Cache.Keep | crates/dataplane-apm/src/alias.rs:367-372 | the locked store is the protocol's step, whatever is in the cache by then |
| AliasCache.Cache.Resolve | crates/dataplane-apm/src/alias.rs:322-351 | the winner among those records, in the order of the kinds, with fields and reader as the protocol says |
| Ingest.SuccessAccountsForAll | crates/dataplane-ingest/src/lib.rs:225-247 | a successful reply's failures are the invalid records in order, and accepted + failures = records |
| Ingest.BatchFailsIff | crates/dataplane-ingest/src/lib.rs:202-247 | a batch fails exactly when it names no agent, is empty, an engine call of one of its records fails, or it has a record to take and the stream index cannot be written |
| Ingest.FaultlessBatchSucceeds | crates/dataplane-ingest/src/lib.rs:202-247 | a batch of a named agent whose engine calls work succeeds, and every valid id of it is marked |
| Ingest.WrittenOncePerPrune | crates/dataplane-ingest/src/lib.rs:263-503 | when marking succeeds whenever the write did, writes of an id are at most one more than prunes of its key, over any run |
| Ingest.SuccessMeansWritten | crates/dataplane-ingest/src/lib.rs:202-247 | once a batch with the record succeeded it has been written exactly once plus once per earlier prune |
| Ingest.MarksAreAcceptanceTimes | crates/dataplane-ingest/src/lib.rs:494-503 | a mark is the clock at the record's first occurrence in the batch that accepted it, and later batches leave it |
| Ingest.RetryAfterSuccessWritesNothing | crates/dataplane-ingest/src/lib.rs:488-503 | sending an accepted batch again changes nothing |
| Ingest.FailedMarkWritesTwice | crates/dataplane-ingest/src/lib.rs:494-503 | without a successful mark a retry writes again |
| Ingest.IngestService.ApplyWithSinks | crates/dataplane-ingest/src/lib.rs:202-247 | the record loop, stopping at the first engine error |
| Ingest.IngestService.ApplyRecord | crates/dataplane-ingest/src/lib.rs:263-344 | validate, look up, write, mark |
| Ingest.PrunedIdIsWrittenAgain | bins/dataserver/src/cleanup.rs:567-572 | after a prune an accepted batch writes a record again exactly when it was not marked or was marked before the cutoff |
| LogIndex.IndexAgreesIff | crates/dataplane-log/src/lib.rs:656-673 | index query and label post-filter agree on every record exactly when no value is empty (or the range is) |
| LogIndex.ToIndexedFilter | crates/dataplane-log/src/lib.rs:656-673 | the translation loop; fails exactly on an unindexed key |
| LogIndex.TopDocs | crates/dataplane-log/src/lib.rs:596-612 | the limit of matching documents, or all of them when there are fewer |
| LogIndex.DeletesExactlyIff | crates/dataplane-log/src/lib.rs:506-509 | deleting by id removes exactly the selected records exactly when no other shares an id |
| LogIndex.DeleteInBatches | crates/dataplane-log/src/lib.rs:481-522 | everything selected goes; with unique ids it succeeds exactly below the round limit and returns the number |
| LogIndex.DeleteByScan | crates/dataplane-log/src/lib.rs:525-550 | the same while the scan cap is not reached |
| LogIndex.DeleteMatching | crates/dataplane-log/src/lib.rs:478-550 | both paths remove exactly the matching records and return their number, within the limits |
| KvPrefix.ScanPrefix | crates/dataplane-kv/src/lib.rs:189-212 | the early break returns exactly the prefixed entries, which are one contiguous run |
| KvPrefix.NoPrefixAfterForeign | crates/dataplane-kv/src/lib.rs:202-206 | in byte order no prefixed key follows a foreign one |
| KvPrefix.LessIsBytewise | crates/dataplane-kv/src/lib.rs:189-212 | the order of keys is by the first byte in which they part, the shorter first |
| KvPrefix.MicrosRoundTrip | crates/dataplane-kv/src/lib.rs:250-252 | eight little-endian bytes and 64-bit times are in bijection |
| KvPrefix.MicrosInBytes | crates/dataplane-kv/src/lib.rs:248-252 | a time is its eight bytes, least significant first, in two's complement; other lengths hold none |
| KvPrefix.PrunePrefixBefore | crates/dataplane-kv/src/lib.rs:214-246 | exactly prefixed entries with no time or an earlier one go, and are counted |
| KvPrefix.PruneIsIdempotent | crates/dataplane-kv/src/lib.rs:214-246 | what stays is exactly every entry without the prefix or with a time not before the cutoff, and a second prune removes nothing |
| KvPrefix.StampedKeyGoesIff | crates/dataplane-ingest/src/lib.rs:494-503 | an ingest key falls exactly when it was accepted before the cutoff |
| MergeSources.MergedRowsDescribe | crates/dataplane-apm/src/query.rs:402-444 | a merged row sums all rows of its key: counters, maximum, truncated average, protocol empty, single or mixed |
| MergeSources.MergedRowInFields | crates/dataplane-apm/src/query.rs:402-444 | column by column: each counter is the sum over all rows of the key, the average rounds down, span kind and agent are the first that are not empty |
| MergeSources.SourcesCommute | crates/dataplane-apm/src/query.rs:402-444 | the merged view does not depend on the order of the sources, but for first span kind and agent |
| MergeSources.MergeRows | crates/dataplane-apm/src/query.rs:402-444 | the in-place fold |
| MergeSources.AbsorbRow | crates/dataplane-apm/src/query.rs:411-435 | one row added into a merged one, field by field |

## Left out

- Floating point: f64 counters and ratios are exact integers, rationals (95 percent as 95 * total <= 100 * cumulative) or reals. With exact ratios the trailing default of the percentile loop cannot be reached.
- Saturation of the u64/i64 counters, sums and histogram slots of edges, samples and eBPF rows: they are unbounded naturals. The token bucket, the trace counters (u32) and the retention deadlines (i64) keep their widths.
- TraceSummary.SettledIsSummary: needs positive timestamps (ingest rejects others) below the largest time and span ends that do not overflow; agent, host and data ids of a summary are not modelled.
- TraceSummary.BatchingIsInvisible: one flush at a time; two concurrent flushes of one trace could interleave their read and replace.
- EdgeOnce.CountedOncePerTtl: for the variant keyed by the client's own id. The written key has no such bound; ServerFirstCount and ClientThenServerPairs give its exact counts, arrival by arrival.
- EdgeAccumulators.EdgeAccumulator.RecordCall: without the data id, the peer host, port and pod and the constant span kind of an edge entry.
- EdgeAccumulators.EdgeTable.ReadAddReplace: without the same columns of the stored row; the peer address that a resolver would look up is an arbitrary answer instead.
- EdgeBalance.DroppedSamplesAccounted: the edges' samples only; SampleRuns.DroppedIsShortfall has both sides.
- TraceSummary.TraceTable.FlushOne: without the agent, host and data id columns of a summary row.
- TraceSummary.TraceSummaryAccumulator.Observe: without the agent, host and data ids of a delta.
- Ingest.IngestService.ApplyRecord: without the span and eBPF-edge branches, whose sinks swallow their errors.
- Store errors inside one round of cleanup: marking that fails half way is ignored by the source and not modelled, nor is the zero-hit tracker or the series and tombstone counts of the report.
- CleanupRuns.ListedItemsKeepTheirRetention: for clocks that do not go back and retentions whose deadlines fit in 64 bits; Cleanup.DeadlineExactIff is the exact bound.
- CleanupServices.DeleteEdgesBefore: the row count read after a statement is that statement's own.
- JSON and serde, SQL text, HTTP, IP address parsing (address blocks are already parsed), key formatting (keys are values), jieba tokenisation (a message is its set of words; a text field indexes its whole value, the empty one included).
- Clocks, time-to-live and directory sizes: arguments with arbitrary values. Locks: each locked region is one step.
- Concurrent ingest of the same id.
- AliasCache.Cache.Resolve: methods run one at a time; interleaved readers are the Step machine, whose locked steps are the methods Cached, Keep and Invalidate. A listing is in any order.
- Emission order of points: any enumeration of the maps' keys.
- The candidate limit of the merged search, paging, search_* totals, HTTP, the PromQL and storage engines, configuration, adapters and kernel-side programs.
