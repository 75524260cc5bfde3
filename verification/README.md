# VPSiner, verified in Dafny

VPSiner watches one host: it samples host and container metrics, follows container logs, and keeps both in
SQLite. This project models the parts of it whose correctness depends on several functions working together,
and proves what those parts are for. `dafny verify dfyconfig.toml` checks everything.

**Logs.** Rows live in one table per ISO week with instants kept relative to the week. `LogStore` gives the
specification of a query (one flat `(ts, id)` list, filtered, cut at the cursor, nearest rows) and the pruned
week-by-week scan; `ShardedStore` is the mutable store whose `Query` is proved equal to that specification, and
`LogAnswers` tells a page over the stored rows and the fields of the request; `LogPaging` follows cursors; `Calendar` is the week file name and its inverse. `LogIngest` is a step machine of
one service's ingestion (deliver, take, append week by week, advance a checkpoint, reconnect, crash and restart,
clock, cleanup). Flushes may overlap. `LogOverlap` proves which steps keep saved checkpoints answerable for durable
lines, in every interleaving, and `LogLoss` what the others cost; `LogRecovery` proves that a crash then loses nothing
the replay does not bring back, `LogLedger` that every accepted line is accounted for, and `LogDuplicates` which lines
can be accepted twice. `LogBuffer` holds the mutable objects and proves that each of their methods takes exactly the
machine's steps. `FlushWakeup` interleaves the pusher and the flush worker of a service and proves that no wake-up is
lost.

**Metrics.** `Bucketizer` and `BucketMeans` say what a closed bucket's value is and what it means; `CounterRun`
covers whole runs of one series: capped buffer against full history, and conservation of the counter; `SeriesRun` tells
which buckets a run emits and which of them have a rate.
`Collectors` holds the mutable buffers, bucketizers and a whole series through one collector. `ContainerBuckets` and
`ContainerCollector` are the collector of many containers with its idle eviction, `ContainerRows` tells what its rows
say of the readings, and `ContainerRun` covers its whole runs.
`ContainerLife` reduces what the collector keeps of a container, at any rate of collection, to two numbers that decide
every row. `SlowestCollection` works this out for one sample per bucket and `DenseCollection` for two or more;
`SteadyContainer` and `SteadyLoad` are containers under a steady load at either rate. `Buckets`, `HostMetrics` and
`Downsampling` are the one-pass downsampler against group-by, `HostAnswers` tells its rows over the samples; `Rollup`, `MetricsStore`, `Materialisation` and
`MaterialisedRuns` are the coarse tables written as buckets close and trimmed by retention, against batch downsampling
of the 10s table.

**Dictionary and retention.** `ServiceRegistry` and `RegistryState` are the service ids with their write-through
cache and debounced watermark. `Retention` and `RetentionPass` are the cleanup pass: where it cuts, and why no
surviving row or checkpoint refers to a dropped id. `Prelude` and `Weeks` are shared vocabulary.

Weeks are named by their Monday midnight in milliseconds. Floating-point values are `real`; integer totals,
floor means and the final rounding are exact. `u64` values are bounded, timestamps are unbounded integers. Store
calls, write failures, clocks and the outcome of interning are parameters of the methods and steps that need
them. The content hash of a line is taken to be injective.

## What turned out not to hold

* Overlapping flushes of one service (an inline flush from `push` beside the worker's, `src/logs/buffer.rs:169-171`
  and `:292`) can save a checkpoint that answers for a line still in flight. `LogLoss.OverlapLoses` gives a run
  in which a crash then loses that line for good, for any two lines of rising time. A step of any interleaving is safe
  exactly when it does not save a mark, newer than the stored one, while a wanted line up to the mark's first line still
  waits (`LogOverlap.StepKeepsSoundIff`); every run that never does so is sound, overlap and crashes included
  (`LogOverlap.SafeRunIsSound`), and flushing one batch at a time never does so (`LogOverlap.SerialIsNeverRisky`).
* The dedup remembers one line per container, so of two lines on one millisecond one can be accepted again after the
  stream reconnects. Short of a crash a line can be accepted twice exactly when its container wrote another line at the
  same instant (`LogDuplicates.AcceptedTwiceIffTied`).
* A failed inline flush that finds no worker reschedules nothing. `FlushWakeup.FailedInlineFlushIsForgotten` gives a
  run for every backlog limit; `FlushWakeup.StepKeepsInvIff` shows this is the only branch that loses a wake-up.
* With the slowest permitted collection (one sample per bucket, `src/config.rs:48`), a container that joins in a batch
  completing a bucket is evicted at every second sample and never reported; so is one whose first CPU share cannot be
  computed; and two buckets in a row without a share, which one container restart costs, silence a container for good
  even after earlier rows. `SlowestCollection.ReportedOncePerBucket` decides every sample of every such run,
  `SlowestCollection.ReportedIffJoinedQuietly` says when there is any row at all, and
  `ContainerRun.CollectorReportsIffJoinedQuietly` states it of runs of the whole collector. With two or more samples in
  every bucket, as at the default interval (`src/config.rs:46`), this does not last: whatever happened before, once the
  shares exist every closing from the third on has its row (`DenseCollection.ReportedFromTheThird`), and a container
  that joins in a batch completing a bucket waits exactly one bucket longer than another (`DenseCollection.LateJoinerWaitsOneMore`,
  `SteadyLoad.LateByOneBucket`). `ContainerLife.ReportedExactly` decides every sample at any rate.
* The debounce mark of a service is set before the write it stands for. A failed touch keeps the watermark bound exactly
  when it had nothing to raise (`Retention.StepKeepsInvIff`, `Retention.LagBoundNeedsTheWrite`); for every cutoff on an
  hour `Retention.FailedTouchOrphans` is a run in which the cleanup spares an hourly row and drops its id.
* `slice_by_range` needs rows in time order, but container rows are read in `(cid, ts)` order. While time moves forward
  no row lies past a closed bucket (`Rollup.NothingPastWhileForward`), and then the slice is right exactly when no row
  before the range stands behind one inside it (`Rollup.SliceIsRangeIffPartitioned`), whichever boundary a binary search
  stops at (`Rollup.TailIsRangeIffPartitioned`). Two containers suffice to lose rows (`Rollup.TwoContainersLoseRows`),
  even on a read whose wanted rows stand together (`Rollup.ContiguousReadStillLosesItsRow`).
* A roll-up stops at the first failed write and is not repeated. The coarse tables stay equal to the batch exactly when
  no closed bucket with a row to store was missed (`Materialisation.InsertKeepsIff`).
* Retention keeps the coarse row stamped exactly at the cutoff and drops the 10s rows it was made from, so a run with
  deletes keeps the equality for the buckets that end after the cutoff (`MaterialisedRuns.IncrementalEqualsBatch`).
* `docs/API.md:636` promises that an `after` request without new items repeats its cursor. When the service
  directory does not exist the code returns no cursor (`src/logs/store.rs:325-327`); the model follows the code.

## Model

| member | source | states |
|---|---|---|
| LogStore.PageLimit | src/logs/store.rs:330 | whatever limit is asked for, a page has room for 1 to 100 rows |
| LogAnswers.LimitHasRoom | src/logs/store.rs:330 | exactly the number asked for within 1 to 100, the nearer of the two outside, and 100 when nothing was asked |
| LogAnswers.PageAnswers | src/logs/store.rs:490-559 | every row of the page is stored, lies in the range, has a listed level and stream where any is listed, matches the text and lies on the cursor's side; rows rise; a stored row that meets all this and is missing lies beyond a full page; the flag of the scan's side is set exactly when one is missing; the cursors are those of the first and last row |
| LogStore.FlatTimelineIsTheTimeline | src/logs/store.rs:472-488 | the week tables read one after the other are the one list strictly rising by (ts, id) that holds exactly the stored rows |
| LogStore.TimelineIsUnique | src/logs/store.rs:300-401 | no other ordered listing of the stored rows exists, so the flat list is the specification |
| LogStore.PruningLosesNothing | src/logs/store.rs:472-488 | a week skipped for its range or for lying beyond the cursor holds no matching row past the cursor |
| LogStore.SelectIsWeekScan | src/logs/store.rs:490-559 | relative bounds, cursor condition, order and LIMIT inside one table pick the nearest hits of that week's part of the timeline |
| LogStore.ScanIsHits | src/logs/store.rs:455-470 | visiting the weeks in scan direction lists the hits of the whole timeline in scan order |
| LogStore.CandidatesScanTheTimeline | src/logs/store.rs:455-488 | scanning only the pruned candidates gives the same hits as scanning every week |
| ShardedStore.GroupByWeek | src/logs/store.rs:258-264 | a batch is split into exactly the weeks it touches, each with its lines in batch order |
| ShardedStore.Inserted | src/logs/store.rs:280-292 | new rows keep ids rising, extend the table and decode to the instants and contents that were appended |
| ShardedStore.ReadOneMore | src/logs/store.rs:333-372 | one more week read with the remaining limit extends the hits found so far as one read of both would |
| ShardedStore.StopEarly | src/logs/store.rs:334-337 | once the page and its surplus row are in hand the unread weeks cannot change the result |
| ShardedStore.AssembleIsPageOf | src/logs/store.rs:374-401 | dropping the surplus row, reversing and choosing cursors and flags gives the nearest rows oldest first, with the beyond flag true exactly when more exist |
| ShardedStore.Fetch | src/logs/store.rs:333-372 | the early-stopping loop returns the first target rows of the full scan |
| ShardedStore.ServiceShards.Append | src/logs/store.rs:258-298 | a batch commits week by week: success exactly when no touched week fails; a committed week gains each of its lines as often as the batch holds it, another week nothing, and old rows stay in place |
| ShardedStore.ServiceShards.Query | src/logs/store.rs:300-401 | for every store, filter, limit and cursor the page equals the specification over the flat timeline, and answers the request condition by condition |
| ShardedStore.ServiceShards.DeleteBefore | src/logs/store.rs:224-256 | exactly the weeks starting before the cutoff are unlinked |
| LogPaging.PastIsTheTimelineOrder | src/logs/store.rs:525-559 | for a cursor handed out with a row the cursor condition is the strict (ts, id) order |
| LogPaging.BackwardPage | src/logs/store.rs:374-400 | a backward page is the slice of matches ending at its anchor, and its flags tell the truth on both sides |
| LogPaging.ForwardPage | src/logs/store.rs:374-400 | a forward page is the slice right after its anchor, and an exhausted one echoes its cursor |
| LogPaging.BackwardPagingIsComplete | src/logs/store.rs:313-400 | following the older cursor until nothing is older terminates and yields each older match exactly once, in order |
| LogPaging.PagingFromTheNewestPage | src/logs/store.rs:313-400 | from the newest page this is every matching row |
| LogPaging.NextPageContinues | src/logs/store.rs:313-400 | from any page the newer cursor returns exactly the rows that come next |
| Calendar.NameYearIsThursdaysYear | src/logs/helpers.rs:168-179 | the December and January corrections choose the year of the week's Thursday |
| Calendar.IsoWeekRoundTrip | src/logs/helpers.rs:181-188 | the Monday computed from year and week is the Monday of the day they were computed from |
| Calendar.FileNameParses | src/logs/helpers.rs:168-188 | a formatted week name parses back to its year and week, negative years included |
| Calendar.WeekKeyRoundTrip | src/logs/helpers.rs:168-188 | for every supported instant the week read back from its file name is the Monday midnight at most a week before it |
| Calendar.WeekNamesAreInjective | src/logs/helpers.rs:168-188 | two instants share a file name exactly when they share a Monday |
| Calendar.WeekNameIsShaped | src/logs/helpers.rs:168-179 | every name is the Thursday's year without sign or zero in front (a minus when negative), `_w`, exactly two digits and `.db` |
| Calendar.ParsedWeekExists | src/logs/helpers.rs:181-188 | a year and week are read back as a day only if the year has that week, and naming that day gives them back |
| LogIngest.DroppedIsHeld | src/logs/buffer.rs:156-162 | a line the dedup drops is already held by whatever the mark answers for |
| LogIngest.ReplaySkipsOnlyCovered | src/docker/mod.rs:517-528 | every wanted line before the floored resume second is covered by the saved mark, clamp included |
| LogIngest.AllLanded | src/logs/store.rs:258-296 | an append that committed every touched week stored the whole batch |
| LogIngest.AppendKeepsHeld | src/logs/buffer.rs:215-232 | landed, partly landed or restored, no line of a batch leaves the store, the batches and the buffer |
| LogIngest.StepKeepsInv | src/logs/buffer.rs:153-252 | outside a crash every step keeps all marks and positions answered for, even with overlapping flushes |
| LogIngest.CrashKeepsInv | src/logs/buffer.rs:50-89 | a restart from saved marks, or without them when the service id is gone, is answered for by durable rows alone |
| LogIngest.SerialStep | src/logs/buffer.rs:192-252 | without overlap every step, crash included, keeps saved marks covered by durable rows |
| LogIngest.AtLeastOnce | src/logs/buffer.rs:192-252 | over every run without overlapping flushes saved checkpoints have every wanted line up to them durable and every delivered line is held |
| LogIngest.NothingLostWhileUp | src/logs/buffer.rs:153-252 | over every run without a crash, overlapping flushes and partial appends included, no delivered wanted line is lost |
| LogOverlap.StepKeepsSound | src/logs/buffer.rs:192-252 | every step, crash and overlapping flush included, that does not save a mark over a line still waiting keeps all promises |
| LogOverlap.AdvanceIsSafeIffNothingOlderWaits | src/metadata/mod.rs:183-205 | saving a mark keeps the table's marks covered by durable lines exactly when the table holds a newer one or no wanted line of the container, up to the first that carries the mark, is still in flight or buffered |
| LogOverlap.StepKeepsSoundIff | src/logs/buffer.rs:242-250 | a step of any interleaving keeps every promise exactly when it is not such a save, lines sharing a millisecond included |
| LogOverlap.SafeRunIsSound | src/logs/buffer.rs:169-171 | over every run without such a save, overlapping flushes and crashes included, saved checkpoints answer for durable lines and delivered lines are held |
| LogOverlap.SerialIsNeverRisky | src/logs/buffer.rs:192-252 | a run without overlapping flushes never makes such a save |
| LogLoss.OverlapLoses | src/logs/buffer.rs:169-171 | for any clock and retention and any two lines of a container within them, the second later than the first, an overlapping inline flush and a crash lose the older line behind its own checkpoint; within one second when the restart knows the saved mark |
| LogRecovery.CheckpointAnswers | src/metadata/mod.rs:183-205 | after a run that never saves a mark over a waiting line a wanted line older than the saved mark, or equal to it, has a durable row |
| LogRecovery.ReplayLeavesNoGap | src/docker/mod.rs:517-566 | after a run that never saves a mark over a waiting line every wanted line before the point a restarted stream reads from is durable |
| LogRecovery.ResumePointNeverGoesBack | src/docker/mod.rs:539-566 | no step moves the resume second back, so a checkpoint read early only replays more |
| LogRecovery.CrashReplayFlushRecovers | src/logs/buffer.rs:50-89 | from any point of any such run a crash, one replay and one flush leave every wanted line of the container durable |
| LogLedger.Conserved | src/logs/buffer.rs:153-232 | in every interleaving durable, in-flight, buffered, crashed and expired copies of a line add up to its accepted copies plus those stored by partial appends |
| LogLedger.SequenceKept | src/logs/buffer.rs:192-232 | without overlap, partial appends, crash or cleanup the accepted lines in order are the durable ones, the batch under way, then the buffer |
| LogDuplicates.ExactlyOnceWhileUp | src/logs/buffer.rs:153-167 | short of a crash a line that shares its instant with no other line of its container is not accepted twice, whatever is replayed, nor stored twice when appends are whole |
| LogDuplicates.AcceptedTwiceIffTied | src/logs/buffer.rs:146-162 | some crash-free run accepts a written line twice exactly when its container has a different line at the same instant |
| LogBuffer.AppendStores | src/logs/store.rs:258-296 | committing some weeks adds exactly the batch's lines of those weeks to the tables, in order |
| LogBuffer.DeleteKeeps | src/logs/store.rs:224-256 | unlinking the weeks before a Monday keeps exactly the lines from it on |
| LogBuffer.FlushOutcome | src/logs/buffer.rs:192-252 | the run take, append, advance, finish ends in one of three ways: nothing to do, landed with marks saved, or restored |
| LogBuffer.FlushKeepsPromises | src/logs/buffer.rs:192-252 | such a flush keeps every promise of the ingestion invariants |
| LogBuffer.ServiceState.Push | src/logs/buffer.rs:153-167 | a line is dropped exactly when it is older than its container's mark or repeats it, and otherwise buffered and marked |
| LogBuffer.ServiceState.Take | src/logs/buffer.rs:192-213 | a flush takes the whole buffer, and the mark of exactly each container with a line in it |
| LogBuffer.ServiceState.Restore | src/logs/buffer.rs:218-228 | failed lines return ahead of newer ones |
| LogBuffer.CheckpointTable.Advance | src/metadata/mod.rs:183-205 | a checkpoint is replaced unless the stored one is newer |
| LogBuffer.CheckpointTable.DeleteBefore | src/metadata/mod.rs:266-273 | exactly the checkpoints before the cutoff are dropped |
| LogBuffer.Ingestor.Push | src/logs/buffer.rs:153-175 | pushing takes the machine's delivery step |
| LogBuffer.Ingestor.SaveMarks | src/logs/buffer.rs:233-250 | once the service has its id every mark of the batch is saved unless its write is refused or the stored one is newer, and no other mark moves |
| LogBuffer.Ingestor.FlushService | src/logs/buffer.rs:192-252 | for every outcome of the append, the interning and each checkpoint write: if no touched week fails the buffer is empty, every week has gained its lines and the marks are saved; otherwise the buffer and the saved marks are as before and no failing week has gained a line; either way these are the machine's steps |
| LogBuffer.Ingestor.DeleteBefore | src/retention.rs:17-48 | exactly the weeks and, if the metadata store answers, the marks before the cutoff go, which is the machine's cleanup step |
| LogBuffer.Ingestor.Restart | src/logs/buffer.rs:50-89 | a new process has an empty buffer and the saved marks, or none when the service is not known, which is the machine's crash step |
| FlushWakeup.StepKeepsInvIff | src/logs/buffer.rs:114-144 | a step of pusher or worker keeps the wake-up invariant exactly when it is not a request dropped for lack of a channel while lines are buffered |
| FlushWakeup.NoLostWakeup | src/logs/buffer.rs:265-313 | in every interleaving without such a drop, buffered lines with no push in progress have a token in a live worker's channel or a worker about to take |
| FlushWakeup.InlineSuccessIsAlwaysHeard | src/logs/buffer.rs:254-262 | runs without a failed inline append never drop a request |
| FlushWakeup.FailedInlineFlushIsForgotten | src/logs/buffer.rs:254-262 | for every backlog limit some run ends with restored lines, no push, and no worker step that does anything |
| FlushWakeup.PendingFlushIsTaken | src/logs/buffer.rs:265-313 | from a pending flush the worker alone, every step enabled, takes all buffered lines |
| FlushWakeup.EveryLineAccounted | src/logs/buffer.rs:192-232 | in every interleaving of pusher and worker, failed appends included, every accepted line is stored, in the hands of a flush, or in the buffer |
| FlushWakeup.FailedAppendRestores | src/logs/buffer.rs:215-232 | a failed append of either puts its whole batch back and leaves a request to be made |
| Bucketizer.BucketPointsRise | src/metrics/bucketizer.rs:148-182 | the points of a bucket rise strictly in time from its start boundary to its end boundary |
| Bucketizer.PointsInRange | src/metrics/bucketizer.rs:107-182 | every point, interpolated ones included, lies within the range of the samples used |
| BucketMeans.GaugeBetweenSamples | src/metrics/bucketizer.rs:211-234 | a gauge's mean lies between the least and greatest sample used, boundary neighbours included, before and after rounding |
| BucketMeans.CoveredTold | src/metrics/bucketizer.rs:107-182 | a bucket is covered exactly when there is a sample in the bucket before it, one in it, and one on its end or in the bucket after it |
| BucketMeans.GaugeDefined | src/metrics/bucketizer.rs:211-234 | a gauge bucket has a value exactly when it has an opening, a closing and an inside sample |
| BucketMeans.GaugeExactOnLines | src/metrics/bucketizer.rs:211-234 | a gauge moving along a line gets its value at the middle of the bucket wherever it was sampled |
| BucketMeans.GaugeExactOnBends | src/metrics/bucketizer.rs:211-234 | a gauge that bends at a sample inside the bucket has the areas under both lines shared over the bucket |
| BucketMeans.ResetRejects | src/metrics/bucketizer.rs:322-331 | a fall between any two samples from the opening to the closing neighbour leaves the bucket without a value |
| BucketMeans.EndNotBelowStart | src/metrics/bucketizer.rs:310-349 | once the scan accepts, the interpolated end is not below the interpolated start, so the later rejection is unreachable |
| BucketMeans.CounterDefined | src/metrics/bucketizer.rs:300-350 | a counter bucket has a value exactly when it is covered, free of resets and its rate fits |
| BucketMeans.RateIsRise | src/metrics/bucketizer.rs:333-361 | a stored rate times the bucket length is the boundary rise in millionths up to half a bucket length |
| BucketMeans.CounterExactOnLines | src/metrics/bucketizer.rs:300-361 | a counter rising along a line gets the slope of the line, rounded, wherever it was sampled |
| BucketMeans.BoundaryValue | src/metrics/bucketizer.rs:107-142 | a boundary has the value of the sample that stands there, or of the straight line between its neighbours exactly when both lie in the two buckets that meet there |
| CounterRun.CapacityHoldsEightBuckets | src/metrics/bucketizer.rs:17-21 | a buffer has room for exactly as many samples as fit into eight buckets, and for four at least |
| CounterRun.BoundedEqualsUnbounded | src/metrics/bucketizer.rs:15-21 | for samples a collection interval apart, collecting the closed bucket from the capped buffer equals collecting from the full history, gauges and counters |
| CounterRun.RunsAgree | src/metrics/collector_host.rs:116-126 | over a whole run the capped buffer emits what unlimited memory would |
| CounterRun.BoundaryIsStable | src/metrics/bucketizer.rs:107-142 | a boundary value once known is not changed by later samples |
| CounterRun.EmissionsAccount | src/metrics/collector_host.rs:116-126 | every emitted rate is stated against the boundary values of the full history |
| CounterRun.CounterConservation | src/metrics/bucketizer.rs:300-350 | the rates of n consecutive emitted buckets satisfy abs(sum times B minus 10^6 times the rise) at most n times B over 2 |
| Collectors.BufferIsTail | src/metrics/bucketizer.rs:74-87 | the buffer is always the newest part of everything accepted |
| Collectors.SampleBuffer.Push | src/metrics/bucketizer.rs:74-87 | older and duplicate instants are ignored and the oldest samples leave when the capacity is exceeded |
| Collectors.SampleBuffer.InterpolateBoundary | src/metrics/bucketizer.rs:107-142 | the search returns the exact sample or the value on the segment between the nearest admissible neighbours |
| Collectors.SampleBuffer.CollectPoints | src/metrics/bucketizer.rs:147-182 | both boundary points around the raw samples strictly between them, or nothing without a sample in the bucket |
| Collectors.GaugeBucketizer.Collect | src/metrics/bucketizer.rs:211-234 | the loop computes the gauge value of the specification, its order check never firing |
| Collectors.CounterBucketizer.OpeningIndex | src/metrics/bucketizer.rs:310-313 | the scan from the right finds the opening neighbour exactly when there is one |
| Collectors.CounterBucketizer.ClosingIndex | src/metrics/bucketizer.rs:314-318 | the scan from the left finds the closing neighbour exactly when there is one |
| Collectors.CounterBucketizer.Collect | src/metrics/bucketizer.rs:300-350 | the loops compute the counter rate of the specification |
| Collectors.SeriesCollector.Observe | src/metrics/collector_host.rs:116-126 | a sample past the bucket seen last emits exactly that bucket, collected with the sample already in the buffer: its rate is there exactly when the bucket is covered, free of resets and fits, and is then the rise in thousandths per second |
| Collectors.CollectSeries | src/metrics/collector.rs:38-62 | a whole series through the mutable collector emits each bucket some sample lies past exactly once, by rising end; with samples an interval apart each rate is there exactly when the bucket is covered, free of resets and fits in the full history, and every stretch of consecutive buckets conserves the counter |
| SeriesRun.FullRunMeans | src/metrics/collector_host.rs:116-126 | over the full history a run emits one emission for each pair of neighbouring samples in different buckets, with the earlier one's bucket, and its rate as just said |
| SeriesRun.ClosedIsCovered | src/metrics/bucketizer.rs:300-318 | where no bucket was skipped every closed bucket but the first is covered |
| SeriesRun.UnbrokenSeriesHasRates | src/metrics/bucketizer.rs:300-350 | a series that never falls and skips no bucket has a rate for every bucket after the first, bucket after bucket, so that its conservation speaks of the whole run |
| ContainerBuckets.SeriesPushed | src/metrics/collector_containers.rs:47-60 | field by field a container's readings behave as seven capped buffers |
| ContainerBuckets.RowNeedsOnlyTheShare | src/metrics/collector_containers.rs:62-91 | a container has a row for a bucket exactly when its CPU share is computable: the memory mean is never what is missing |
| ContainerBuckets.OthersDoNotDisturb | src/metrics/collector_containers.rs:132-144 | a batch without a container's samples leaves that container as it was |
| ContainerBuckets.SilentContainerIsDropped | src/metrics/collector_containers.rs:153-170 | a container silent for two completed buckets is forgotten and reports neither |
| ContainerCollector.NewestTs | src/metrics/collector_containers.rs:119-124 | the loop finds the newest instant of a batch |
| ContainerCollector.Flush | src/metrics/collector_containers.rs:153-170 | in whatever order entries are visited, each one settles the bucket and exactly the available rows are returned |
| ContainerCollector.ContainerCollectorState.Observe | src/metrics/collector_containers.rs:117-151 | every container moves on by its own samples and the completed bucket alone and takes over the service and CPU count of its newest reading; every row is stamped with the bucket completed and says what the readings in its container's buffer say |
| ContainerRows.RowTells | src/metrics/collector_containers.rs:62-91 | each of the four rates is the slope, in thousandths per second, of its own field where that rises along a line and absent where it falls; the memory lies between the least and greatest reading used; the CPU share is the CPU's slope over the system's times the CPU count; the service is the entry's |
| ContainerRows.FedFollows | src/metrics/collector_containers.rs:132-144 | after a batch a container has the service and CPU count of its newest reading in it, and without one all is as before |
| ContainerRun.RunContainers | src/metrics/collector.rs:14-36 | over any run of batches the mutable collector leaves every container where its own run takes it and each batch returns exactly the rows of those runs |
| ContainerRun.FedByItsOwn | src/metrics/collector_containers.rs:132-144 | a batch does to a container what its own samples in it would do alone |
| ContainerRun.RunIsItsOwn | src/metrics/collector_containers.rs:117-151 | in a run of the whole collector a container with a sample in every batch fares as its own samples alone, at any rate, given what its first batch completed |
| ContainerRun.CollectorReportsExactly | src/metrics/collector_containers.rs:117-170 | the newest batch of the whole collector reports the container exactly when its own samples have a row due |
| ContainerLife.RoomyFromSpacing | src/metrics/bucketizer.rs:15-21 | with samples a collection interval apart the capped buffer never drops what the closing bucket needs |
| ContainerLife.ReportedExactly | src/metrics/collector_containers.rs:117-170 | at any rate the collector keeps exactly the samples from the index the two-number life of the container gives, and the newest sample's batch emits a row exactly when the sample closes a bucket, the first one kept stands before that bucket, and the bucket has its share in the full history |
| DenseCollection.ReportedFromTheThird | src/metrics/collector_containers.rs:153-170 | with at least two samples in every bucket entered, whatever happened in the first m samples, a container whose shares exist from then on has a row at every closing from the third on |
| DenseCollection.LateJoinerWaitsOneMore | src/metrics/collector_containers.rs:132-170 | at such a rate, with all later shares present, rows come at exactly the closings from the second on, or from the third on for a container that joined in a batch completing a bucket |
| SteadyLoad.SteadyIsReportedIff | src/metrics/collector_containers.rs:62-91 | for every container without restart under a steady load, sampled at least twice in every bucket, the shares are there and exactly these closings have rows |
| SteadyLoad.LateByOneBucket | src/config.rs:46 | sampled every five seconds, each second sample has a row from the fifth on, or from the seventh for a late joiner |
| ContainerRun.CollectorReportsIffJoinedQuietly | src/metrics/collector_containers.rs:117-170 | the collector ever reports such a container exactly when its first batch completed no bucket and the share of its second sample's bucket is computable |
| SlowestCollection.ShareFromLastThree | src/metrics/collector_containers.rs:74-91 | however long the history, the share of the bucket just closed depends on the last three samples |
| SlowestCollection.LateJoinerStarves | src/metrics/collector_containers.rs:153-170 | first seen in a batch completing a bucket, the container is dropped at every second sample and never reported, however long the run |
| SlowestCollection.ReportedOncePerBucket | src/metrics/collector_containers.rs:117-170 | at one sample per bucket a sample's batch emits a row exactly when the container joined quietly, no two shares in a row nor the first one were missing before, and the share of the bucket just closed is computable |
| SlowestCollection.ReportedIffJoinedQuietly | src/metrics/collector_containers.rs:117-170 | there is any row at all exactly when it joined quietly and its first share is computable |
| SlowestCollection.RestartSilencesForGood | src/metrics/bucketizer.rs:322-331 | once a CPU counter falls, after a sample not standing exactly on a bucket end, no later sample of the container is ever reported |
| SteadyContainer.SteadyIsReported | src/metrics/collector_containers.rs:177-197 | a concrete steady container that joined quietly is reported with every sample from the third on |
| SteadyContainer.SteadyLateJoinerIsNot | src/metrics/collector_containers.rs:153-170 | the same container joining in a batch that completes a bucket is not reported even once |
| SteadyContainer.RestartedIsSilenced | src/metrics/collector_containers.rs:153-170 | restarted once, it is never reported again, whatever rows it had before |
| Buckets.BucketEnd | src/metrics/downsampling.rs:12-15 | the end is the only bucket end within one length at or after the instant |
| Buckets.BucketEndIsRoundedUp | src/metrics/downsampling.rs:12-15 | the negated floor division of the source computes it for negative instants too |
| Buckets.EndCovers | src/metrics/downsampling.rs:12-15 | every instant of a bucket has that bucket's end |
| Buckets.BucketEndRises | src/metrics/downsampling.rs:12-15 | ends never fall back as time moves on and move by whole buckets |
| HostMetrics.MeanWithinGroup | src/metrics/downsampling.rs:107-127 | every floor mean of a row lies within its group |
| HostMetrics.OptionalMeanWithinGroup | src/metrics/downsampling.rs:72-88 | optional fields average present values only and are absent only when none is present |
| HostMetrics.SilenceIsAGap | src/metrics/downsampling.rs:28-52 | the silence exceeds a threshold exactly when two neighbouring instants among start, samples and end are further apart |
| HostMetrics.NothingDroppedAtFullGap | src/metrics/downsampling.rs:44-51 | at 100 percent no bucket with a sample is dropped |
| Downsampling.GapIsSilence | src/metrics/downsampling.rs:28-52 | the edges and interior gap tracked in one pass are the longest silence of the bucket |
| Downsampling.HostGauges.Add | src/metrics/downsampling.rs:91-105 | running totals stay the totals of the group seen so far |
| Downsampling.HostGauges.Finish | src/metrics/downsampling.rs:107-127 | finishing yields the row of the group, or nothing when it is empty or silent for too long |
| HostAnswers.TooSilentTold | src/metrics/downsampling.rs:44-51 | a bucket is silent for too long exactly when two neighbouring instants among start, samples and end are further apart than the percentage of its length |
| HostAnswers.SummaryTells | src/metrics/downsampling.rs:107-127 | every field of a row is the floor mean of that field over the bucket's samples, optional fields over the samples that have them and absent when none has |
| Downsampling.GroupByExtended | src/metrics/downsampling.rs:130-153 | a later sample changes only its own bucket's row of the group-by |
| Downsampling.DownsampleHost | src/metrics/downsampling.rs:130-153 | the single pass over ordered samples emits strictly rising rows that are exactly the group-by table: a bucket has one exactly when it has a sample and no two neighbouring instants are further apart than the percentage, and every field is its floor mean |
| Rollup.BucketsNest | src/model/metrics.rs:244-257 | the fine bucket of an instant lies inside its coarse bucket for every pair of resolutions |
| Rollup.BucketHoldsRows | src/model/metrics.rs:244-257 | a minute, five-minute and hour bucket hold exactly 6, 30 and 360 ten-second ends |
| Rollup.ClosedBucketsNest | src/metrics/rollup.rs:37-53 | every bucket a step closes lies inside the widest one it closes |
| Rollup.InRangeOfInRange | src/metrics/rollup.rs:64-88 | a range read out of a wider read is the range read of the table |
| Rollup.PartitionPoint | src/metrics/rollup.rs:57-58 | the binary search finds how many rows precede the bound |
| Rollup.SliceByRange | src/metrics/rollup.rs:55-60 | on rows in time order the slice is exactly the rows in the range |
| Rollup.SliceIsRangeIffPartitioned | src/metrics/rollup.rs:55-60 | on a read in container order with no row past the range, the slice the search returns is the range exactly when no row before the range stands behind one inside it |
| Rollup.TailIsRangeIffPartitioned | src/metrics/rollup.rs:57 | the same holds for every boundary a binary search may stop at |
| Rollup.NothingPastWhileForward | src/metrics/rollup.rs:92-124 | while time moves forward the wide read of a step holds no row past any bucket the step closes |
| Rollup.SliceableIffContiguous | src/metrics/rollup.rs:55-60 | some slice of a read in container order, found or not, is the range exactly when no row outside it stands between two inside it |
| Rollup.OneContainerIsPartitioned | src/metrics/schema.rs:336-355 | rows of one container are never out of order for the search |
| Rollup.OneContainerIsContiguous | src/metrics/schema.rs:336-355 | nor do rows outside a range stand between two of its own |
| Rollup.TwoContainersLoseRows | src/metrics/schema.rs:336-355 | whenever one container has a row in the range and one sorted after it a row before the range, the slice is wrong |
| Rollup.NoSliceIsTheLastMinute | src/metrics/schema.rs:336-355 | two containers with rows in the last two minutes of an hour leave no slice at all that is the last minute |
| Rollup.ContiguousReadStillLosesItsRow | src/metrics/rollup.rs:55-60 | a two-row read with a right slice from which the search still returns nothing |
| MetricsStore.Rows | src/metrics/schema.rs:315-334 | a table read is all its rows by strictly rising key |
| MetricsStore.RollOne | src/metrics/rollup.rs:72-87 | a bucket cut out of the wide read downsamples to what a read of its own range gives |
| MetricsStore.SqliteMetricsStore.constructor | src/metrics/store.rs:90-93 | opening a store sets the cursor to the newest 10s row |
| MetricsStore.SqliteMetricsStore.RollUpHost | src/metrics/rollup.rs:64-88 | reading once and slicing writes what a separate range read per resolution would, up to the first failed write |
| MetricsStore.SqliteMetricsStore.InsertHost | src/metrics/store.rs:157-171 | a fresh row is inserted, the cursor advanced and the closed buckets rolled up as far as writes succeed, without failing the insert; a duplicate instant is refused and changes nothing |
| Materialisation.CoarseStep | src/metrics/store.rs:115-120 | the bucket left open by the newest row is never stored, and once time leaves it one roll-up stores it for good |
| Materialisation.RolledBucketIsBucketRow | src/metrics/rollup.rs:26-34 | what the store reads for a closed bucket is that bucket of the batch |
| Materialisation.InsertKeepsIff | src/metrics/store.rs:157-171 | an insert that moves time forward keeps every coarse table equal to the batch exactly when no closed bucket with a row to store was missed by its roll-up |
| Materialisation.CompleteMissesNothing | src/metrics/rollup.rs:64-88 | a roll-up whose writes all succeed misses nothing |
| Materialisation.InsertTells | src/metrics/store.rs:157-171 | a fresh row is in the 10s table and each coarse table changes only at the end of the bucket that time just left: there, if its write was reached, stands the row that is due for the 10s rows of that bucket, each field their floor mean, and nothing new if none is due |
| MaterialisedRuns.TrimmedBucket | src/metrics/schema.rs:389-406 | a delete removes no 10s row of a bucket that ends after the cutoff |
| MaterialisedRuns.TrimmedRows | src/metrics/schema.rs:389-406 | what a delete leaves of a table is exactly the part of its listing from the cutoff on |
| MaterialisedRuns.DeleteKeeps | src/metrics/store.rs:141-155 | a delete at a Monday, stopping at any failed table, keeps the coarse tables equal to the batch in every bucket that ends after the greatest cutoff |
| MaterialisedRuns.IncrementalEqualsBatch | src/metrics/store.rs:141-171 | over every run of rising inserts that miss no row, restarts and deletes, the coarse tables are batch downsampling of the 10s table without the open bucket in every bucket that ends after the greatest cutoff, in all of them before the first delete, even across jumps |
| ServiceRegistry.LoadedIsCoherent | src/metadata/service_registry.rs:43-56 | a preloaded cache mirrors the table both ways |
| ServiceRegistry.CacheKnowsTheTable | src/metadata/service_registry.rs:59-84 | the cache knows a name exactly when the table does, under the same id |
| ServiceRegistry.InternKeepsCoherence | src/metadata/service_registry.rs:59-84 | interning keeps both directions mutual inverses equal to the table, even when the store fails |
| ServiceRegistry.InternTells | src/metadata/service_registry.rs:59-84 | within an hour of its mark a name is answered and nothing changes; otherwise, if the store answers, it gets its own id or one never handed out, its row is seen now or later, and no other row changes; if not, nothing but the mark changes |
| ServiceRegistry.ReclaimTells | src/metadata/service_registry.rs:91-110 | exactly the services last seen before the cutoff are gone from the table and from the cache |
| ServiceRegistry.ReclaimKeepsCoherence | src/metadata/service_registry.rs:91-110 | reclaiming drops exactly the ids the table dropped from both directions |
| ServiceRegistry.StepNeverRebinds | src/metadata/mod.rs:136-150 | a step never renames a bound id and binds only ids never handed out |
| ServiceRegistry.NeverRebound | src/metadata/mod.rs:136-181 | over a whole run of interning, reclaim and restart an id bound at two moments has one name |
| RegistryState.MetadataStore.ResolveService | src/metadata/mod.rs:136-150 | an upsert by unique name returns the existing or the next id and never lowers a watermark |
| RegistryState.MetadataStore.TouchService | src/metadata/mod.rs:162-171 | a touch only moves a watermark forward |
| RegistryState.MetadataStore.DeleteServicesBefore | src/metadata/mod.rs:173-181 | exactly the services last seen before the cutoff are dropped and returned |
| RegistryState.Preload | src/metadata/service_registry.rs:43-56 | loading row by row gives both directions of the table |
| RegistryState.CachedRegistry.FreshCachedId | src/metadata/service_registry.rs:116-124 | an id is served from the cache exactly within the touch interval of its last mark |
| RegistryState.CachedRegistry.Touch | src/metadata/service_registry.rs:126-136 | an id is marked before its watermark is written, at most once in each interval, and the mark stays when the write fails |
| RegistryState.CachedRegistry.IdOf | src/metadata/service_registry.rs:59-84 | interning over the mutable cache and table is the specified step for either outcome of the store call |
| RegistryState.CachedRegistry.Forget | src/metadata/service_registry.rs:99-110 | the loop removes exactly the given ids from all three maps |
| RegistryState.CachedRegistry.ReclaimBefore | src/metadata/service_registry.rs:91-96 | table and cache drop exactly the ids last seen before the cutoff |
| Retention.CutoffIsMonday | src/retention.rs:85-90 | the cutoff is a Monday midnight |
| Retention.CutoffRises | src/retention.rs:85-90 | the cutoff never falls as the clock moves on |
| Retention.CutoffKeepsWeeks | src/retention.rs:85-90 | the cutoff lies the given number of whole weeks, and less than one more, before the clock |
| Retention.MaxBucketIsAnHour | src/model/metrics.rs:260-264 | the fold over the coarse resolutions bounds every bucket |
| Retention.ShardCutIsExact | src/logs/store.rs:224-256 | deleting the tables before the cutoff removes exactly the rows before it and only tables wholly before it |
| Retention.PruningKeepsResumePoints | src/docker/mod.rs:517-528 | pruning checkpoints older than a cutoff changes no later resume second |
| Retention.ResumesInItsSecond | src/docker/mod.rs:509-528 | a stream resumes in the second that holds the later of checkpoint and cutoff, or in the nearest one 32 bits can name |
| Retention.InternBoundsTheLag | src/metadata/service_registry.rs:126-136 | after interning, the watermark is less than the touch interval behind the clock |
| Retention.LagBoundNeedsTheWrite | src/metadata/service_registry.rs:127-136 | after a due touch the cache serves the name for a whole interval, throughout which the lag stays below the interval exactly when the write succeeded or had nothing to raise |
| Retention.CoarseRowIsSampled | src/model/metrics.rs:250-264 | a coarse row leads a sample of its service by less than its own bucket |
| Retention.StepKeepsInvIff | src/retention.rs:16-56 | interning with either outcome of the store, storing, rolling up, checkpointing, reopening and cleaning keep watermarks ahead of what survives, exactly when the step is not a failed touch that had a watermark to raise |
| Retention.RetentionNeverOrphans | src/retention.rs:50-66 | at every point of every run without such a failed touch no row or checkpoint at or after the last cutoff refers to a dropped id |
| Retention.CleanupLeavesNoOrphan | src/retention.rs:9-70 | after such a run, a successful cleanup with a clock that has not gone back leaves every surviving row and checkpoint its id |
| Retention.MarginIsTight | src/retention.rs:53-56 | with any margin smaller by more than two milliseconds some run has an hourly row that the pass spares and whose id it would drop |
| Retention.FailedTouchOrphans | src/metadata/service_registry.rs:127-136 | for every cutoff on an hour one failed touch is enough for the cleanup to spare an hourly row and drop its id |
| RetentionPass.Stores.CleanupOnce | src/retention.rs:9-90 | the cutoff is the Monday midnight the given number of whole weeks back; for every combination of failures exactly the rows, lines and checkpoints before it go where their deletion was reached, and the services last seen two hours before it, so that nothing younger than the weeks to keep is removed; this is the specified cleanup step |

## Left out

- LogIngest.AtLeastOnce: speaks of lines at or after the retention horizon only, as older lines are meant to go, and of sources whose timestamps do not fall; lines the calendar cannot name are not appended by the source and are excluded.
- LogLedger.SequenceKept: excludes cleanup and crashes, which remove lines from the sequence; those are counted by LogLedger.Conserved.
- FlushWakeup.NoLostWakeup: one pusher per service, as the ingestion loop has; the shutdown call that flushes every service at once is not a step of the machine.
- Collectors.SeriesCollector.Observe: one counter series; the host collector drives eleven fields with the same samples and closing rule, and how they make up one row is not modelled.
- ContainerRun.RunIsItsOwn: the container has exactly one sample in every batch from its first on, and the samples of a cycle share its instant, as the sampler stamps them; a container missing from single batches in between is covered by ContainerRun.RunContainers only.
- DenseCollection.LateJoinerWaitsOneMore: samples of a container rise in time; the readings of one that is sampled sometimes once and sometimes twice per bucket are decided by ContainerLife.ReportedExactly, not summed up.
- Rollup.SliceIsRangeIffPartitioned: reads with rows past the range, which take a clock that went back before the step; there the outcome depends on which rows the search happens to probe.
- MaterialisedRuns.IncrementalEqualsBatch: says nothing of the bucket that ends exactly at the cutoff, whose 10s rows a delete drops while its coarse row stays; inserts come with rising time.
- Retention.RetentionNeverOrphans: replaced and deleted rows are kept as a superset of the real tables; a store call that deletes part of its rows and then fails counts as not having deleted.
- RetentionPass.Stores.CleanupOnce: one service's log tables stand for all of them, and each store call succeeds or changes nothing.
- RegistryState.CachedRegistry.IdOf: runs under the reclamation lock as one step; the lock-free fast path between another caller's steps is not interleaved.
- Calendar.WeekKeyRoundTrip: the date library's ISO week functions are modelled from sections 2.2.10 and 4.1.4 of ISO 8601:2004.
- ShardedStore.ServiceShards.Append: an empty week file left behind by a failed first transaction, a batch cut into insert chunks, and a cursor naming a malformed week are not modelled.
- Collectors.GaugeBucketizer.Collect: floating-point rounding error, which `real` arithmetic does not have, and overflow of 64-bit timestamps.
- ContainerCollector.ContainerCollectorState.Observe: containers are values in a map, so sharing of buffers between containers is ruled out by construction.
- Container roll-up over several containers, container downsampling and the per-bucket group sum: the first breaks its own ordering requirement as shown, the others repeat the host's accumulators.
- The max bucketizer and the derivation of host sample fields: single-pass folds over the same buffer.
- Full-text matching, level detection, ANSI stripping, cursor encoding and timestamp parsing: the filter is an arbitrary predicate on a row's contents and the level is stored as given.
- Connection pools and their locks, file I/O, vacuuming, HTTP and event streams, container control, configuration and the web frontend.
- Live tailing of a store that receives rows older than the cursor: forward paging is gap-free on a fixed store only.
