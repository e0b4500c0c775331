# OLED dashboard: a verified model of its stateful core

The dashboard server collects host metrics, keeps a day of history, pushes live frames to browsers over WebSockets,
serves container logs and finds the public URLs of containers in Traefik labels; the browser reassembles the log stream
and lets the user rearrange the home page. This project models the parts of that with the most state, interleaving or
arithmetic, and proves what they promise. Everything is checked by Dafny 4.11: `dafny verify dfyconfig.toml`.

| files | what they model |
|---|---|
| `HubProtocol`, `HubQuiescence`, `HubDelivery`, `HubLifecycle` | the WebSocket hub, its clients' pumps and the goroutines it spawns, as a transition system over all interleavings |
| `Hub` | the hub object itself, its methods proved to take exactly those protocol steps |
| `MetricsHistory`, `History` | the retained buffer against the log of everything recorded; the object with its loops |
| `Grouping`, `Downsampling`, `DownsamplingFacts` | the accumulate-and-flush loop against group-then-average, and what its points are |
| `PointCounts`, `HistoryCharts`, `RangeAnswers` | how many points come back: at worst, in ordinary operation, against the documentation; what a query or a range label answers after a run |
| `RateAccounting`, `TickAccounting`, `Collector`, `HostMetrics` | network rates against the counters they come from, with calls that are not recorded; the collector object |
| `TextSplit`, `JsonText`, `ContainerLogs`, `DockerFrames` | the server's two log paths: Docker headers, escaping, event framing |
| `LogStream`, `LogPipeline` | the browser's reader, and the pipeline from Docker to the screen |
| `TraefikRules`, `RulePrinter` | the `Host(...)` pattern and the label parsers, for every map iteration order; rules as they are written |
| `HomeLayout` | dragging widgets, and the edits of the home page |
| `Sequences` | shared sequence vocabulary |

How to read the model. Imperative code is a class or a method with the program's loops, proved against a function of its
inputs or its old state; what the program promises is then proved about that function. Clocks, operating system readings,
chunk boundaries, read boundaries and map iteration orders are parameters, so every theorem holds for all of them. In the
hub every scheduling choice is a label of the transition system, a panic of Go (a send on a closed channel, a second
close) is a flag the proofs keep false, and ghost fields record what the hub took from its queue and what each writer
received. Text is a sequence of characters; on the server a character stands for a byte. Lemmas to which Dafny would
apply induction on its own switch that off, so that every induction is written out.

## Where the code does less than its comments or callers suggest

- `Range` says it returns at most `maxPoints` buckets (`internal/host/history.go:74-75`). The slice length is rounded
  down and the last sample falls in a slice of its own, so ordinary operation gives one bucket too many: an uninterrupted
  recording comes back as exactly `maxPoints + 1` points once its span is long enough (`GapFreeChart`), for example 121
  for the 120 of the 1h label at the default interval of two seconds (`HourAtDefaultInterval`). That is also the most a
  label can give for samples that span the square of its points in milliseconds, less than a minute for every label, even
  when a late tick brings two of them close (`LabelPoints`); for samples at least `maxPoints` milliseconds apart it is
  given exactly when no slice is empty (`SpacedBoundIff`). In general, for `n` sorted samples over a given span, the
  documented bound is guaranteed exactly when `n` is at most `maxPoints` or the span is shorter than `maxPoints`
  milliseconds (`DocumentedBoundIff`). The most of all is `2 * maxPoints`, reached by samples a
  millisecond apart (`TwiceMaxPointsIsTight`), which the collector's ticker does not give.
- The history records the rates of the collector's own ticks, but every call of `Collect` replaces the previous counters,
  also those from the snapshot handler (`internal/server/router.go:105`) and the broadcaster
  (`internal/server/websocket.go:195`), which the program starts at the same interval as the collector
  (`cmd/server/main.go:73-78`). On a steady run the recorded rates account for the counters' movement exactly when no such
  call saw them move, and for all the time exactly when none took a step (`RecordedTelescopesIff`). When the two take
  turns, which is ordinary operation, they account for neither (`TurnsLose`; with numbers in `BareCallTakes`).
- The 24-hour range is served from a buffer capped at 50000 samples, which is too few when samples are less than
  1729 ms apart (`LabelsExact`, `CloserSpacingLoses`); an interval of one second is a legal setting
  (`internal/config/config.go:42-44`).
- `stripDockerLogHeaders` works on lines, but a frame need not be one. For frames that carry one line or a part of one it
  recovers what the container wrote, up to a final line feed, exactly when no frame but the last leaves its line
  unfinished, none is empty of text, and no length has the byte 0x0A (`DemultiplexIff`). A log line of nine characters
  breaks the last condition (`NineByteLineBreaks`); a line longer than the 16 KiB Docker puts into a frame breaks the
  first, and comes out with a frame header in its middle (`PartialFrame`, `LongLineBreaks`).
- The streaming log path keeps nothing between reads. It agrees with the batch path exactly when no read ends inside a
  line (`StreamAgreesIff`); otherwise it emits more lines, two for one that arrives in two reads (`CutLineDiffers`).
- `ParseTraefikURL` returns the first match of a Go map iteration: when labels give several URLs, any of them can be the
  answer (`EveryUrlCanBeFirst`, with two routers in `OrderDecides`); it is a function of the labels when they give at most
  one (`OneUrlIsStable`).
- A rule whose leftmost `Host(...)` captures only spaces has no host (`HostIffMatch`), even if a later one would
  (`BlankHostHidesNext`).

## Model

| member | source | states |
|---|---|---|
| HubProtocol.InvStep | internal/server/websocket.go:54-162 | every step of hub, handlers, pumps and evictors keeps the invariant: no panic, map members are exactly the registered open clients, each frame the hub offered a live client was either queued or has an eviction pending |
| HubProtocol.InvRun | internal/server/websocket.go:54-162 | the invariant holds after every interleaving of any length |
| HubProtocol.ChannelSafety | internal/server/websocket.go:57-80 | no run sends on a closed `send` channel or closes one twice; a client is in the map iff it registered and is not closed; the delivery loop only visits open channels |
| HubProtocol.BoundedQueues | internal/server/websocket.go:50-109 | queues never exceed 16 and 8 frames, and frames accepted = frames dequeued followed by frames still queued |
| HubProtocol.NoGapWithoutEviction | internal/server/websocket.go:70-81 | a client in the map with no eviction pending has received, or has queued, exactly the contiguous run of frames dequeued since it registered |
| HubProtocol.OrderedWithoutDuplicates | internal/server/websocket.go:70-81 | every client ever connected holds an in-order, duplicate-free selection of the frames since it registered; a live one has one pending eviction per frame it missed |
| HubProtocol.ClosedIsFinal | internal/server/websocket.go:62-68 | once closed a channel stays closed, its client stays out of the map, and late unregisters and deliveries add nothing to it |
| HubProtocol.FullWindow | internal/server/websocket.go:72-74 | increasing positions that fill a window of the hub's log are that window: the counting argument behind "no gap" |
| HubQuiescence.HubDrains | internal/server/websocket.go:54-84 | without new connections, frames or read failures the hub takes at most Rank more steps, however they interleave with the writers, although one frame may spawn an eviction per client |
| HubQuiescence.HubDrainsThroughDisconnects | internal/server/websocket.go:54-162 | disconnects included, also those an eviction brings about by closing the channel: at most Rank plus one step per reader still there |
| HubQuiescence.BacklogStep | internal/server/websocket.go:117-134 | a failing read only moves a client from those whose unregister may come to those whose unregister is due |
| HubQuiescence.RankStep | internal/server/websocket.go:54-84 | each hub step without arrivals lowers the bound on remaining work; pump steps never raise it |
| HubQuiescence.NextHubStep | internal/server/websocket.go:55-82 | the hub is never stuck with work left: some step of it is enabled |
| HubQuiescence.RankZeroIffIdle | internal/server/websocket.go:55-82 | the bound is zero iff no step of the hub is enabled |
| HubQuiescence.DrainExists | internal/server/websocket.go:54-84 | from every reachable state the hub can finish its work on its own, within the bound |
| HubQuiescence.QuiescentOutcome | internal/server/websocket.go:54-84 | at rest all accepted frames are dequeued, no unregister is pending, a client still in the map has every frame since it registered, and one that missed a frame is out of the map and closed |
| HubDelivery.DeliveryOrderIrrelevant | internal/server/websocket.go:72-80 | a complete pass over the client map visits each client once and ends in the same state whatever the iteration order |
| HubDelivery.EveryOrderPossible | internal/server/websocket.go:72-80 | every iteration order of the map is a possible pass, with that same end state |
| HubLifecycle.DisconnectRemoves | internal/server/websocket.go:117-134 | from every reachable state with a running reader a read can fail; the reader then waits to unregister through whatever happens, is served once the hub is at its select, and its client is then out of the map with its channel closed |
| HubLifecycle.ServedIsGone | internal/server/websocket.go:62-68 | a reader that waits is served without a panic, and leaves an unregistered, closed client |
| HubLifecycle.WriterSteps | internal/server/websocket.go:143-159 | a running writer takes the oldest queued frame, sees the close exactly when its closed channel is drained, and ends then or when a write fails |
| HubLifecycle.EndedWriterTakesNothing | internal/server/websocket.go:147-158 | a writer that ended takes no further frame, on any continuation |
| HubLifecycle.NinthFrameEvicts | internal/server/websocket.go:73-79 | a client with fewer than eight undrained frames gets the frame, one with eight gets an evictor instead |
| HubLifecycle.SeventeenthFrameDropped | internal/server/websocket.go:92-96 | a frame is queued behind fewer than sixteen others, and dropped behind sixteen |
| HubLifecycle.PanicsAreFlagged | internal/server/websocket.go:66-74 | a delivery to a closed channel and a second close are flagged as panics, so that their absence in ChannelSafety means something |
| Hub.Hub.constructor | internal/server/websocket.go:45-52 | a new hub is at the protocol's initial state |
| Hub.Hub.TrySend | internal/server/websocket.go:73-75 | the non-blocking send succeeds iff fewer than eight frames are queued, and then appends exactly the frame |
| Hub.Hub.Close | internal/server/websocket.go:66 | the channel is closed with its buffered frames kept; callers must show it is still open |
| Hub.Hub.NewClient | internal/server/websocket.go:106-110 | a new client has an open, empty channel and is not yet in the map |
| Hub.Hub.ServeWS | internal/server/websocket.go:99-115 | a request ends with the client in the map, its channel open and empty, and both pumps running |
| Hub.Hub.StartWriter | internal/server/websocket.go:113 | the writer of a registered client starts, as one step of the protocol |
| Hub.Hub.StartReader | internal/server/websocket.go:114 | so does its reader |
| Hub.Hub.ReadFails | internal/server/websocket.go:129-133 | a failing read leaves the reader waiting to unregister |
| Hub.Hub.WriteFails | internal/server/websocket.go:151-159 | a failing write or ping ends the writer |
| Hub.Hub.Register | internal/server/websocket.go:57-60 | the client joins the map, as one step of the protocol |
| Hub.Hub.Drop | internal/server/websocket.go:64-67 | a client in the map leaves it and is closed; for any other nothing changes |
| Hub.Hub.UnregisterReader | internal/server/websocket.go:62-68 | an unregister from a reader is one protocol step and never closes a closed channel |
| Hub.Hub.UnregisterEvictor | internal/server/websocket.go:62-79 | so is one from a spawned goroutine, of which there is then one less |
| Hub.Hub.Broadcast | internal/server/websocket.go:92-96 | a frame is queued behind the others, or dropped when 16 are waiting |
| Hub.Hub.ReceiveBroadcast | internal/server/websocket.go:70-72 | the oldest queued frame is taken, to be offered to the clients then in the map |
| Hub.Hub.DeliverOne | internal/server/websocket.go:73-79 | the frame goes to the client's open channel, or else one evictor for it is spawned |
| Hub.Hub.DeliverToAll | internal/server/websocket.go:72-80 | in whatever order, the loop ends in the protocol state that mentions no order: every client with room got the frame once, every full one got one evictor, all others are untouched |
| Hub.Hub.DeliverNext | internal/server/websocket.go:70-81 | the whole broadcast case equals a dequeue, one delivery per client and the end of the loop in the protocol, with the new channels and evictors given outright |
| Hub.Hub.WritePump | internal/server/websocket.go:143-153 | a writer takes the oldest frame of its channel, or sees it closed only once it is drained, and ends |
| MetricsHistory.BufferIsRecentSuffix | internal/host/history.go:54-71 | whatever the timestamps and the clock do, the buffer is a suffix of everything recorded, no longer than the cap |
| MetricsHistory.BufferIsWindow | internal/host/history.go:54-71 | on a monotone run the buffer is the log from the later of the age cutoff and the cap on |
| MetricsHistory.RetentionRefinesLog | internal/host/history.go:54-71 | on a monotone run the buffer is the last `maxLen` of all samples ever recorded that are not older than the current cutoff |
| MetricsHistory.QueryExactIff | internal/host/history.go:57-90 | a query inside the retention window sees what the full log holds iff the log has at most `maxLen` samples in its range |
| MetricsHistory.SpacedCount | internal/host/history.go:57-71 | samples at least d ms apart: a window narrower than n*d ms holds at most n of them |
| MetricsHistory.QueryExact | internal/host/history.go:57-90 | a query no longer than the retention, made after the last Record, is exact when the range is narrower than maxLen*d ms |
| MetricsHistory.LabelsExact | internal/server/router.go:140-153 | with the collector's 24 h and 50000, every range label is exact at spacings of 1729 ms and more |
| MetricsHistory.CloserSpacingLoses | internal/host/metrics.go:48-52 | at every smaller spacing there is a run after which the 24 h query has lost a sample |
| MetricsHistory.SinceIsSuffix | internal/host/history.go:85-89 | on sorted samples the filter of a query is a suffix |
| MetricsHistory.CutSplits | internal/host/history.go:61-64 | the trim loop stops at the first sample that is not too old |
| History.History.constructor | internal/host/history.go:28-40 | a new history is empty; nonpositive parameters select 24 h and 50000 |
| History.History.Record | internal/host/history.go:44-72 | after the call the buffer is what the whole series of calls so far, this one included, leaves of its log |
| History.History.Trim | internal/host/history.go:59-71 | the two trims keep the last `maxLen` of what follows the first sample young enough |
| History.History.Select | internal/host/history.go:81-89 | the filter loop selects exactly the samples not older than the cutoff, in order |
| History.History.Range | internal/host/history.go:76-151 | no more samples in range than asked for come back as they are, samples of one instant as the last of them, and others as the downsampling of the samples in range |
| History.History.RangeOfFew | internal/host/history.go:92-94 | on a monotone spaced history the answer is the recorded samples in range themselves while there are no more than asked for |
| History.History.RangeOfMany | internal/host/history.go:96-150 | more samples come back as one point for every slice that has samples, in slice order, each weighted by how many its slice has, adding up to the source in every metric |
| History.History.RangeOfRun | internal/host/history.go:74-151 | on a history whose samples and clock never went back the object's answer is chronological, in range and at most 2*maxPoints long, maxPoints+1 for spaced samples |
| History.History.RangeOfLog | internal/host/history.go:74-151 | it is the answer of the full log when the samples in range cannot exceed the cap |
| History.Thin | internal/host/history.go:92-150 | few samples come back as they are, simultaneous ones as the last, others averaged per slice |
| History.Flush | internal/host/history.go:117-130 | an empty accumulator adds nothing, any other adds the average of the samples it stands for |
| History.Bucket | internal/host/history.go:110-148 | the one-pass loop yields the averages of the maximal runs of samples in the same slice, each sample in one run |
| History.HandleMetricsHistory | internal/server/router.go:127-137 | the request is answered with the label's own range and point count |
| RangeAnswers.FewOrSimultaneous | internal/host/history.go:92-103 | few samples unchanged, simultaneous ones as the last |
| RangeAnswers.ManyAnswer | internal/host/history.go:96-150 | the points of a longer source against the slices and the samples in them |
| RangeAnswers.LabelMeans | internal/server/router.go:140-153 | 1m, 1h, 12h, 24h and any other label answer from exactly the recorded samples of the last 60 s, 1 h, 12 h, 24 h and 1 h, with at most twice 60, 120, 180, 240 and 120 points, and with those samples themselves when there are no more of them |
| RangeAnswers.LabelCutoff | internal/server/router.go:140-153 | the durations and point counts of the labels, in milliseconds |
| RangeAnswers.InRange | internal/host/history.go:85-89 | the samples in range are exactly those not older than the cutoff, in any log |
| Grouping.RunsPartition | internal/host/history.go:132-148 | on any input the runs are non-empty consecutive pieces of the source: each sample counted once |
| Grouping.RunsAreGroups | internal/host/history.go:132-148 | when keys never decrease the one-pass runs are the non-empty groups, in key order |
| DownsamplingFacts.GroupThenAverage | internal/host/history.go:110-150 | on sorted timestamps one pass equals grouping by slice index: one run per non-empty slice, in index order |
| PointCounts.PointsAtMost | internal/host/history.go:98-150 | a sorted source gives at most one point per slice its span touches |
| PointCounts.WorstCaseBounds | internal/host/history.go:105-108 | that number is at most 2*maxPoints always, at most maxPoints+1 when slices are at least maxPoints ms long, and at most maxPoints iff the span is shorter than maxPoints ms |
| PointCounts.GapFreeAttainsWorstCase | internal/host/history.go:98-150 | a recording without a gap longer than a slice gives exactly one point for every slice of its span |
| PointCounts.GapFreeChart | internal/host/history.go:98-150 | samples at most g ms apart over a span of at least maxPoints*g and maxPoints squared ms come back as exactly maxPoints+1 points |
| PointCounts.SpacedPoints | internal/host/history.go:98-150 | samples at least maxPoints ms apart come back as at most maxPoints+1 points |
| PointCounts.SpacedBoundIff | internal/host/history.go:98-150 | for such samples the documented bound fails iff there are more than maxPoints of them and no slice of the span is empty |
| PointCounts.TwiceMaxPointsIsTight | internal/host/history.go:98-150 | 2*maxPoints points come back for 2*maxPoints samples a millisecond apart, for every maxPoints |
| PointCounts.DocumentedBoundIff | internal/host/history.go:74-75 | "at most maxPoints" holds for all sorted sources of n samples over a given span iff n <= maxPoints or the span is shorter than maxPoints ms |
| PointCounts.PointBounds | internal/host/history.go:92-150 | any sorted source comes back as at most 2*maxPoints points, and at most maxPoints+1 when it spans maxPoints squared ms |
| PointCounts.LabelSlices | internal/server/router.go:140-153 | the range labels divide evenly into the points they ask for, at most 240 |
| PointCounts.LabelPoints | internal/server/router.go:140-153 | for a label of n points at most n+1 come back of samples that span n squared ms or are at least n ms apart, at most 2n of any others |
| PointCounts.DefaultIntervalPoints | internal/server/router.go:140-153 | ranges of an hour and more, with gaps of at most g >= 2000 ms: exactly one point too many once the source spans g times the points asked for |
| HistoryCharts.HourAtDefaultInterval | internal/server/router.go:140-153 | a run of two-second ticks on the collector's history after which the 1h label returns 121 points for 120 |
| HistoryCharts.ChartOfRun | internal/host/history.go:44-151 | after any monotone run of Record a query answers in time order, within its range, with at most twice the points asked for |
| HistoryCharts.ChartOfSpacedRun | internal/host/history.go:44-151 | and with at most one too many when samples are at least maxPoints ms apart |
| DownsamplingFacts.RangeIsChronological | internal/host/history.go:74-150 | the answer is in time order within the span of the source, strictly so once samples were merged |
| DownsamplingFacts.RangeKeepsMetricBounds | internal/host/history.go:92-150 | any bounds of a metric over the source bound it over the answer |
| DownsamplingFacts.PointsCharted | internal/host/history.go:117-148 | point timestamps strictly increase, each in the slice of the samples it stands for and between the first and last of them |
| DownsamplingFacts.AverageBetween | internal/host/history.go:123 | the integer-divided mean timestamp stays between any bounds of its samples, also for negative times |
| DownsamplingFacts.MetricBetween | internal/host/history.go:124-128 | an averaged metric lies between the least and the greatest of its bucket |
| DownsamplingFacts.AveragesConserve | internal/host/history.go:117-148 | on any input the points weighted by their counts sum to the source's total, metric by metric |
| DownsamplingFacts.AccumulatorFits | internal/host/history.go:140 | the timestamp accumulator fits int64 for 50000 samples before the year 6429 |
| RateAccounting.StepBounds | internal/host/metrics.go:105-115 | a rate times its time is at most the counter's growth, and short of it by less than the elapsed seconds |
| RateAccounting.RatePerWholeSecond | internal/host/metrics.go:106-114 | over k whole seconds the rate is the growth divided by k, rounded down |
| RateAccounting.CreditedAgainstGrowth | internal/host/metrics.go:105-119 | the same over any run, with clock standstills and counter resets |
| RateAccounting.RatesTelescope | internal/host/metrics.go:105-119 | on a steady run the rates account for the counter's whole movement, up to less than a byte per second elapsed |
| RateAccounting.ResetsRebase | internal/host/metrics.go:108-119 | with any number of counter resets in a run, the rates account for the stretches between them alone, and the growth credited is the counter's movement within those |
| RateAccounting.RunsConcat | internal/host/metrics.go:105-119 | two runs one after the other are credited apart, plus the step between them |
| TickAccounting.CreditIsReported | internal/host/metrics.go:109-115 | what a step is credited is the rate reported for it over the time since the reading before |
| TickAccounting.RecordedIsTotalLessTaken | internal/host/metrics.go:65-153 | over any run of ticks and other calls the recorded rates account for the total less what the other calls took, and bracket the counter's growth over their own steps |
| TickAccounting.TakenIff | internal/host/metrics.go:104-119 | the other calls took no time iff none of their steps can be credited, and no growth iff none of those saw the counter move |
| TickAccounting.RecordedTelescopesIff | internal/host/metrics.go:104-153 | on a steady run the recorded rates cover all the time iff no creditable step is another call's, and the whole movement iff none of those steps saw the counter move |
| TickAccounting.TurnsLose | cmd/server/main.go:73-78 | when ticks and other calls take turns, of any length from three calls on and with a growing counter, the recorded rates fall short of the time and of the movement |
| TickAccounting.BareCallTakes | internal/host/metrics.go:104-119 | three calls a second apart, the middle one not a tick: of 300 bytes the recorded rates cover 200 |
| Collector.RatePerSec | internal/host/metrics.go:107-114 | when the clock advanced and the counter did not go back, the rate times the time is at most the growth and short of it by less than a byte per second; otherwise the rate is zero |
| Collector.Collector.NetworkRates | internal/host/metrics.go:97-119 | the rates reported are those of the step from the previous reading, which the new one replaces |
| Collector.TotalWraps | internal/host/metrics.go:86-90 | the interface total is the true sum modulo 2^64 |
| Collector.TotalOf | internal/host/metrics.go:86-90 | the summing loop computes that wrapped total |
| Collector.Collector.constructor | internal/host/metrics.go:48-52 | no previous reading, an empty history of 24 h and 50000 samples, nothing recorded |
| Collector.Collector.Collect | internal/host/metrics.go:65-139 | a failed query changes nothing; a successful one appends its readings, keeps them as the previous ones, reports the rate of the last step, and leaves the history alone |
| Collector.Collector.Store | internal/host/metrics.go:152-154 | the result of the last call becomes the newest recorded event, and its rates the newest recorded rates |
| Collector.Collector.Tick | internal/host/metrics.go:150-153 | a collection is recorded, field by field, with exactly its own readings and rates, so that over any calls the history holds the rates of the ticks and no others; a failed one leaves it alone |
| TextSplit.SplitJoin | internal/server/router.go:247-255 | splitting at line feeds undoes joining, for non-empty lists of lines |
| TextSplit.JoinSplit | internal/server/router.go:198 | a text splits into lines without line feeds that join back to it |
| TextSplit.SplitConcat | internal/server/router.go:198 | splitting a concatenation glues the last line of one part to the first of the other |
| TextSplit.SplitBlankLeftmost | frontend/src/hooks/useLogStream.ts:40 | splitting at blank lines joins back to the text with no separator left and none found too late |
| TextSplit.SplitJoinBlank | frontend/src/hooks/useLogStream.ts:40 | those conditions determine the split uniquely |
| TextSplit.SplitBlankConcat | frontend/src/hooks/useLogStream.ts:39-41 | splitting only the remainder with the next chunk gives the split of the whole, also when a separator straddles the chunks |
| JsonText.RoundTrip | internal/server/router.go:258-264 | parsing an encoded line gives the line back, for every string (RFC 8259, section 7) |
| JsonText.SpacedRoundTrip | frontend/src/hooks/useLogStream.ts:49 | also with white space around the literal |
| JsonText.Malformed | frontend/src/hooks/useLogStream.ts:49 | an unterminated literal, and one with a raw control character, do not parse |
| JsonText.Surrounded | frontend/src/hooks/useLogStream.ts:49 | nor does a literal with anything but white space before or behind it |
| JsonText.EscapesReadAs | frontend/src/hooks/useLogStream.ts:49 | which letters follow a backslash and which characters are hexadecimal digits, with their meaning |
| JsonText.ShortEscapesAre | internal/server/router.go:258-264 | the two-character escapes of the encoder |
| JsonText.HexEscapesAre | internal/server/router.go:258-264 | the characters it writes for HTML's sake, and a control character, as four hexadecimal digits |
| JsonText.PlainStays | internal/server/router.go:258-264 | every other character is written as it is |
| JsonText.EscapeInert | internal/server/router.go:258-264 | an encoded line has no control, HTML-significant or JavaScript line-ending character |
| JsonText.MarshalHasNoLineFeed | internal/server/router.go:207 | in particular no raw line feed, so an event cannot be cut short |
| ContainerLogs.CleanNonEmpty | internal/server/router.go:203-206 | stripping never empties a line, so the second emptiness test drops nothing |
| ContainerLogs.EventOfPlain | internal/server/router.go:207 | a line that needs no escaping goes over the wire as a data field in quotes and a blank line |
| ContainerLogs.StripDockerLogHeaders | internal/server/router.go:246-256 | the batch loop returns the log lines of its input joined by line feeds |
| ContainerLogs.WriteRead | internal/server/router.go:197-209 | one read writes one event per log line of that read |
| ContainerLogs.StreamLogs | internal/server/router.go:188-217 | the streaming loop writes the events of all reads, in order |
| ContainerLogs.LinesAcrossCut | internal/server/router.go:188-210 | a cut at a line feed costs nothing, one inside a line yields exactly one line more |
| ContainerLogs.StreamAgreesIff | internal/server/router.go:188-256 | the streaming path emits the batch path's lines iff no read boundary falls inside a line |
| ContainerLogs.StreamCount | internal/server/router.go:188-210 | it never emits fewer lines, and emits more as soon as one boundary does |
| ContainerLogs.CutLineDiffers | internal/server/router.go:196-210 | a line in two reads is two lines of the stream and one of the batch |
| ContainerLogs.UnframedIff | internal/server/router.go:239-256 | a log without frames comes through unchanged iff every line is at most 8 long or starts above 2 |
| DockerFrames.DemultiplexIff | internal/server/router.go:239-256 | for every list of frames that each carry a line or a part of one, the batch path recovers the lines written iff every frame but the last ends its line, none is empty of text and no length has a byte 0x0A |
| DockerFrames.TextsAreWritten | internal/server/router.go:239-256 | those lines, joined, are the concatenated payloads up to a final line feed |
| DockerFrames.LinesIff | internal/server/router.go:246-254 | the same for the list of lines before it is joined |
| DockerFrames.AtLeastOnePerLine | internal/server/router.go:246-254 | at least one line comes out for every line written, whatever precedes it |
| DockerFrames.UnfinishedLeaks | internal/server/router.go:239-254 | after an unfinished line either too many lines come out or the first is too long, by the header of the next frame at least |
| DockerFrames.PartialFrame | internal/server/router.go:239-254 | a line in two frames comes out as one line with the second header inside |
| DockerFrames.LongLineBreaks | internal/server/router.go:239-256 | a line of 16384 characters and four more in a second frame is not recovered, though both frames are transparent |
| DockerFrames.NineByteLineBreaks | internal/server/router.go:239-256 | a single whole line of nine characters is not recovered |
| LogStream.ChunkIndependent | frontend/src/hooks/useLogStream.ts:39-41 | records finished so far and carried remainder depend on the text received, not on its chunks |
| LogStream.OtherLines | frontend/src/hooks/useLogStream.ts:45-57 | a data line that is no JSON string is shown as it came, a line of another field not at all |
| LogStream.LogStream.Push | frontend/src/hooks/useLogStream.ts:48-56 | a line is appended and the last 500 are kept |
| LogStream.LogStream.ShowRecord | frontend/src/hooks/useLogStream.ts:44-58 | the data lines of one record are shown in order, decoded or as they came |
| LogStream.LogStream.Receive | frontend/src/hooks/useLogStream.ts:36-60 | after each chunk buffer and lines are the functions of all text received that the invariant names |
| LogStream.LogStream.Run | frontend/src/hooks/useLogStream.ts:35-61 | the whole loop, for every chunking, ends with what the concatenated text shows |
| LogPipeline.ShownSoFar | frontend/src/hooks/useLogStream.ts:35-61 | at every moment the screen holds the last 500 of the lines whose events have arrived whole |
| LogPipeline.EndToEnd | internal/server/router.go:207 | writing any lines as events and decoding them under any chunking shows exactly those lines, or the last 500 when there are more |
| LogPipeline.DockerToBrowser | internal/server/router.go:188-256 | from recoverable Docker frames, read without cutting a line, to the screen: the last 500 lines the container wrote |
| TraefikRules.ScannerFollows | internal/docker/parser.go:8 | the pattern is unambiguous: every match at a position is the one the scanner follows, with the same capture |
| TraefikRules.CaptureIffMatches | internal/docker/parser.go:8 | the scanner finds a capture at a position iff the pattern matches there |
| TraefikRules.CaptureIsLeftmost | internal/docker/parser.go:53 | the search returns the capture of the smallest matching start, and none iff nothing matches |
| RulePrinter.RuleRoundTrip | internal/docker/parser.go:8 | a rule in any upper and lower case, with any runs of space, tab, line feed, carriage return and form feed between its tokens, behind text without an h and before any text, gives back its trimmed capture |
| RulePrinter.MatchIffPrinted | internal/docker/parser.go:8 | the pattern matches at a position iff such a rule stands there: any other character between the tokens, and nothing matches |
| RulePrinter.MatchIsPrinted | internal/docker/parser.go:8 | the parts of the rule that a match stands for |
| RulePrinter.TrimIs | internal/docker/parser.go:57 | trimming takes the listed spaces off both ends and stops at any other character |
| RulePrinter.RuleLabel | internal/docker/parser.go:18-22 | a label whose key contains traefik.http.routers and ends in .rule gives https:// and its host, or nothing without a host |
| RulePrinter.OtherLabel | internal/docker/parser.go:18-20 | no other label gives a URL |
| RulePrinter.RuleWithSpaces | internal/docker/parser.go:52-58 | the rule with spaces inside its parentheses has its host |
| RulePrinter.RuleInLowerCase | internal/docker/parser.go:52-58 | so has the rule in lower case |
| TraefikRules.TrimSpaceDrops | internal/docker/parser.go:57 | trimming removes spaces at both ends, all of them, and nothing else |
| TraefikRules.HostIffMatch | internal/docker/parser.go:52-58 | the host is the trimmed leftmost capture, and empty iff that capture is all spaces |
| TraefikRules.NoHostWithoutMatch | internal/docker/parser.go:54-56 | no match, no host |
| TraefikRules.ParseTraefikURL | internal/docker/parser.go:12-26 | for every iteration order: empty iff no label qualifies, otherwise the URL of a qualifying label |
| TraefikRules.ParseAllTraefikURLs | internal/docker/parser.go:29-50 | for every iteration order: no duplicates, and as a set exactly the URLs of the qualifying labels |
| TraefikRules.EveryUrlCanBeFirst | internal/docker/parser.go:17-24 | each URL of the labels is what the single parser returns under some iteration order |
| TraefikRules.OneUrlIsStable | internal/docker/parser.go:17-24 | with at most one URL the order cannot be observed |
| TraefikRules.OrderDecides | internal/docker/parser.go:17-24 | two routers with different hosts: the two iteration orders give different answers |
| TraefikRules.BlankHostHidesNext | internal/docker/parser.go:52-58 | a rule with a blank first Host and a valid second one has no host |
| HomeLayout.MoveSpec | frontend/src/components/HomePage.tsx:95-101 | the moved widget is where it was put and the others keep their order |
| HomeLayout.MoveNowhere | frontend/src/components/HomePage.tsx:96 | a move out of range or in place changes nothing |
| HomeLayout.MovesCompose | frontend/src/components/HomePage.tsx:95-101 | two moves of the same widget are one move |
| HomeLayout.MoveBack | frontend/src/components/HomePage.tsx:95-101 | moving back restores the layout |
| HomeLayout.MoveKeepsWidgets | frontend/src/components/HomePage.tsx:95-101 | no move, in range or not, adds or loses a widget |
| HomeLayout.DragPathIndependent | frontend/src/components/HomePage.tsx:171-178 | hovering over any positions equals one move to the last of them |
| HomeLayout.DragKeepsWidgets | frontend/src/components/HomePage.tsx:171-178 | no drag adds or loses a widget, over any hovers |
| HomeLayout.MovesKeepWidgets | frontend/src/components/HomePage.tsx:95-101 | nor does any run of moves, with any indices |
| HomeLayout.RemoveUndoesAdd | frontend/src/components/HomePage.tsx:106-111 | removing a widget just added restores the layout |
| HomeLayout.RemoveOne | frontend/src/components/HomePage.tsx:106 | removing takes out the one widget with the id and leaves the others in their order |
| HomeLayout.SetSpanOne | frontend/src/components/HomePage.tsx:103-104 | resizing gives the one widget with the id its new span, leaves every other widget and the order alone, and is undone by resizing back |
| HomeLayout.SetSpanNone | frontend/src/components/HomePage.tsx:103-104 | resizing a widget that is not shown changes nothing |
| HomeLayout.AddAtEnd | frontend/src/components/HomePage.tsx:108-111 | an added widget goes to the end with the span of its definition, 2, 1 and 2, or 1 if it has none |
| HomeLayout.AvailableIff | frontend/src/components/HomePage.tsx:133 | the palette offers exactly the three known widgets, each while it is not shown |
| HomeLayout.IdsStayUnique | frontend/src/components/HomePage.tsx:95-133 | no run of moves, resizes, removals and palette additions shows a widget twice or gives it a span other than 1 or 2 |
| HomeLayout.HomePage.MoveWidget | frontend/src/components/HomePage.tsx:95-101 | splicing the copy out and in is the move |
| HomeLayout.HomePage.DragOver | frontend/src/components/HomePage.tsx:171-178 | a hover moves the dragged widget there and follows it, or does nothing when not editing or not dragging |
| HomeLayout.HomePage.DragAcross | frontend/src/components/HomePage.tsx:169-178 | a whole drag of the page object ends as one move to the last hover |

## Left out

- Hub.Hub.DeliverToAll: runs the delivery loop without interleaving; the interleavings with writers are in HubProtocol, where one delivery is one step.
- Hub.Hub.WritePump: covers one receive; whether the write that follows or a ping fails is a separate nondeterministic step, WriteFails, and deadlines are not modelled.
- Hub.Hub.NewClient: clients are identifiers with a map of channels rather than heap objects, so aliasing of client objects is not modelled.
- Locks: the read-write mutexes of hub, collector and history are not modelled; each method is atomic.
- Frames: their JSON content, the broadcaster's ticker and the Docker statistics in a frame; a frame is an opaque string.
- The upgrade handshake, the read limit and connection close: a connection exists or it ends.
- Collector.Collector.Collect: the four operating system queries are an input, which stands for all of them failing or succeeding together.
- DownsamplingFacts.MetricBetween: averages are exact reals, so floating-point rounding is not modelled.
- RateAccounting.StepBounds: rates are exact quotients rounded down; floating-point rounding and the conversion of a rate beyond 2^64 are not modelled.
- DownsamplingFacts.AccumulatorFits: is the only statement about 64-bit overflow; other integers are unbounded.
- MetricsHistory.RetentionRefinesLog: assumes timestamps and clock never go back; BufferIsRecentSuffix is what holds without that.
- History.History.Range: capacity hints and the sharing of the underlying array after reslicing are not modelled.
- JsonText.RoundTrip: is about characters; UTF-8 decoding, the replacement of invalid bytes, and surrogate pairs are not modelled.
- LogStream.LogStream.ShowRecord: text that parses to something other than a string counts as not parsed, and the parse is evaluated at the call, although React may run an updater later, outside the `try`.
- LogStream.LogStream.Run: fetch errors, aborting and restarting a stream are not modelled.
- ContainerLogs.StreamLogs: the series of reads is given; the 4096-byte buffer, flushing and client disconnects are not modelled.
- DockerFrames.DemultiplexIff: a frame carries one line or a part of one; a frame holding several lines is not modelled.
- TraefikRules.CaptureIsLeftmost: case folding is that of the letters of Host, and invalid UTF-8 is not modelled.
- HomeLayout.HomePage.DragAcross: each hover sees the layout as rendered after the one before; React's batching is not modelled.
- The list of widget definitions is the current one of `frontend/src/widgets.ts`; rendering, settings storage and the toolbar are not modelled.
- HTTP routing, CORS, static files, authentication, Trakt, Docker transport and process startup: plumbing with no long-lived invariant of its own.
