# thegn: verified models of its stateful components

thegn is a terminal workspace. This project models the components of it whose
correctness depends on whole histories rather than on single calls, and proves what
they promise:

- the chunked UTF-8 decoder behind terminal recordings (`Utf8`, `Utf8Carry`);
- the ring of host metrics and the coverage verdict of a query (`HostRing`);
- the Observe query engine: its refresh cycle, its command loop and its coalesced
  wake (`QueryCycle`, `QueryEngine`, `EngineLoop`, `EngineHistory`, `WakeGate`), the loop
  and the gate composed (`ObserveWake`), and the wake under delayed stores (`WakeFence`);
- the reduction of time series to a panel's width, its line breaks and its render
  cache (`Reduction`, `IndexPlot`, `TimePlot`, `Series`, `SeriesCache`);
- the automation rule planner (`Automation`, `AutomationDecisions`,
  `AutomationRuns`, `AutomationClock`, `AutomationOnce`, `AutomationLapse`);
- the activity state machine (`Activity`);
- the standalone harness: its input router and its change pulse (`InputRouter`,
  `PumpSignal`);
- ownership of managed account homes (`OwnerManifest`, `AccountHome`);
- naming of Prometheus series (`LabelText`, `SeriesNames`, `NameCollisions`,
  `UniqueNames`).

`dafny verify dfyconfig.toml` checks everything.

## How to read it

Objects that the program mutates are classes (`Utf8Carry.Carry`, `HostRing.Source`,
`QueryEngine.QueryEngine`, `InputRouter.InputRouter`, `SeriesCache.ObserveApp`,
`SeriesCache.RenderCache`, `AccountHome.StateDir`); loops are methods with loops. Each
is proved equal to a function on values, and the lemmas are about those functions.
Components that several threads touch are state machines: a `Step` is one atomic
action of one thread, a run is any sequence of steps, a step that is not enabled
changes nothing, and a theorem about `Run` is a theorem about every interleaving.
State fields marked as history record what happened and influence nothing.

Timestamps and sample values are exact reals; a sample is finite, NaN or infinite.
Clocks in seconds of the automation planner are explicit signed 64-bit integers with
saturating arithmetic; panel generations wrap at 2^64.

## What turned out not to hold as promised

- **Two wakes between two drains.** The gate means to have at most one wake
  outstanding, but the callback fires after the swap that claimed it. If the UI clears
  the flag in between, the late callback and a new one both fire before the next
  clear (`WakeGate.LateWakeDoubles`). Claims are at most one per period, and two
  callbacks fire in exactly that race (`WakeGate.WakesCoalesce`).
- **Debounce above 2^63 - 1.** The setting is an unsigned 64-bit number that is clamped
  to a signed one: the spacing holds for every pair of clock readings exactly when the
  setting fits (`AutomationRuns.DebounceExact`).
- **Fires at the smallest clock value.** The hour's start saturates, so a fire at that
  very instant is invisible within the hour (`AutomationClock.SoloBreaks`). A rule's own
  limit holds for every configuration exactly on clocks that do not continue within
  that hour, and never suffers from steps back (`AutomationClock.RuleLimitExact`).
- **Action-wide limit and a clock that steps back.** Fires of other rules then lie in
  the future and are not counted, or have been pruned by a later reading. The limit
  holds for every configuration exactly on clocks that never step back into an hour
  they have touched (`AutomationClock.ActionLimitExact`): a single step back of less
  than an hour breaks it, a longer one does not (`AutomationClock.StepsBack`).
- **Once-per-key beyond 2,048 keys.** The bounded set holds the 2,048 greatest keys that
  have fired, not the latest (`AutomationOnce.LedgerHoldsGreatest`). A key fires at most
  once in every configuration exactly when none is delivered again after 2,048 distinct
  greater ones (`AutomationLapse.OncePerKeyExact`); `AutomationLapse.FloodRepeats` is a
  run that fires twice.
- **Held bytes.** The comment on the tail scan says that bytes which never complete are
  not held; the code holds 0xFF, or 0xE0 0x80 (`Utf8Carry.GarbageIsHeld`). A held tail
  can complete, and had to be held, exactly when its lead begins some sequence and its
  second byte fits the lead (`Utf8Carry.HeldMayComplete`,
  `Utf8Carry.HeldOnlyIfNeeded`). The decoded text is unaffected.
- **Coverage past the clock.** The comment bounds the judged window by the live clock.
  The code does so exactly when the newest sample is not past the clock and inside the
  window (`HostRing.HorizonExact`), and exactly then is the verdict as promised on every
  ring and window (`HostRing.VerdictExact`). Otherwise a window that is covered as
  promised can be judged partial (`HostRing.ClockStepJudgedPartial`), never the reverse
  (`HostRing.CompleteKeepsPromise`).
- **Shown without a wake.** Results that arrive while a tab is hidden wake nobody; when it
  is shown, the refresh that follows makes up for them, unless the engine is by then
  blocked on a full result channel (`ObserveWake.ShownResultsWake`). That can happen to
  every dashboard that is not empty (`ObserveWake.AlwaysWakesExact`); it cannot once the
  UI has ticked since the tab was shown (`ObserveWake.TickedResultsWake`).
- **A delayed store.** The flag is cleared by a `Release` store, which does not by itself
  come before the channel reads that follow it. No wake is lost exactly when the store is
  visible before the read that ends the drain (`WakeFence.NoLostWakeExact`); otherwise
  `WakeFence.DelayedStoreLosesWake` is a run that strands a result. Whether the channel's
  own synchronisation enforces that order is not part of this model.
- **Input after a panic.** A run that unwinds while it owes a reader leaves the reader
  flag set, and in no other case does the flag lie (`InputRouter.FlagLiesExactly`). No
  later run reads any input (`InputRouter.DeadForGood`, `InputRouter.PanicKillsInput`).
- **Owner lock-out.** A manifest of more than 4,096 bytes is written but refused when
  read back (`AccountHome.OwnerReadmittedIfFits`), so an account with a name of 2,048
  bytes loses its own home (`AccountHome.LongNameLockedOut`,
  `AccountHome.LongNameExists`).
- **Name collisions.** Numbering repeated names makes them distinct exactly when no
  name is already spelled like a number that is handed out
  (`UniqueNames.DistinctIffNoneSpellsANumber`). Before numbering, series of one metric
  with different labels never meet exactly when label keys may not use all three of
  equals sign, quote and comma (`NameCollisions.LabelKeysExact`,
  `NameCollisions.SyntaxCollides`). Series of different metrics meet only through the
  fallback name exactly when metric names may not use a brace
  (`NameCollisions.MetricNamesExact`), and then exactly when one has neither metric nor
  label and the other's bare metric is spelled like its fallback
  (`NameCollisions.MetricsMeetExactly`).

## Model

| member | source | states |
|---|---|---|
| `Utf8.UnitIsMaximalSubpart` | crates/thegn-core/src/asciicast.rs:96-102 | lossy decoding takes the scalar whose encoding begins the input, else one U+FFFD for the longest prefix that could begin a well-formed sequence (or one byte): section 3.9 of the Unicode Standard against the encoder of RFC 3629 |
| `Utf8.EncodeBits` | crates/thegn-core/src/asciicast.rs:96-102 | the encoder is that of section 3 of RFC 3629 bit by bit: length, lead mark and payload |
| `Utf8.LossyInvertsEncode` | crates/thegn-core/src/asciicast.rs:96-102 | decoding undoes encoding for every text |
| `Utf8.EncodeInvertsLossy` | crates/thegn-core/src/account.rs:137-147 | bytes are valid UTF-8 exactly when encoding their lossy decoding gives them back |
| `Utf8Carry.IncompleteTailLen` | crates/thegn-core/src/asciicast.rs:141-167 | the backward scan finds exactly the open tail: a lead byte and fewer continuation bytes than it announces |
| `Utf8Carry.LossySplits` | crates/thegn-core/src/asciicast.rs:141-167 | decoding distributes over every cut that has no open tail before it or no continuation byte after it |
| `Utf8Carry.PushIsFinal` | crates/thegn-core/src/asciicast.rs:109-121 | the emitted part is final: however the stream goes on, its decoding begins with what was emitted |
| `Utf8Carry.HeldMayComplete` | crates/thegn-core/src/asciicast.rs:137-167 | a held tail can still be completed exactly when its lead begins some sequence and its second byte, if there, fits the lead |
| `Utf8Carry.HeldOnlyIfNeeded` | crates/thegn-core/src/asciicast.rs:137-167 | every other held tail is decoded the same whatever follows it, and exactly those |
| `Utf8Carry.GarbageIsHeld` | crates/thegn-core/src/asciicast.rs:141-163 | two tails that can never complete and are held: a bad lead and a bad second byte |
| `Utf8Carry.Carry.Push` | crates/thegn-core/src/asciicast.rs:109-121 | at most three bytes are held, emitted bytes followed by held bytes are the bytes received, and the emitted text never has to be taken back |
| `Utf8Carry.Carry.Flush` | crates/thegn-core/src/asciicast.rs:123-133 | the held bytes are decoded and the buffer is empty |
| `Utf8Carry.ChunkingUnobservable` | crates/thegn-core/src/asciicast.rs:108-133 | for every byte string and every way of cutting it, pushes and a final flush give the lossy decoding of the whole |
| `Utf8Carry.TextSurvivesChunking` | crates/thegn-core/src/asciicast.rs:96-102 | a text sent as UTF-8 comes out unchanged however it was cut |
| `Utf8Carry.Record` | crates/thegn-core/src/asciicast.rs:108-133 | the object driven over a chunked stream yields the decoding of the whole |
| `HostRing.Source.Admit` | crates/gtui-query/src/host.rs:325-344 | the ring becomes the newest 86,400 of the entries that the new clock reading leaves standing, followed by the sample, and stays sorted |
| `HostRing.AdmitKeepsShape` | crates/gtui-query/src/host.rs:325-344 | one admission keeps the ring sorted, bounded, within 24 hours of the sample and ending in it |
| `HostRing.AdmitKeepsStanding` | crates/gtui-query/src/host.rs:325-344 | and it drops nothing else: what is within 24 hours before the sample stays, but for the oldest beyond 86,400 |
| `HostRing.RingInvariant` | crates/gtui-query/src/host.rs:22-26 | after any admissions with timestamps in any order the ring is sorted, at most 86,400 long, within 24 hours of the newest sample and ends in it |
| `HostRing.RingHoldsStanding` | crates/gtui-query/src/host.rs:325-344 | the ring is a suffix of the samples that no later admission invalidated, and all of them until the capacity is reached |
| `HostRing.PartitionPoint` | crates/gtui-query/src/host.rs:208-210 | binary search finds the end of the longest prefix that satisfies a monotone test |
| `HostRing.SliceIsWindow` | crates/gtui-query/src/host.rs:208-211 | the slice between the two binary searches is the linear filter `from <= ts <= to`, also for an inverted window |
| `HostRing.HasInteriorGap` | crates/gtui-query/src/host.rs:364-375 | true exactly when two consecutive points are more than the tolerated gap apart |
| `HostRing.GapVerdict` | crates/gtui-query/src/host.rs:204-240 | the leading test and the spacing test together hold exactly when samples begin in time and every open stretch over 3 s up to the horizon holds one |
| `HostRing.CoveredInSeconds` | crates/gtui-query/src/host.rs:27-32 | coverage in figures: at most 2 s late, no open stretch over 3 s without a sample |
| `HostRing.HorizonExact` | crates/gtui-query/src/host.rs:181-184 | the judged window ends where the documentation says exactly when there is no sample, the newest follows the window, or it is not past the clock; it never ends earlier |
| `HostRing.VerdictExact` | crates/gtui-query/src/host.rs:178-240 | the verdict is as documented on every ring that ends in a given sample and for every window start exactly when that sample follows the window or is not past the clock |
| `HostRing.CompleteKeepsPromise` | crates/gtui-query/src/host.rs:178-184 | a window judged complete is covered as far as promised |
| `HostRing.ClockStepJudgedPartial` | crates/gtui-query/src/host.rs:207-240 | a window covered as far as the clock reads and judged partial |
| `HostRing.Judge` | crates/gtui-query/src/host.rs:207-240 | Complete exactly when the window is covered; Partial carries the oldest retained timestamp |
| `HostRing.ColumnsAreRows` | crates/gtui-query/src/host.rs:192-257 | row k of the columns is the k-th entry of the ring within the window that carries the metric of that name, with its timestamp and that field |
| `HostRing.Source.FrameForAt` | crates/gtui-query/src/host.rs:176-262 | the frame's rows are the retained samples of the window that carry the named metric, by the sample's own field, its coverage is the exact verdict, and an unknown metric gives an empty complete frame |
| `WakeGate.NextKeepsInv` | crates/gtui-app/src/engine.rs:59-70 | what every atomic step of producer and UI keeps |
| `WakeGate.NoLostWake` | crates/gtui-app/src/engine.rs:29-36 | over every interleaving, waiting results with both sides idle imply a wake since the last clear, unless a result found the tab hidden, which cannot happen while it stays visible |
| `WakeGate.WakesCoalesce` | crates/gtui-app/src/engine.rs:59-70 | at most one swap wins between two clears, and two callbacks fire exactly when the clear came between a swap and its callback and another callback followed |
| `WakeGate.HiddenNeverWakes` | crates/gtui-app/src/engine.rs:31-33 | while the tab stays hidden no wake fires but one decided before |
| `WakeGate.LateWakeDoubles` | crates/gtui-app/src/engine.rs:61-69 | a run in which two callbacks fire between two clears |
| `WakeFence.NoLostWakeExact` | crates/gtui-app/src/engine.rs:66-69 | with the clearing store delayed at will, no result is left unannounced in any interleaving exactly when the store is visible before the read that ends the drain |
| `WakeFence.DelayedStoreLosesWake` | crates/gtui-app/src/engine.rs:61-69 | a run in which the delayed store strands a result |
| `ObserveWake.NextKeepsInv` | crates/gtui-app/src/engine.rs:255-516 | every step of UI and engine keeps: the commands under way take the engine where the gate is, and a skipped result is followed by another look at the gate |
| `ObserveWake.ShownResultsWake` | crates/gtui-app/src/engine.rs:29-70 | over every interleaving of loop, channel and gate, hides and shows included: a shown tab at rest with results waiting has been woken since the last clear, unless the engine is blocked on a full channel after a result found the tab hidden |
| `ObserveWake.TickedResultsWake` | crates/gtui-app/src/app.rs:100-112 | once the UI has ticked while the tab is shown, every rest with results waiting has been woken, blocked engine or not, until the tab is hidden |
| `ObserveWake.ShownButStalled` | crates/gtui-app/src/engine.rs:484-491 | for every dashboard with a panel, a run that ends shown, blocked and not woken |
| `ObserveWake.AlwaysWakesExact` | crates/gtui-app/src/engine.rs:484-491 | the wake is certain in every run exactly for an empty dashboard |
| `QueryCycle.PanelJob` | crates/gtui-app/src/engine.rs:413-442 | a job reports one result per kept target in order, and the omission marker when there are more than 32 |
| `QueryCycle.JobReportsAnswers` | crates/gtui-app/src/engine.rs:373-442 | the reported targets are those not hidden, in order, under reference and alias, result i is the datasource's answer i, and one marker stands for all beyond 32 |
| `QueryCycle.JobReportsFailure` | crates/gtui-app/src/engine.rs:423-482 | without a datasource and after a panic every target has failed |
| `QueryCycle.JoinSendsResults` | crates/gtui-app/src/engine.rs:453-491 | each joined task sends one update for its own panel: its results, or a failure for each of its targets |
| `QueryCycle.SameIdentitiesEitherWay` | crates/gtui-app/src/engine.rs:403-482 | a job's update names the same targets whether it finished or panicked |
| `QueryCycle.NextKeepsInv` | crates/gtui-app/src/engine.rs:453-496 | joining one task and refilling keeps the partition, the bookkeeping and the full window |
| `QueryCycle.CycleInvariant` | crates/gtui-app/src/engine.rs:396-496 | in every reachable state, not started, in flight and delivered panels partition the dashboard, at most four are in flight and never fewer while some have not started, and the kept identities are keyed by exactly the live tasks |
| `QueryCycle.CompleteDeliversEachPanelOnce` | crates/gtui-app/src/engine.rs:453-516 | a finished cycle has sent exactly one update per panel, all with one window and each with its panel's identities |
| `QueryCycle.QueryAll` | crates/gtui-app/src/engine.rs:449-516 | the select loop implements the cycle and keeps its invariant |
| `QueryEngine.QueryEngine.ApplyCommand` | crates/gtui-app/src/engine.rs:316-350 | the effect of each command and whether it asks for a refresh |
| `QueryEngine.QueryEngine.ResolveWindow` | crates/gtui-app/src/engine.rs:519-536 | the window is well formed, its end never moves back and stays put while paused |
| `EngineLoop.NextKeepsRequests` | crates/gtui-app/src/engine.rs:263-314 | what every step of the command loop keeps about owed refreshes |
| `EngineLoop.RequestsCoalesce` | crates/gtui-app/src/engine.rs:255-350 | over every command sequence no cycle begins while hidden, a waiting loop is hidden or owes no cycle, and however many requests are accepted between two cycles they cause exactly one |
| `EngineLoop.WindowsNeverRegress` | crates/gtui-app/src/engine.rs:519-536 | over every run and clock, `from <= to` and the windows' ends never decrease |
| `EngineHistory.WindowsFollowCommands` | crates/gtui-app/src/engine.rs:316-350 | over every run each window ends at the greatest clock reading sampled so far, by the first cycle and every unpaused one, and is as wide as the last range set, else as at first, whenever the calendar can express it |
| `EngineHistory.TakenInOrder` | crates/gtui-app/src/engine.rs:255-314 | every command sent is taken once and in order or still queued |
| `EngineHistory.WaitingLoopResponds` | crates/gtui-app/src/engine.rs:263-286 | a waiting loop begins a cycle at once for exactly the commands that ask for one, and for a tick exactly when shown and not paused |
| `EngineHistory.CyclingLoopResponds` | crates/gtui-app/src/engine.rs:497-513 | during a cycle such a command leaves one owed; a hide or a new range, and nothing else, ends the cycle |
| `EngineHistory.SweepingLoopResponds` | crates/gtui-app/src/engine.rs:300-312 | between cycles such a command leaves one owed, and none begins before the queue is empty |
| `Reduction.ScanFindsPicks` | crates/gtui-render/src/timeseries.rs:128-151 | the scan finds each bucket's first, last, least and greatest finite sample (the earliest among equals) and its first non-finite one |
| `Reduction.ReducedKeepsPicks` | crates/gtui-render/src/timeseries.rs:152-161 | the emitted indices increase strictly, are at most five per bucket and hold every pick of every bucket |
| `Reduction.ExtremaSurvive` | crates/gtui-render/src/timeseries.rs:24-31 | for every finite sample in a bucket, one at least as low and one at least as high are emitted |
| `Reduction.ReduceByLayout` | crates/gtui-render/src/timeseries.rs:190-220 | the one-pass loop over time buckets emits exactly the picks, sorted and without duplicates |
| `IndexPlot.LayoutIsEdges` | crates/gtui-render/src/timeseries.rs:45-48 | the bucket edges `b * n / pixels` put every sample into exactly one bucket |
| `IndexPlot.EdgeIs` | crates/gtui-render/src/timeseries.rs:45-48 | the edges are evenly spaced |
| `IndexPlot.ReduceByIndex` | crates/gtui-render/src/timeseries.rs:43-67 | emitting bucket after bucket gives the same indices as reducing all at once |
| `IndexPlot.IndexPicksKeep` | crates/gtui-render/src/timeseries.rs:24-68 | for every series and width the emitted samples are an in-order subsequence, at most five per pixel |
| `IndexPlot.IndexExtremaSurvive` | crates/gtui-render/src/timeseries.rs:24-68 | the global extrema of the plotted samples are emitted |
| `IndexPlot.PointsAreSamples` | crates/gtui-render/src/timeseries.rs:32-42 | the points are samples at their own positions among the newest 2^21, in order, and all of them when there are at most four to a pixel |
| `IndexPlot.PlotPoints` | crates/gtui-render/src/timeseries.rs:32-68 | the points are the picks of the newest bounded suffix at their original positions |
| `TimePlot.DomainCovers` | crates/gtui-render/src/timeseries.rs:101-137 | without a window exactly the finite timestamps are in range, so both reducing loops bucket the same samples |
| `TimePlot.DomainExact` | crates/gtui-render/src/timeseries.rs:101-115 | the domain is the extent of the finite timestamps, widened by half a unit when it is one instant |
| `TimePlot.WindowHonoured` | crates/gtui-render/src/timeseries.rs:93-100 | a requested window is used exactly when finite and not empty or inverted |
| `TimePlot.BucketBounds` | crates/gtui-render/src/timeseries.rs:133-137 | a timestamp lies within the bounds of the bucket it is put into |
| `TimePlot.TimePicksKeep` | crates/gtui-render/src/timeseries.rs:82-163 | for every timed series, width and window the emitted samples are an in-order subsequence, at most five per pixel |
| `TimePlot.TimeExtremaSurvive` | crates/gtui-render/src/timeseries.rs:165-222 | the extrema of the plotted range are emitted |
| `TimePlot.TimedPointsAreSamples` | crates/gtui-render/src/timeseries.rs:116-126 | the points are samples in range among the newest 2^21, in order, and all of them when there are at most four to a pixel |
| `TimePlot.CountsAgree` | crates/gtui-render/src/timeseries.rs:254-275 | the reducer's and the threshold's sample counts agree |
| `TimePlot.ReductionMakesNoGaps` | crates/gtui-render/src/timeseries.rs:234-287 | in a reduced series emitted finite samples in the same or adjacent time buckets are always within the line-break threshold |
| `TimePlot.PlotTimePointsIn` | crates/gtui-render/src/timeseries.rs:87-163 | the points are the picks of the newest bounded suffix within the window, the domain is the usable window or the timestamps' own extent |
| `Series.LinesAre` | crates/gtui-render/src/timeseries.rs:226-287 | the drawn lines are exactly the consecutive finite points no further apart than the threshold |
| `Series.ReducedFrameKeepsLines` | crates/gtui-render/src/timeseries.rs:330-413 | of a reduced timed frame, consecutive finite points in the same or adjacent time buckets are joined by a drawn line |
| `Series.HolesBreakLines` | crates/gtui-render/src/timeseries.rs:245-287 | of a timed frame with n finite timestamps in range, consecutive finite points are joined exactly when their distance times n - 1 is at most three spans or, in a reduced frame, they are at most two bucket widths apart |
| `Series.ReduceChooses` | crates/gtui-render/src/timeseries.rs:330-364 | which plot a frame gets and which bounds |
| `Series.ValueFieldIsFirst` | crates/gtui-render/src/timeseries.rs:336 | the plotted column is the first floating-point one |
| `Series.TimeFieldIsFirst` | crates/gtui-render/src/timeseries.rs:337-342 | its timestamps are the first time column of the same length |
| `Series.BoundsExact` | crates/gtui-embed/src/embed.rs:820-847 | the fallback bounds are the index range and the value range with a tenth of margin |
| `Series.BoundsContainValues` | crates/gtui-embed/src/embed.rs:820-847 | the fallback bounds never collapse and contain every finite value strictly |
| `SeriesCache.ObserveApp.ApplyUpdate` | crates/gtui-app/src/app.rs:114-121 | the generation counter advances and the panel takes it together with the update's targets and window |
| `SeriesCache.ObserveApp.Tick` | crates/gtui-app/src/app.rs:100-112 | every waiting result is applied in order, and a change is reported exactly when there was one |
| `SeriesCache.ShowsLatest` | crates/gtui-app/src/app.rs:102-145 | after any updates a panel shows the targets and window of its latest one, whose number is its generation |
| `SeriesCache.RenderCache.Lookup` | crates/gtui-embed/src/embed.rs:520-539 | a lookup reuses the entry of an equal key, else reduces and stores |
| `SeriesCache.RenderCache.FinishPass` | crates/gtui-embed/src/embed.rs:516-518 | only touched entries stay |
| `SeriesCache.EntrySurvivesUpdate` | crates/gtui-app/src/app.rs:114-121 | an update retires the entries of its own panel and leaves the others valid |
| `SeriesCache.CacheIsTransparent` | crates/gtui-embed/src/embed.rs:756-776 | for every interleaving of fewer than 2^64 updates and render passes, a lookup returns what a fresh reduction of the shown frame, window and width would |
| `SeriesCache.DrawReducesOnMiss` | crates/gtui-embed/src/embed.rs:520-539 | a draw reduces exactly when the series has no entry for its generation, window and width |
| `SeriesCache.RedrawIsFree` | crates/gtui-embed/src/embed.rs:512-539 | what is drawn again in the next pass is not reduced again |
| `SeriesCache.UpdatedIsRedrawn` | crates/gtui-embed/src/embed.rs:520-539 | what an update has replaced is |
| `SeriesCache.PassKeepsOnlyDrawn` | crates/gtui-embed/src/embed.rs:512-518 | after a pass the cache holds exactly the series drawn in it |
| `Automation.AdmissionKeepsLimit` | crates/thegn-core/src/automation.rs:393-412 | admitting at a time that no other follows within the hour, with the hour that ends there not full, leaves no hour overfull |
| `Automation.TotalUpdates` | crates/thegn-core/src/automation.rs:403-437 | changing one rule's ledger changes the action-wide sum by exactly that ledger's difference |
| `Automation.EvaluateOne` | crates/thegn-core/src/automation.rs:362-459 | the decision for one rule, with the order of its refusals and the ledger it leaves |
| `Automation.Evaluate` | crates/thegn-core/src/automation.rs:334-360 | the decisions of one event: each rule sees the fires that earlier rules admitted |
| `AutomationDecisions.OneDecided` | crates/thegn-core/src/automation.rs:362-459 | a rule acts exactly when none of the eight refusals applies, with the rendered parameters; otherwise the reason given is the first that applies |
| `AutomationDecisions.TotalIs` | crates/thegn-core/src/automation.rs:403-412 | the action-wide count is the number of recorded fires of the capability in the hour |
| `AutomationDecisions.PlanDecides` | crates/thegn-core/src/automation.rs:334-360 | an event gets one decision for each rule of its kind, target and predicate, in order, against the ledgers left by the rules before |
| `AutomationDecisions.ActionsAreEarned` | crates/thegn-core/src/automation.rs:334-459 | over every persisted run the actions returned are exactly those of the rules that are asked and not refused, in order |
| `AutomationRuns.PersistedIsRunOfAttempts` | crates/thegn-core/src/automation.rs:340-359 | a scratch ledger inside events and persistence between them amount to one sequence of attempts, with the same actions |
| `AutomationRuns.WindowExact` | crates/thegn-core/src/automation.rs:393-399 | the saturated hour counts right exactly when nothing fired at the smallest clock value within it |
| `AutomationRuns.DebounceExact` | crates/thegn-core/src/automation.rs:387-391 | the debounce test spaces fires for all clock readings exactly when the setting fits 63 bits |
| `AutomationRuns.RuleSpacing` | crates/thegn-core/src/automation.rs:387-426 | for any clock, even one that steps back, a rule's fires never go back and are at least the debounce apart, and its ledger matches its history |
| `AutomationRuns.RuleLimit` | crates/thegn-core/src/automation.rs:393-426 | no hour holds more fires of a rule than its limit, for any clock that does not continue within the hour after its smallest value |
| `AutomationRuns.ActionLimit` | crates/thegn-core/src/automation.rs:403-437 | with a clock that never returns to an hour it has left (in particular one that does not step back), no hour holds more actions of a capability than its limit, and the rules' ledgers sum to exactly the admitted actions |
| `AutomationRuns.SteadyClockNeverReturns` | crates/thegn-core/src/automation.rs:403-412 | a clock that does not step back is such a clock |
| `AutomationRuns.PlannerSpacing` | crates/thegn-core/src/automation.rs:331-391 | spacing of the actions returned over every run of deliveries whose transitions were persisted, whatever the clock |
| `AutomationRuns.PlannerRuleLimit` | crates/thegn-core/src/automation.rs:331-402 | the per-rule limit for the actions returned over every such run |
| `AutomationRuns.PlannerActionLimit` | crates/thegn-core/src/automation.rs:331-360 | the action-wide limit for the actions returned over every such run, including several within one event |
| `AutomationClock.ActionLimitExact` | crates/thegn-core/src/automation.rs:403-437 | the action-wide limit holds for every configuration of rules and events exactly on clocks that never return to an hour they have left and never read their smallest value |
| `AutomationClock.StepsBack` | crates/thegn-core/src/automation.rs:403-412 | one step back breaks the action-wide limit exactly when it is shorter than an hour |
| `AutomationClock.RuleLimitExact` | crates/thegn-core/src/automation.rs:393-402 | the per-rule limit holds for every configuration exactly on clocks that do not continue within the hour after their smallest value |
| `AutomationClock.SoloBreaks` | crates/thegn-core/src/automation.rs:393-402 | a fire at the smallest clock value lets its rule fire again within the hour |
| `AutomationOnce.KeptAreGreatest` | crates/thegn-core/src/automation.rs:438-446 | over every run of attempts a once-per-key rule's ledger holds exactly the 2,048 greatest keys it has fired for, or all of them |
| `AutomationOnce.LedgerHoldsGreatest` | crates/thegn-core/src/automation.rs:438-446 | the same for the ledgers persisted over every run of deliveries |
| `AutomationOnce.NeverTwice` | crates/thegn-core/src/automation.rs:384-386 | over every run of deliveries in which no key is delivered again after 2,048 greater ones, a once-per-key rule fires at most once for each key |
| `AutomationOnce.OncePerKeyHolds` | crates/thegn-core/src/automation.rs:384-446 | while a rule has fired for at most 2,048 distinct keys, it has fired once for each and its ledger holds exactly those keys |
| `AutomationOnce.FullSetForgetsLeast` | crates/thegn-core/src/automation.rs:438-446 | one step of that: a full key set records a new key exactly when it is not the least |
| `AutomationLapse.OncePerKeyExact` | crates/thegn-core/src/automation.rs:384-446 | for every sequence of delivered keys: no configuration fires twice for a key exactly when no key is delivered again after 2,048 distinct greater ones |
| `AutomationLapse.LapseRepeats` | crates/thegn-core/src/automation.rs:438-446 | the run behind the failing side: a rule that is delivered 2,049 keys and then the least of them again fires twice for a key |
| `AutomationLapse.FloodRepeats` | crates/thegn-core/src/automation.rs:438-446 | such a run in the concrete |
| `Activity.StampsAreStreaks` | crates/thegn-core/src/activity_step.rs:11-18 | the two stamps are the beginnings of the unbroken streaks that end the history |
| `Activity.WaitingEdge` | crates/thegn-core/src/activity_step.rs:148-165 | white turns red exactly when the unbroken quiet streak spans the grace and an agent may be there; with a positive grace that takes two quiet observations |
| `Activity.WaitingSince` | crates/thegn-core/src/activity_step.rs:160-163 | a dot that turns red carries the beginning of its quiet streak |
| `Activity.ActiveEdges` | crates/thegn-core/src/activity_step.rs:148-165 | white disappears exactly when the quiet streak spans the grace without an agent, and stays exactly when busy or the streak is shorter |
| `Activity.WakeEdge` | crates/thegn-core/src/activity_step.rs:166-174 | from no dot one more observation leaves the worktree active, and stamped, exactly when busy |
| `Activity.UnknownStateWakes` | crates/thegn-core/src/activity_step.rs:166-174 | the same from any other state |
| `Activity.AckedEdge` | crates/thegn-core/src/activity_step.rs:11-18 | looking turns waiting into read and changes nothing else |
| `Activity.ResumeEdge` | crates/thegn-core/src/activity_step.rs:132-147 | red turns white exactly when the unbroken busy streak spans the resume grace, clears exactly when quiet without an agent, and is otherwise kept |
| `Activity.AbsentNeverRed` | crates/thegn-core/src/activity_step.rs:24-31 | a worktree always known to have no agent never shows red |
| `Activity.RecencyIsLastWork` | crates/thegn-core/src/activity_step.rs:179-190 | the recency stamp is the latest busy observation that left the worktree active, carried through every other event |
| `InputRouter.InputRouter.Attach` | crates/tg-kit/src/standalone.rs:85-97 | a second attachment is refused; the first takes the parked events and owes a reader exactly when none lives |
| `InputRouter.InputRouter.RouteEvent` | crates/tg-kit/src/standalone.rs:103-117 | an event goes to the attached run, or is parked and stops the reader |
| `InputRouter.InputRouter.FinishSpawn` | crates/tg-kit/src/standalone.rs:123-127 | a reader that was owed and not started is struck off |
| `InputRouter.NextKeepsOneReader` | crates/tg-kit/src/standalone.rs:155-239 | every step, a run that unwinds included, keeps the reader flag true to the readers that live or are owed, or to a run having unwound while it owed one |
| `InputRouter.NextKeepsConserved` | crates/tg-kit/src/standalone.rs:155-239 | every step keeps the order and number of events read |
| `InputRouter.InputConserved` | crates/tg-kit/src/standalone.rs:84-239 | over every interleaving at most one reader lives, at most one event is parked, and every event read is handed over exactly once and in order or is still on its way |
| `InputRouter.SinkAlwaysOpen` | crates/tg-kit/src/standalone.rs:103-111 | whoever holds the sink has not returned, so a send to it cannot fail |
| `InputRouter.HandedToAttached` | crates/tg-kit/src/standalone.rs:103-111 | an event is handed only to the run that holds the sink |
| `InputRouter.FlagLiesExactly` | crates/tg-kit/src/standalone.rs:123-146 | the flag is set without a reader living or owed exactly when some run unwound while it owed one |
| `InputRouter.DeadForGood` | crates/tg-kit/src/standalone.rs:85-97 | from then on no event is ever read |
| `InputRouter.PanicKillsInput` | crates/tg-kit/src/standalone.rs:155-210 | a tile that panics while it is built leaves the next run looping without a reader |
| `PumpSignal.NextKeepsToken` | crates/tg-kit/src/standalone.rs:46-59 | every step keeps exactly one holder for a set flag |
| `PumpSignal.PulsesCoalesce` | crates/tg-kit/src/standalone.rs:39-59 | for any number of producers the channel never holds two pulses, a set flag has exactly one holder (a winning producer, a queued pulse or the acknowledging loop), and an unseen publication is still on its way |
| `PumpSignal.NothingLost` | crates/tg-kit/src/standalone.rs:277-319 | once everything is at rest the tile has seen every publication |
| `PumpSignal.EveryWakePumps` | crates/tg-kit/src/standalone.rs:277-319 | whatever the loop wakes for, by the time it waits again the tile has seen everything published before |
| `OwnerManifest.DecodeInvertsEncode` | crates/thegn-core/src/account.rs:105-131 | hex decoding undoes encoding |
| `OwnerManifest.EncodeInvertsDecode` | crates/thegn-core/src/account.rs:105-131 | what decodes is the encoding of its result |
| `OwnerManifest.HexDigitsAre` | crates/thegn-core/src/account.rs:105-114 | two lower-case digits to a byte, the high nibble first |
| `OwnerManifest.ParseInvertsManifest` | crates/thegn-core/src/account.rs:97-149 | a manifest is read back as its owner exactly when the provider has no newline |
| `OwnerManifest.ManifestInvertsParse` | crates/thegn-core/src/account.rs:133-149 | whatever parses is the one manifest of its owner |
| `OwnerManifest.ManifestText` | crates/thegn-core/src/account.rs:97-103 | the text of a manifest to the letter |
| `OwnerManifest.ParseExact` | crates/thegn-core/src/account.rs:133-149 | what parses is exactly what is some owner's manifest |
| `AccountHome.StateDir.EnsureClaiming` | crates/thegn-core/src/account.rs:182-280 | the outcome and new state of one claim, with every refusal |
| `AccountHome.StateDir.Create` | crates/thegn-core/src/account.rs:157-180 | an existing entry is never adopted for a new account, and one that cannot be inspected is refused as unsafe |
| `AccountHome.ManifestNeverChanges` | crates/thegn-core/src/account.rs:241-279 | over every history a manifest once written stays |
| `AccountHome.GrantIsOwned` | crates/thegn-core/src/account.rs:241-279 | a granted home carries the manifest of the account it was granted to |
| `AccountHome.GrantExact` | crates/thegn-core/src/account.rs:182-280 | a claim is granted exactly when the provider is known, nothing fails, and the home carries this account's own manifest of at most 4,096 bytes, or none and then no files when aliases exist |
| `AccountHome.MalformedExact` | crates/thegn-core/src/account.rs:208-247 | a home is malformed exactly when its manifest is too long or no account's |
| `AccountHome.RefusalNamesOwner` | crates/thegn-core/src/account.rs:248-253 | a foreign home's refusal names its owner |
| `AccountHome.CreateRefuses` | crates/thegn-core/src/account.rs:160-176 | what a new account is refused, in order |
| `AccountHome.ClaimTouchesOwnHome` | crates/thegn-core/src/account.rs:157-180 | a new account only gets a home that did not exist, and no claim changes another's home or its own contents |
| `AccountHome.ClaimLeavesDirectory` | crates/thegn-core/src/account.rs:198-206 | a claim that reaches the directory leaves it, so that no new account is granted it |
| `AccountHome.FilledNeverAdopted` | crates/thegn-core/src/account.rs:256-271 | over every history a claim under aliases is never granted an unowned home that was filled |
| `AccountHome.HomesAreExclusive` | crates/thegn-core/src/account.rs:383-403 | two accounts ever granted the same home are the same account, even when path components collide |
| `AccountHome.OwnerReadmittedIfFits` | crates/thegn-core/src/account.rs:208-223 | the owner's next claim succeeds exactly when its manifest is at most 4,096 bytes |
| `AccountHome.LongNameLockedOut` | crates/thegn-core/src/account.rs:208-279 | an account whose manifest is too long is granted its home once and refused it from then on |
| `AccountHome.LongNameExists` | crates/thegn-core/src/account.rs:97-103 | a name of 2,048 letters is such a name |
| `LabelText.EscapeLabelValue` | crates/gtui-query/src/prom_parser.rs:194-205 | the loop computes the escaping |
| `LabelText.EscapedQuoteSplits` | crates/gtui-query/src/prom_parser.rs:194-205 | the closing quote of an escaped value is unmistakable |
| `LabelText.NeverOutOfStep` | crates/gtui-query/src/prom_parser.rs:173-182 | no text can be read both inside a value and inside a key without commas: two such readings stay out of step until one runs out |
| `LabelText.LabelSetInjective` | crates/gtui-query/src/prom_parser.rs:173-182 | different label sets never render alike when no key contains an equals sign followed by a quote, or no key contains a comma |
| `LabelText.LabelsReadBack` | crates/gtui-query/src/prom_parser.rs:173-205 | a reader that unescapes backslash, quote and newline gets back the keys in order, each with its value |
| `SeriesNames.StatDecides` | crates/gtui-query/src/prom_parser.rs:121-143 | one pass of statistics decides exactly whether two members of a group disagree on a key |
| `SeriesNames.DistinguishingKeys` | crates/gtui-query/src/prom_parser.rs:121-145 | the loop finds exactly the keys on which two series of the metric differ |
| `SeriesNames.NamesBeforeSuffix` | crates/gtui-query/src/prom_parser.rs:107-190 | every series gets the name its group determines |
| `SeriesNames.NamesDiffer` | crates/gtui-query/src/prom_parser.rs:147-190 | two series of one metric with different labels never get the same name, for the same keys |
| `SeriesNames.NameLists` | crates/gtui-query/src/prom_parser.rs:147-190 | a braced name lists exactly the labels on which two series of the metric differ, in ascending order |
| `SeriesNames.DistinguishingAre` | crates/gtui-query/src/prom_parser.rs:121-145 | a key distinguishes exactly when two series of the metric differ on it |
| `NameCollisions.LabelKeysExact` | crates/gtui-query/src/prom_parser.rs:147-190 | for every set of characters in label keys: in every response two series of one metric with different labels get different names exactly when one of equals sign, quote and comma is not in the set |
| `NameCollisions.SyntaxCollides` | crates/gtui-query/src/prom_parser.rs:173-182 | two label sets over those three characters that get the same name |
| `NameCollisions.MetricsMeetExactly` | crates/gtui-query/src/prom_parser.rs:147-190 | when no metric name contains a brace, series of different metrics get the same name exactly when one has neither metric nor label and the other, named by its bare metric, is called like its fallback |
| `NameCollisions.FallbackMayCollide` | crates/gtui-query/src/prom_parser.rs:155-156 | an unlabelled series can get the name of a metric |
| `NameCollisions.MetricNamesExact` | crates/gtui-query/src/prom_parser.rs:147-190 | for every set of characters in metric names: in every response metrics meet through the fallback only exactly when the brace is not in the set |
| `NameCollisions.BraceMeets` | crates/gtui-query/src/prom_parser.rs:183-188 | every metric name that begins with a brace meets a series without a metric |
| `NameCollisions.BraceMayCollide` | crates/gtui-query/src/prom_parser.rs:183-188 | every metric has a series that meets a metric spelled like it |
| `UniqueNames.MakeUnique` | crates/gtui-query/src/prom_parser.rs:207-221 | the n-th occurrence of a name is numbered n |
| `UniqueNames.UniqueIs` | crates/gtui-query/src/prom_parser.rs:207-221 | a name that has not occurred stays; another gets a hash sign and the number of its occurrence, in decimal |
| `UniqueNames.DistinctIffNoneSpellsANumber` | crates/gtui-query/src/prom_parser.rs:207-221 | the final names are distinct exactly when no name is spelled like a number that is handed out |

## Left out

- Floating-point rounding: timestamps and samples are exact reals.
- Saturation of `width * 2` and of sample counts at the machine word: widths come from 16-bit columns.
- Memory ordering beyond the clearing store of the wake flag (`WakeFence`): every other step is atomic and seen in order.
- Real time: deadlines, ticker periods, parking and back-pressure delays; only the order of steps is modelled.
- Aborting a cycle (`abort_all`): an aborted cycle is any reachable state of the cycle model.
- Source activation (`set_active`) on hide and show, and the ticker reset.
- Shutting down while results wait: the composition of loop and gate is of a live app; disconnects are steps of `EngineLoop` alone.
- A poisoned sampler lock, the sampler thread and the metrics it reads.
- Predicate matching (globs, regular expressions) and template rendering of the planner: parameters.
- Enabled overrides set by the user between events of the planner.
- Races between concurrent claims of one home, symbolic links and permissions: claims are sequential and the file system refuses them at will.
- `home_component` (slugs and SHA-256): an arbitrary function, not assumed injective.
- Decoding of Prometheus responses, HTTP, Loki, and the stat, table and log renderers: network plumbing or easy members.
- Drawing, themes, terminal setup and teardown, the panic hook.
- Legacy Loki naming, account merging and shared directories: they would only add easy members.
