# Verified model of the predictive autoscaler

A Dafny model of the decision logic of a Kubernetes predictive autoscaler (a Go operator, its Python evidence tooling, its
forecasting service and its API-group migration), with proofs about whole runs: what an observer may conclude about a run
it only sampled, what every interleaving of a protocol keeps, and which promises of the documentation hold exactly when.

`dafny verify dfyconfig.toml` checks everything. The modules depend on nothing outside this directory.

## What is modelled

| part | modules |
|---|---|
| hourly load gate: bounds from sparse samples, PASS / FAIL / INCOMPLETE | `K6Counters`, `K6Tightness`, `EnvoyCounters`, `EnvoyTightness`, `LoadGate`, `Counting` |
| infrastructure-event detector: chunked reads, merging, gaps, bad runs, slot classes | `InfraSeries`, `InfraNormalize`, `InfraInventory`, `InfraGaps`, `InfraRuns`, `InfraEvents`, `InfraQuiet`, `InfraClassifier`, `Ordering` |
| operator scaling memory, decisions and their runs | `ScaleState`, `Controller`, `ScaleRuns`, `ScaleDecisions` |
| the conditional `/scale` write among other writers | `ScaleWrite` |
| v1 forecast cache and lead-time window | `ForecastCache` |
| forecast v2: feasibility, lead, windows, throttle, answers | `ForecastWindow`, `ForecastSchedule`, `ForecastAnswers` |
| online arm selector and the lagged linear forecaster's index discipline | `Selector`, `LaggedLinear` |
| API-group migration: replacement, comparison, cutover, activation | `MigrationSpec`, `Cutover`, `Activation` |
| matured-forecast scoring, slot admission | `Accuracy`, `Admission` |

Objects that the source updates in place are classes whose methods are proved against functions on values
(`Controller.Scaler`, `InfraEvents.Events`, `ForecastCache.Forecasts`, `ForecastSchedule.LeadStatus`,
`ForecastSchedule.Schedule`, `ForecastAnswers.Answers`, `LaggedLinear.Forecaster`, `Accuracy.Tracker`); loops stay loops with invariants; protocols
with several parties are step functions, and their theorems quantify over every sequence of steps. The run theorems are
about the functions; the methods' contracts tie the code's form to them.

## Conventions

- Times are integers (nanoseconds in the operator, milliseconds in the evidence tooling, seconds on the forecast grid,
  microseconds in the accuracy tracker); instants of hidden events are real.
- Rates are `real`, and a float `ceil`, product or division is the exact one. Counter values are whole numbers.
- Hashes and joined identity strings are injective: they are compared as the records they are computed from.
- Resource versions and UIDs are issued by a server that never issues one twice; every change takes a new version.
- I/O, clocks, the network and randomness are inputs or adversarial steps.
- The load gate's hidden run (`World.Behind`): the generator's events come after the millisecond its container started and
  reach the exporter within the sampling lag, its flushes are more than 7.5 s apart, and a flush whose heartbeat arrived
  delivered its samples; an Envoy value is read within the millisecond of its stamp, and no request precedes the pod's start
  or follows its final capture.

## Where the promise and the code differ

- A final Envoy snapshot names only its capture second. A scrape inside that second, read before the last request, makes
  the collector reject a lawful pod; this is the only such case (`TargetSound`, `CaptureSecondRejectsLawfulTarget`).
- The Envoy lower bound is the count of some lawful target with the same evidence, except where the final snapshot had
  settled the count before the hour's end and the code reads a later scrape instead: then every such target counts more.
  The upper bound, and both k6 bounds, are always reached (`TargetTightIff`, `SnapshotIsHidden`, `K6BoundsTight`).
- "The lead never shortens within one basis" holds while nothing replaces the basis in the status, which stores only one.
  A basis that leaves and returns may shorten it; the later lead is not shorter exactly when the basis was never replaced
  or some step since its return asked for at least the earlier length (`LeadShortensIff`, `LeadShortensOnReturn`).
- A cutover's delete follows the moment its run read the last operator's pods. At that moment no legacy operator pod exists
  exactly when no operator was given pods, and left with them, after its own read: the pods of several operators are read
  one after the other. With one operator that is always so; from two on there are executions in which at no moment at all
  every operator is without pods (`StoppedMomentIff`, `SeveralOperatorsMayOverlap`).
- After `activate` lists the legacy autoscalers, a target stays free of them exactly while nobody creates one on it or
  edits one onto it; ruling out creation alone is not enough (`ClearIff`, `RetargetingIsMissed`).
- With regular observations a matured forecast is scored at the first observation that reaches its target exactly when
  the observation before that one, taken before or after the store, was not past the target, or the first comes within the
  tolerance by itself. For a target that lay ahead at its store it is missed only at the very first observation of all
  (`RegularScoring`, `FirstObservationCanMiss`; `ScoredIff` is exact in general).
- Splitting a capacity interval is lossless if and only if every segment that ends before it starts has an ordered one, at
  least as bad, that reaches into the stretch between its end and its start (`CapacityLawIff`). On what the detector hands
  to the classifier this concerns whatever ends more than the washout before it starts (`DetectedLawIff`). A declared mask
  can be such a segment, and so can a generator's or pod's event whose times come from different series; where only
  masks are, each that does not fit needs an invalid segment to make up for it (`MaskLawIff`, `ReversedMaskBreaksLaw`).
- The streaming inventory finds the unchunked creation time, however the interval is cut, if and only if every prefix of
  the interval that holds a creation time has the same first one as the whole. So it is with one value; with two, the
  earlier chunk may win over the earlier label (`CreatedUnchunkedIff`, `CreatedDependsOnChunks`).

## Model

| member | source | states |
|---|---|---|
| K6Counters.CoversMeaning | deploy/prodcluster/collect_load_evidence.py:122-130 | the coverage check holds if and only if every instant of the span has observations on both sides at most the gap apart |
| K6Counters.K6BoundsSound | deploy/prodcluster/collect_load_evidence.py:133-157 | for every event history and every subset of pushes under the sampling contract, the bounds contain the true count of the hour; lawful samples are never called inconsistent and only a missing tail has no bounds |
| K6Counters.K6BoundsIff | deploy/prodcluster/collect_load_evidence.py:133-157 | consistent samples have bounds exactly when one is a lag past the hour or, where zero is allowed, none is in or after it |
| K6Tightness.K6BoundsTight | deploy/prodcluster/collect_load_evidence.py:133-157 | the bounds cannot be narrowed: some lawful history behind these very samples has the lower bound's count in the hour, and some other the upper bound's |
| K6Counters.CoveredFlushesDelivered | deploy/prodcluster/collect_load_evidence.py:655-657 | a covered heartbeat proves that no flush of the covered span was lost |
| K6Counters.SilentHourIsEmpty | deploy/prodcluster/collect_load_evidence.py:33-39 | the (0, 0) answer is exact: with covered heartbeats and no stored sample in or after the hour, nothing happened in it |
| K6Counters.K6Counter | deploy/prodcluster/collect_load_evidence.py:349-361 | the accumulation equals the sum of the series' bounds, ended by the first problem |
| K6Counters.BaseIsLatest | deploy/prodcluster/collect_load_evidence.py:349-361 | the base is the value of the latest sample of the look-back, or 0 |
| K6Counters.SeriesIs | deploy/prodcluster/collect_load_evidence.py:349-361 | a series counts nothing when no sample is visible, else it is bounded by exactly its visible samples from the base before them |
| K6Counters.SeriesSound | deploy/prodcluster/collect_load_evidence.py:349-361 | one series, with its look-back base and its query window, bounds the truth |
| K6Counters.CounterSound | deploy/prodcluster/collect_load_evidence.py:349-361 | the sum over a selector's series contains the sum of the hidden truths |
| K6Counters.CounterIff | deploy/prodcluster/collect_load_evidence.py:349-361 | a selector has bounds exactly when each of its series shows a sample a lag past the hour, or none in or after it |
| Counting.SumSound | deploy/prodcluster/collect_load_evidence.py:349-361 | adding sound bounds gives sound bounds of the sum |
| Counting.SumTight | deploy/prodcluster/collect_load_evidence.py:349-361 | the sum's bounds are the sums of the parts' bounds |
| EnvoyCounters.SnapshotAgreesIff | deploy/prodcluster/collect_load_evidence.py:171-188 | on a lawful target the snapshot check fails exactly for a scrape inside the capture second that was read early |
| EnvoyCounters.TargetSound | deploy/prodcluster/collect_load_evidence.py:160-209 | for every request history, scrape schedule, pod start and snapshot the bounds contain the true increment, and the series is rejected exactly when an hour edge is not followed or for that capture-second scrape |
| EnvoyTightness.TargetTightIff | deploy/prodcluster/collect_load_evidence.py:160-209 | the upper bound is the count of some lawful target that leaves the same evidence; the lower bound is one exactly unless the snapshot settled the count before the hour's end, unseen by the last scrape in it, and a later scrape is read instead |
| EnvoyTightness.SnapshotIsHidden | deploy/prodcluster/collect_load_evidence.py:194-203 | a concrete lawful target whose lower bound no target can have |
| EnvoyCounters.CaptureSecondRejectsLawfulTarget | deploy/prodcluster/collect_load_evidence.py:40-47 | a concrete lawful target that is rejected |
| LoadGate.GateSound | deploy/prodcluster/collect_load_evidence.py:277-286 | PASS means that all counts inside the bounds meet G1 to G3, FAIL that none do |
| LoadGate.GateExact | deploy/prodcluster/collect_load_evidence.py:277-286 | PASS and FAIL are given exactly when every point inside the bounds agrees |
| LoadGate.ArmEnvoy | deploy/prodcluster/collect_load_evidence.py:610-619 | the accumulation over pods and series equals the sum of their bounds |
| LoadGate.ArmSound | deploy/prodcluster/collect_load_evidence.py:610-619 | the arm's summed bounds contain the arm's true request count |
| LoadGate.ChooseFailedSound | deploy/prodcluster/collect_load_evidence.py:364-393 | whichever failure counter is chosen, its bounds contain the true failures, and sound counters are never called inconsistent |
| LoadGate.ChooseFailedRefuses | deploy/prodcluster/collect_load_evidence.py:364-393 | beside a dense counter the built-in one may lack only its tail, and two counters that share no count are refused |
| LoadGate.HourSound | deploy/prodcluster/collect_load_evidence.py:638-671 | end to end, whatever the hidden run: a PASS hour met G1, G2 and G3 and a FAIL hour broke one of them |
| LoadGate.HourDecidedIff | deploy/prodcluster/collect_load_evidence.py:638-671 | for every lawful run the hour is PASS, or FAIL, exactly when every reading is bracketed, every counter has its tail and all counts inside the bounds meet the criteria, or all break them; it is INCOMPLETE for no other reason |
| InfraSeries.FetchChunks | deploy/prodcluster/infra_events.py:741-746 | the chunks tile [lo, hi] in order |
| InfraSeries.TilesPartition | deploy/prodcluster/infra_events.py:741-746 | every instant of [lo, hi] is in exactly one chunk and no other instant in any |
| InfraSeries.Merge | deploy/prodcluster/infra_events.py:145-154 | keeps exactly the samples, once each and in time order, or names the earliest time with two different values |
| InfraSeries.MergeOrderIndependent | deploy/prodcluster/infra_events.py:145-154 | one series' result does not depend on line or chunk order, and is a rejection if and only if two samples share a time with different values |
| InfraNormalize.Normalize | deploy/prodcluster/infra_events.py:157-162 | groups lines by label set and returns every series once, in label order and merged, or the first label set with its earliest conflict |
| InfraNormalize.RejectedIff | deploy/prodcluster/infra_events.py:157-162 | normalizing rejects if and only if two samples of one series share a time with different values |
| InfraNormalize.NormalizeOrderIndependent | deploy/prodcluster/infra_events.py:157-162 | the whole normalized list, or its rejection, depends only on which samples each label set has, not on lines, chunks or their order |
| InfraInventory.Stream | deploy/prodcluster/infra_events.py:323-340 | the streaming fold over sorted chunks equals one fold over the whole unchunked history |
| InfraInventory.SummaryIs | deploy/prodcluster/infra_events.py:323-340 | what the fold knows in the end, without the fold: first and last value with its exporter, exactly the gaps above a minute between neighbouring values in order, and the marker that ended the series |
| InfraInventory.SortedChunksJoin | deploy/prodcluster/infra_events.py:323-340 | sorting chunk by chunk and joining gives the sorted whole |
| InfraInventory.ExtentIsRange | deploy/prodcluster/infra_events.py:309-317 | the folded extents are the least and greatest observed times |
| InfraInventory.ExtentIndependent | deploy/prodcluster/infra_events.py:309-317 | extents depend only on which samples were seen |
| InfraInventory.CreatedBy | deploy/prodcluster/infra_events.py:318-321 | the streaming pass keeps the first creation time of the first chunk that has one |
| InfraInventory.CreatedAnswersPrefix | deploy/prodcluster/infra_events.py:318-321 | so for any chunks it answers for the prefix that ends with the first chunk holding a creation time |
| InfraInventory.CreatedUnchunkedIff | deploy/prodcluster/infra_events.py:318-321 | it is what the unchunked read finds, for every tiling, if and only if every prefix with a creation time has the whole interval's first one |
| InfraInventory.CreatedUnchunked | deploy/prodcluster/infra_events.py:318-321 | in particular with one creation time |
| InfraInventory.CreatedDependsOnChunks | deploy/prodcluster/infra_events.py:318-321 | concrete chunks for which it is not, with two |
| InfraGaps.FarMeansGap | deploy/prodcluster/infra_events.py:184-198 | an instant whose neighbouring observations or edges are not within the limit lies in a reported gap |
| InfraGaps.GapMeansFar | deploy/prodcluster/infra_events.py:184-198 | no instant inside a reported gap has close neighbours |
| InfraRuns.JointScrapesExact | deploy/prodcluster/infra_events.py:201-205 | the joint scrapes are exactly the times all conditions share, with their joint health |
| InfraRuns.BadRuns | deploy/prodcluster/infra_events.py:208-220 | the loop returns the runs of the specification |
| InfraRuns.RunsExact | deploy/prodcluster/infra_events.py:208-220 | every unhealthy observation is in a run and every run is a maximal unhealthy stretch, bracketed by its neighbours |
| InfraEvents.EventCoversIff | deploy/prodcluster/infra_events.py:261-282 | an event makes invalid exactly the instants between its bracketing observations, unless it is a candidate that no record attributes to the infrastructure; unknown are its open sides and, for a candidate without a record, those instants |
| InfraEvents.Events.DetectWorker | deploy/prodcluster/infra_events.py:390-410 | one worker adds exactly its coverage gaps, joint gaps and run events, or is refused and adds nothing |
| InfraEvents.Events.DetectWorkers | deploy/prodcluster/infra_events.py:390-410 | all workers are accepted, and then the lists hold what each contributes, or the pass ends in a refusal |
| InfraEvents.UnquietIsTouched | deploy/prodcluster/infra_events.py:390-410 | every instant at which a worker was not quiet is touched by something the detector derived |
| InfraQuiet.TouchedIffUnquiet | deploy/prodcluster/infra_events.py:390-410 | between two neighbouring joint scrapes an instant is touched by what is derived for the worker if and only if the worker was not quiet there |
| InfraQuiet.QuietBetweenIff | deploy/prodcluster/infra_events.py:390-410 | quiet there means at most 60 s apart, and each scrape healthy or in a run that a record attributes to the systems |
| InfraClassifier.MoreSegmentsNeverImprove | deploy/prodcluster/infra_events.py:614-640 | adding a segment never improves a class |
| InfraClassifier.CapacityLawIff | deploy/prodcluster/infra_events.py:625-640 | for any segments and gates, the class of [a, c) is the worse of [a, b) and [b, c) at every cut if and only if every reversed segment that counts is backed by an ordered one at least as bad |
| InfraClassifier.DetectedLawIff | deploy/prodcluster/infra_events.py:569-623 | on the clipped and washed-out segments of any detected events, the law holds if and only if before clipping everything that ends more than the washout before it starts is backed |
| InfraClassifier.MaskLawIff | deploy/prodcluster/infra_events.py:569-623 | where only declared masks are reversed, it holds if and only if each mask that does not fit is made up for by an invalid segment |
| InfraClassifier.LoneMaskLawIff | deploy/prodcluster/infra_events.py:571-575 | a mask alone obeys the law if and only if it ends at most the washout before it starts |
| InfraClassifier.ReversedMaskBreaksLaw | deploy/prodcluster/infra_events.py:571-575 | an accepted declaration for which an interval is invalid and neither of its parts is |
| InfraClassifier.SegmentSplitsIff | deploy/prodcluster/infra_events.py:625-632 | exactly the segments that are not reversed obey the splitting law at every cut |
| InfraClassifier.RunEventObserved | deploy/prodcluster/infra_events.py:407-410 | a worker's run events are bracketed by their neighbouring observations |
| InfraClassifier.ExplainByMasks | deploy/prodcluster/infra_events.py:569-591 | the loop over masks clips exactly the explained generator events |
| InfraClassifier.ClipEventIs | deploy/prodcluster/infra_events.py:578-591 | the first mask that spans a generator event within 30 s takes out of each of its segments what lies inside the mask, and every other event is left as it is |
| InfraClassifier.ClippingChangesNoClass | deploy/prodcluster/infra_events.py:569-591 | clipping explained events changes the class of no slot and no target once the masks' own segments are present |
| InfraClassifier.VerifiedIff | deploy/prodcluster/infra_events.py:600-611 | an hour is verified if and only if its rows are exactly the arms, each a finalized qualifying PASS |
| InfraClassifier.GateFailIff | deploy/prodcluster/infra_events.py:600-611 | it is a gate failure if and only if it has the arms' rows, all final, each a qualifying PASS or a FAIL, and some a FAIL |
| InfraClassifier.CapacityIs | deploy/prodcluster/infra_events.py:614-640 | the class of a slot is the first that applies: an invalid event within the hour before it or in it, an unknown one or an unknown span, an unverified hour it touches, a failed one |
| InfraClassifier.TargetIs | deploy/prodcluster/infra_events.py:614-640 | the same of a target, for the 90 s up to it |
| InfraClassifier.VerifiedCleanMeansQuiet | deploy/prodcluster/infra_events.py:614-640 | in a verified_clean slot every declared worker's joint scrapes around every instant are within 60 s and healthy or attributed to the systems, and the instant's hour has exactly the arms' rows, each a finalized qualifying PASS |
| InfraClassifier.CleanTargetMeansQuiet | deploy/prodcluster/infra_events.py:634-637 | and so at every instant of the 90 s up to a verified_clean target |
| ScaleState.HeadroomFloorExact | k8s-operator/controllers/predictiveautoscaler_controller.go:979-988 | the floor is the least count that keeps the spare capacity, up to the maximum, and 0 where the headroom is off or the capacity unknown |
| Controller.Scaler.AdjustForOverestimation | k8s-operator/controllers/overestimate.go:31-165 | the in-place tracker equals its step on values |
| Controller.Scaler.HeadroomEventual | k8s-operator/controllers/predictiveautoscaler_controller.go:993-1003 | the in-place headroom rule equals its step on values |
| Controller.Scaler.CalculateScaleDownTarget | k8s-operator/controllers/predictiveautoscaler_controller.go:1310-1353 | the in-place scale-down rule equals its step on values |
| Controller.Scaler.ReconcileOnce | k8s-operator/controllers/predictiveautoscaler_controller.go:326-761 | one whole reconcile, with its early exits, equals the step on values |
| ScaleDecisions.ReconcileActs | k8s-operator/controllers/predictiveautoscaler_controller.go:1043-1069 | what every reconcile does: with a measurement it decides the one count singled out by need, forecast and bounds, without one it holds; a higher count is written at once, a lower one never below the floor, only after the holds and by at most the larger of two replicas and a tenth |
| ScaleDecisions.DecidedUnique | k8s-operator/controllers/predictiveautoscaler_controller.go:1043-1069 | that count is unique, and is the minimum, the maximum, the measured need or the forecast that takes part |
| ScaleDecisions.OverrideIff | k8s-operator/controllers/overestimate.go:31-165 | the holds are waived exactly while a cap applies, or applied and every reconcile since kept tracking without a re-evaluation |
| ScaleDecisions.CountersAre | k8s-operator/controllers/overestimate.go:31-165 | what a tracked forecast does to the streak and the re-evaluations, and that everything else clears them |
| ScaleRuns.ScaleDownsSpaced | k8s-operator/controllers/predictiveautoscaler_controller.go:663-761 | over every run with restarts, mode switches, replaced targets and changed queries, two acknowledged scale-downs are at least 2 min apart |
| ScaleRuns.ScaleDownAfterTwoWindows | k8s-operator/controllers/predictiveautoscaler_controller.go:326-339 | without an active override a scale-down is at least 10 min after any acknowledged scale-up and any fresh Active state |
| ScaleRuns.ScaleDownAfterFreshStart | k8s-operator/controllers/predictiveautoscaler_controller.go:326-339 | even under the override a fresh Active state delays scale-down by the cooldown |
| ScaleRuns.ScaleDownEndsUnbrokenWindow | k8s-operator/controllers/predictiveautoscaler_controller.go:1310-1353 | a scale-down without override ends a window of at least 5 min with no at-target, headroom-hold, conflict-hold, scale-up or signal-change reconcile inside |
| ScaleDecisions.HoldHasCause | k8s-operator/controllers/predictiveautoscaler_controller.go:1310-1353 | over every run a held scale-down has a cause: a scale-up or fresh state in the last 5 min, a scale-down or fresh state in the last 2 min, an unbroken stay below the count of less than 5 min, or nothing to remove |
| ScaleRuns.WriteBounds | k8s-operator/controllers/predictiveautoscaler_controller.go:697-735 | with min >= 1 every write under measured telemetry leaves the clamped reactive count and, going down, the headroom floor; without it writes only move toward [min, max]; a step removes at most max(2, 10 %) |
| ScaleRuns.Converges | k8s-operator/controllers/predictiveautoscaler_controller.go:1338-1352 | toward a fixed eventual count e the steps never undershoot and arrive within ceil((c - e) / 2) of them |
| ScaleRuns.RunConverges | k8s-operator/controllers/predictiveautoscaler_controller.go:697-735 | over every run whose eventual count stays e, the count never undershoots e and ceil((c - e) / 2) acknowledged scale-downs reach it, whatever is held, refused or restarted between |
| ScaleRuns.RunCountersBounded | k8s-operator/controllers/overestimate.go:107-139 | in every run max(0, streak - 10) <= reEvalCounter <= 29 |
| ScaleRuns.AdjustedBetween | k8s-operator/controllers/overestimate.go:31-165 | the adjusted count stays between reactive and predicted |
| ScaleRuns.RunCapCycle | k8s-operator/controllers/overestimate.go:31-165 | over every run, whatever is written or held between, the k-th consecutive overestimating reconcile after cleared counters decides with the capped count exactly when k mod 40 is in 3..10 and the cap is lower |
| ScaleWrite.AcceptedIffUnchanged | k8s-operator/controllers/predictiveautoscaler_controller.go:622-661 | in every interleaving an update is accepted if and only if nothing happened to the target since its Scale read; it then replaces the decided count on the decided UID, after a moment between read and commit with the autoscaler Active at the same UID and generation and, later, an actionable forecast |
| ScaleWrite.OneUpdatePerVersion | k8s-operator/controllers/predictiveautoscaler_controller.go:1486-1521 | two updates resting on one version, from two operators or delivered twice, are never both accepted |
| ScaleWrite.AuthorizedMoment | k8s-operator/controllers/predictiveautoscaler_controller.go:139-159 | an operator past its identity guard saw the autoscaler Active at the decided UID and generation after its Scale read |
| ScaleWrite.UndisturbedWriteLandsIff | k8s-operator/controllers/predictiveautoscaler_controller.go:1486-1521 | left alone, a write lands exactly when the decision still fits target and autoscaler, its window is open and it changes the count; otherwise the server is untouched |
| ForecastCache.Forecasts.Lookup | k8s-operator/controllers/predictiveautoscaler_controller.go:1082-1161 | the in-place lookup equals the step on values and returns exactly the entry the key is left with |
| ForecastCache.UsedForecast | k8s-operator/controllers/predictiveautoscaler_controller.go:62-68 | over every run a used forecast was fetched for the current binding and computed on its query and contract, is younger than 5 min (10 min only after a non-refusal error of this lookup), and no refusal, dropped query, other binding or restart came between |
| ForecastCache.HeldIff | k8s-operator/controllers/predictiveautoscaler_controller.go:1082-1161 | a lookup returns an entry exactly when some lookup fetched it and every step since may use it: under 5 min old, or under 10 after a failed request, same binding, no restart, no dropped query |
| ForecastCache.SelectLeadTimeWindow | k8s-operator/controllers/predictiveautoscaler_controller.go:1865-1900 | usable if and only if anchor + horizon is in the future and reaches now + lead; holds in order exactly the values with targets in (now, now + lead], or the first future one; every chosen step is in the future |
| ForecastCache.TargetIs | k8s-operator/controllers/predictiveautoscaler_controller.go:1865-1900 | the targets divide the horizon evenly, rounded down by less than a nanosecond |
| ForecastCache.InsideValuesExact | k8s-operator/controllers/predictiveautoscaler_controller.go:1865-1900 | the window's values are those of exactly the steps inside the lead, in order |
| ForecastCache.ElapsedForGood | k8s-operator/controllers/predictiveautoscaler_controller.go:1865-1900 | a forecast refused as elapsed stays refused at every later time |
| ForecastWindow.RankWithin | k8s-operator/controllers/forecast_v2.go:257-261 | the rank is the exact ceiling, is at least 1, and is within n scores if and only if 10000 <= (n + 1) a |
| ForecastWindow.FeasibleIffRanksFit | k8s-operator/controllers/forecast_v2.go:263-285 | the one rank test accepts exactly the settings for which every admissible n and miscoverage gives 1 <= rank <= n |
| ForecastWindow.AutomaticLeadLeast | k8s-operator/controllers/forecast_v2.go:353-357 | the automatic lead is the smallest multiple of the interval that covers startup, period, allowance and one interval |
| ForecastWindow.Deadline | k8s-operator/controllers/forecast_v2.go:397-410 | the deadline is t + interval - allowance if and only if the lead leaves two intervals beside the budget; a window is actionable exactly before its deadline and never again |
| ForecastWindow.Targets | k8s-operator/controllers/forecast_v2.go:384-395 | the loop returns exactly the window's grid instants, in order |
| ForecastWindow.PredictiveTermExact | k8s-operator/controllers/forecast_v2.go:890-929 | the uncapped count is the least whose capacity per minute serves the upper rate per second; the term is the smaller of it and need plus the smaller of both budgets |
| ForecastWindow.ForecastRaisesWithinBudget | k8s-operator/controllers/forecast_v2.go:890-928 | a forecast never lowers the decision and raises it by at most either budget |
| ForecastSchedule.DecisionIntervalOnGrid | k8s-operator/controllers/v2_reconcile.go:36-45 | the decision period is a positive multiple of the interval, at least the reconcile interval |
| ForecastSchedule.LeadStatus.Publish | k8s-operator/controllers/v2_reconcile.go:75-141 | the in-place publication equals the step on values; a failed update changes nothing and yields nothing |
| ForecastSchedule.PublishedLead | k8s-operator/controllers/v2_reconcile.go:86-128 | a lead is published exactly when there is a budget and the larger of automatic and frozen lead fits the horizon; it always passes the service's check and covers the decision period |
| ForecastSchedule.PublishedDeadline | k8s-operator/controllers/forecast_v2.go:397-405 | every published lead gives the deadline t + interval - allowance |
| ForecastSchedule.LeadNeverShortens | k8s-operator/controllers/v2_reconcile.go:96-111 | while nothing replaces the basis in the status, lost updates and other reconciles included, the issued lead never shortens |
| ForecastSchedule.LeadWasAskedFor | k8s-operator/controllers/v2_reconcile.go:96-111 | every issued lead is the automatic lead of a step of its unbroken stretch, so the largest issued in it |
| ForecastSchedule.LeadShortensIff | k8s-operator/controllers/v2_reconcile.go:96-111 | a later lead of the same basis is not shorter if and only if nothing replaced the basis between, or some step issued since its return asked for at least the earlier length |
| ForecastSchedule.LeadShortensOnReturn | k8s-operator/controllers/v2_reconcile.go:96-99 | a concrete run in which a returning basis shortens the lead |
| ForecastSchedule.Schedule.OnTrigger | k8s-operator/controllers/predictiveautoscaler_controller.go:285-304 | the in-place throttle equals the step on values and returns the wait to the next origin |
| ForecastSchedule.DecisionsSpaced | k8s-operator/controllers/predictiveautoscaler_controller.go:285-304 | whatever triggers reconciles, decisions without restart or release between them have origins at least C apart |
| ForecastSchedule.RequeueDecides | k8s-operator/controllers/v2_reconcile.go:67-73 | a scheduled requeue decides when it fires, for exactly the next origin if within one interval |
| ForecastSchedule.WaitIs | k8s-operator/controllers/v2_reconcile.go:68-74 | the requeue is due one second after the next origin, or a tenth of a second from now |
| ForecastSchedule.NextDecision | k8s-operator/controllers/predictiveautoscaler_controller.go:285-304 | whatever else triggers or restarts, after a decision with a punctual requeue the next one comes within one period; with no restart and no fast retry, exactly one period later |
| ForecastSchedule.PublishedIsPlanned | k8s-operator/controllers/v2_reconcile.go:86-128 | a decision on a published lead has a grid origin and a window that covers startup, period, allowance and one interval |
| ForecastSchedule.WindowReachesNext | k8s-operator/controllers/forecast_v2.go:353-357 | when the startup budget or the lead has not grown, window k reaches t_(k+1) + interval + D |
| ForecastSchedule.NoInstantUncovered | k8s-operator/controllers/v2_reconcile.go:47-51 | over every run of triggers with punctual requeues, one basis and no budget beyond the lead in force, every grid instant from the first readiness to the last window's end is a target of a decision whose capacity was ready by then |
| ForecastAnswers.Answers.Fetch | k8s-operator/controllers/forecast_v2.go:961-1002 | the in-place cache equals the step on values and returns exactly the answer the key is left with |
| ForecastAnswers.UsedAnswer | k8s-operator/controllers/v2_reconcile.go:152-179 | over every run a usable answer was fetched for the very request made now, was only reused while actionable, and a Ready verdict finds its own window still actionable |
| ForecastAnswers.HeldIff | k8s-operator/controllers/forecast_v2.go:961-1002 | the key holds an answer exactly when a lookup fetched it for its own request and every step since asked only for the same, while actionable |
| ForecastAnswers.ReadyInterval | k8s-operator/controllers/forecast_v2.go:855-882 | an answer is Ready exactly between its issue less the skew and the earlier of its deadline and its evidence's age |
| ForecastAnswers.LateForGood | k8s-operator/controllers/forecast_v2.go:884-888 | past its deadline or with stale evidence an answer never becomes Ready again |
| Selector.RunSelector | eval/selector.py:406-459 | the loop serves what the rule chooses at each origin, and counts exactly the origins that serve another arm than the one before |
| Selector.ServedIsBest | eval/selector.py:434-452 | with evidence the incumbent is served whenever it is within the tolerance of the least penalised average, otherwise the earliest arm that is; without, the default |
| Selector.EvidenceIff | eval/selector.py:425-437 | there is evidence exactly when every arm has its observations among the origins at least six before |
| Selector.EvidenceIsAverage | eval/selector.py:425-432 | it is the first observed cost with every later one mixed in, in order |
| Selector.Causal | eval/selector.py:413-414 | tables that agree through origin k - 6 give identical choices through k |
| Selector.SwitchNeedsMargin | eval/selector.py:443-452 | a switch means that the incumbent's average exceeds the winner's by more than the penalty |
| Selector.FirstServesDefault | eval/selector.py:409-411 | the first origin serves the default arm |
| Selector.UndoneSwitchTakesTime | eval/selector.py:427-452 | with finite costs in [0, M], a switch at i undone at j satisfies (j - i) decay M > penalty, missing costs included |
| LaggedLinear.Forecaster.ForecastAt | eval/selector.py:195-220 | the cached, looped forecast equals the forecast on values |
| LaggedLinear.DesignIs | eval/selector.py:181-194 | the features of a row are its own value and those 1, 2, 5 and 143 steps before |
| LaggedLinear.CoefficientsAre | eval/selector.py:198-212 | a step is fitted on exactly the rows of the last week with all features whose target is observed, each with the value h steps later, and only when all are known and there are 200 |
| LaggedLinear.StepIs | eval/selector.py:213-243 | a step is predicted from the origin's features or repeats the value a day before its target, and is at least one |
| LaggedLinear.ReadsNothingLater | eval/selector.py:195-243 | series that agree up to the origin get the same forecast, whatever the fit does |
| MigrationSpec.SpecDifferences | hack/migrate-api-group.py:179-196 | reports nothing if and only if every set field agrees, exemptions and the carried capacity apart |
| MigrationSpec.AgreesIff | hack/migrate-api-group.py:179-196 | and that is so exactly when no path of keys, down through objects on both sides and past no exempt field, leads to a field that differs |
| MigrationSpec.AgreementReachesLeaves | hack/migrate-api-group.py:179-196 | specs that agree have the same value at every plain path, at any depth |
| MigrationSpec.IdentityProblems | hack/migrate-api-group.py:258-266 | reports nothing if and only if provenance, target and spec are the recorded ones |
| MigrationSpec.ReplacementDefined | hack/migrate-api-group.py:136-152 | a replacement can be made exactly when the spec is blank or an object and its target absent or an object |
| MigrationSpec.ReplacementIs | hack/migrate-api-group.py:136-152 | the replacement has the legacy spec but for Recommend mode and its target's namespace, which it lives in, the kept annotations and its provenance, and nothing else |
| MigrationSpec.ReplacementPasses | hack/migrate-api-group.py:136-152 | for every nested spec the replacement passes the identity check, with whatever defaults the server adds |
| Cutover.DeleteHitsRecorded | hack/migrate-api-group.py:513-529 | in every execution with re-runs an accepted delete hits a recorded UID and spec, after the same run saw every operator without pods, then read the object, then a ready replacement, the object unchanged since |
| Cutover.StoppedMomentIff | hack/migrate-api-group.py:469-474 | for any number of legacy operators, at the moment of its run when the last was read no legacy operator pod exists if and only if none was given pods after its own read; in particular when nothing starts one during the reads |
| Cutover.SeveralOperatorsMayOverlap | hack/migrate-api-group.py:469-474 | for every number of operators from two on, an execution with an accepted delete and no moment without a legacy operator pod |
| Cutover.FinishedMeansGone | hack/migrate-api-group.py:530-543 | entries the run has passed, all of them at its end, have no recorded object left, for good |
| Cutover.UndisturbedRunFinishes | hack/migrate-api-group.py:513-543 | left alone with the operators stopped and every replacement ready, a run reaches its end and removes every recorded name and nothing else |
| Activation.ActivatesWhatWasChecked | hack/migrate-api-group.py:556-577 | an accepted patch activates the object that passed the identity and readiness checks, unchanged since, after a clean listing |
| Activation.PinnedWas | hack/migrate-api-group.py:557-563 | the object the command goes on with was patched by it, or found Active with the recorded identity, after a clean listing |
| Activation.UndisturbedActivatesIff | hack/migrate-api-group.py:546-577 | left alone, the command activates exactly a replacement that passes every check while no legacy autoscaler is on the target |
| Activation.ThreeTries | hack/migrate-api-group.py:555-577 | since a listing the command goes on exactly while fewer than three of its patches were refused |
| Activation.ClearIff | hack/migrate-api-group.py:551-554 | after a clean listing the target stays free of legacy autoscalers exactly while nobody creates one on it or edits one onto it |
| Activation.NeverBesideLegacy | hack/migrate-api-group.py:546-577 | so an activation leaves no Active replacement beside a legacy autoscaler exactly while nobody puts one there |
| Activation.RetargetingIsMissed | hack/migrate-api-group.py:551-554 | a concrete execution without any creation that does |
| Accuracy.Tracker.StoreForecast | ml-engine/api/accuracy.py:104-115 | queues the forecast, giving up the oldest beyond 512; other keys unchanged |
| Accuracy.Tracker.TakeMatured | ml-engine/api/accuracy.py:117-149 | returns the fresh forecasts in order, keeps the early ones, drops the late ones; other keys unchanged |
| Accuracy.NamesFaithful | ml-engine/api/accuracy.py:104-149 | following forecasts by the call that stored them gives the same queue |
| Accuracy.ScoresFaithful | ml-engine/api/accuracy.py:117-149 | and the same scores |
| Accuracy.ScoredIff | ml-engine/api/accuracy.py:117-149 | a forecast is scored by the first later observation that reaches its target, exactly when within the tolerance and not pushed out before |
| Accuracy.ScoredAtMostOnce | ml-engine/api/accuracy.py:117-149 | no forecast is scored twice |
| Accuracy.Conservation | ml-engine/api/accuracy.py:104-149 | a stored forecast is queued or left at exactly one event, which scored it, found it too late or pushed it out |
| Accuracy.EvictionNeedsCapacity | ml-engine/api/accuracy.py:114-115 | pushing a forecast out takes 512 later stores |
| Accuracy.RegularScoring | ml-engine/api/accuracy.py:117-149 | with nondecreasing observations at most a tolerance apart and the bound not hit, a forecast is scored exactly at the first observation that reaches its target, provided the one before it was not past the target or it comes within the tolerance by itself; for a target ahead at its store, any earlier observation does |
| Accuracy.FirstObservationCanMiss | ml-engine/api/accuracy.py:117-149 | at the very first observation it can be dropped |
| Admission.Conservation | ml-engine/api/admission.py:29-38 | in every interleaving free slots plus held slots equal the total and the semaphore is never released beyond it |
| Admission.RunningBounded | ml-engine/api/admission.py:20-27 | running work never exceeds the slots |
| Admission.GrantedIff | ml-engine/api/admission.py:20-38 | in every reachable state a caller gets a slot exactly when fewer than all are held, and affects no other |
| Admission.ReleasedOnceAfterWork | ml-engine/api/auth.py:237-258 | a slot is released at most once and only after its work is over |
| Admission.RunningWorkKeepsSlot | ml-engine/api/admission.py:1-7 | no step, cancellation included, frees a slot whose work still runs |
| Admission.NothingLeaks | ml-engine/api/admission.py:29-38 | once every request is settled all slots are free again |

## Left out

- Kubernetes, VictoriaMetrics, HTTP and file access: abstract server states, returned samples or adversarial steps.
- Float rounding: ratios, averages and ceilings are exact; the overestimate ratios are compared after multiplying out.
- Load gate: histogram buckets and the p95 value, the snapshot digest, receipts and approvals, and the generator and pod
  lifecycle checks. They can only turn an hour INCOMPLETE and appear as `ready` and `latencyKnown`. A heartbeat's stamp is
  taken to be its flush time.
- Infrastructure detector: generator, pod and restart parts of detection; other sources' events are arbitrary additions.
- InfraInventory.Stream: covers the inventory series of one pod; the extents and the creation time have their own members.
- `coexistence.go` is one input, blocked or not; `startup.go` measurement is an arbitrary nonnegative budget.
- Status conditions, events, gauges, ledgers and log lines: no decision depends on them.
- Forecast v2: strict decoding and coherence of answers, one branch per field; answers are taken as decoded records.
- Forecast v2: the settings' field bounds and cross-field checks other than the rank test, one comparison each.
- Forecast confidence damping and the conversion of a v1 peak rate to replicas, with its minimum count for a forecast without
  values: the predicted count is an input.
- Request timeouts of the `/scale` write: updates may be delivered at any later time instead.
- ForecastSchedule.DecisionsSpaced: settings are fixed over the run; a changed reconcile interval changes the period.
- ForecastSchedule.NoInstantUncovered: late requeues and a budget that outgrows the lead in force are excluded, as the
  source's own lead rule does; the settings are fixed over the run, and a decision without a forecast ends the claim.
- Cutover: the checks before the deletion loop, the scaling of the operators to zero and GitOps markers; they can only stop
  a run earlier. A replacement's readiness is one fact.
- Labels of a replacement and `quantity` parsing: copied metadata without a check, and an arbitrary function.
- Selector: the candidate forecasts, the ridge fit, the cost proxy and the parameter sweep; the smoothing rule is a
  parameter, instantiated with the exponential average for the timing theorem.
- `freeze_capture.py`, `p8_launcher.py`, `release_checks.py` and the release gates: long checklists of one branch each.
