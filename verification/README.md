# Verified model of the recorder's reconstruction, budget and qualification logic

This project models, in Dafny, the algorithms by which the market-data recorder rebuilds order books, spends its
shared request budget, and judges its own qualification runs, and proves what they promise on every input and every
run. One module models one component:

| file | component |
|---|---|
| OrderBook.dfy | absolute price levels with incrementally kept best prices |
| BookReconstruction.dfy | bridging a snapshot with buffered depth events, gaps and resync |
| UnreliableIntervals.dfy | which unreliable intervals of the reconstructor are ever closed |
| DepthContinuity.dfy | the sequence-only form of the same rules, proved to be the shadow of the full one |
| RequestBudget.dfy | rolling request windows with exact delays |
| RateWindow.dfy | the offline proof kernel: sliding-window peaks, merged admissions, cooldowns |
| CaptureLoop.dfy, FixedSlots.dfy | the capture controller that writes the monitoring log, and the evaluator that replays it |
| Recovery.dfy | the two accountants of core-fault episodes |
| WorkloadProgress.dfy | write and fsync accounting by stream and by writer |
| PhysicalAudit.dfy | audit of the physical record order on disk |
| SteadyClassifier.dfy | backlog growth from record highs |
| LeasedGroup.dfy, ParsedViews.dfy | the leased process-group protocol with its receipts, and bounded parsed views |
| CatalogSelection.dfy, CausalRepair.dfy | selecting one capture's chunks from a Catalog, and putting back lost causal rows |
| DiskBudget.dfy, ArchiveWorker.dfy, ChunkBacklog.dfy | closed-form disk bounds, against the backlog line, the worker's cycles and the queue of chunks they stand for |
| Measurements.dfy, StreamFingerprint.dfy, Bars.dfy | histogram quantiles, stream fingerprints and kline bars of the benchmark |
| AcceptanceCadence.dfy, MonitorRate.dfy, ProcessTree.dfy, Relay.dfy | sampling cadence, sampled-rate evidence, process trees, the proxy relay |
| Wrappers.dfy | the option and result shapes shared by all |

How it is built. Objects that the source mutates are classes whose methods are proved against functions of their
contents or against predicates on their whole history; the main results are then lemmas about those functions over
arbitrary runs. Clock readings are arguments: each call of the source's clock is a separate reading, and the only
assumption on them, where a member says nothing more, is that they never decrease. Interleaved parties (`LeasedGroup`,
`WorkloadProgress`) are state machines whose steps may come in any order. An exception is a `Failure` value.

What the proofs found. Each of these is a lemma, next to the exact condition under which the expected property does
hold:

- The capture loop can log the slot one past the end, which the evaluator then refuses together with the whole log; this
  happens if and only if the clock crosses the target between the loop guard and the slot check, and with full sleeps
  only in an open recovery episode (`RaceCanHappen`, `EvaluatorTrustsIff`, `RaceNeedsOpenEpisode`).
- An open unreliable interval is lost for good in three ways, a restart, a further gap, or an overflow of the resync
  buffer (`LostByRestart`, `LostByAnotherGap`, `LostByOverflow`, `LostIntervalsStayOpen`); it can still be closed exactly
  while it is the awaited one and the buffer has not overflowed (`IntervalCanEndIff`).
- Per-stream sums hold only while a writer id serves one stream (`TwoStreamsBreakTheBooks`, `BalanceKeptIff`).
- A disk scenario may fit and still end its horizon with a backlog (`FittingScenarioMayEndBehind`, `CaughtUpIff`).
- Old chunks are charged by their mean size, so a small one ahead of a large one can take the backlog above the
  reported peak and the writer below its reserve although the scenario fits (`UnevenChunksPassThePeak`); the peak covers
  the queue exactly when retiring the old chunks in order keeps up with the arrivals (`StablePeakHoldsIff`), as chunks
  all on one side of the mix do (`EvenChunksStayWithinPeak`).
- The strict recovery accountant by itself does not notice a clock that runs backwards between good rows, into an
  episode, or inside an episode down to its first bad row (`StrictRulesMissClockReversal`, `StrictRefusesReversalIff`,
  `AccountantsPartIff`); on ordered clocks both accountants agree (`SameAccount`).
- A selection can hold a completion that the repair refuses, because the selection never asks whether the completion
  is paired, and the repair wants one sound pair (`SelectionMayBeRefused`, `SelectionNeedsNoRepair`).

## Model

| member | source | states |
|---|---|---|
| BookReconstruction.ReliableBookIsTrue | src/binance_market_data_recorder/orderbook/reconstructor.py:153-275 | For every run of offered events, snapshots and restarts, however events were lost, repeated or reordered: whenever the reconstructor calls its book reliable, its quantity at a price is the exchange's quantity at that update id, for each price about which the inputs themselves are truthful |
| BookReconstruction.RunTracks | src/binance_market_data_recorder/orderbook/reconstructor.py:153-275 | Every run keeps the invariant behind that: events that wait are genuine, and a reliable book agrees with the exchange at its own id |
| BookReconstruction.WholeBufferBridges | src/binance_market_data_recorder/orderbook/reconstructor.py:197-250 | A buffer from which nothing is missing never yields a sequence gap; it bridges exactly when its first event to reach the target starts at or before it, and then ends at the last buffered id; it asks for more events exactly when it stops short of the target |
| BookReconstruction.SpotBridgesIff | src/binance_market_data_recorder/orderbook/reconstructor.py:206-228 | On Spot a whole buffer bridges a snapshot exactly when it neither starts after snapshot id + 1 nor ends before it |
| BookReconstruction.SynchronizeTracks | src/binance_market_data_recorder/orderbook/reconstructor.py:197-250 | One bridging step keeps the book true and the waiting events genuine, also when it ends in a gap |
| BookReconstruction.LiveTracks | src/binance_market_data_recorder/orderbook/reconstructor.py:252-275 | One live event keeps the book true: it is taken only when it reaches back to the book's own id, under the Spot rule and under the previous-id rule alike |
| BookReconstruction.SynchronizeDecides | src/binance_market_data_recorder/orderbook/reconstructor.py:197-250 | For any buffer, gapless or not, the ids that wait and the snapshot's id alone decide which of the four answers a snapshot gets, and how far the new book then reaches |
| BookReconstruction.GapKeepsTheRest | src/binance_market_data_recorder/orderbook/reconstructor.py:236-250 | A bridge that ends in a gap stops at the first candidate that leaves one: the book stands where the candidates before it reached, that event and all behind it wait in their order, and an interval is open from there |
| BookReconstruction.OffersWait | src/binance_market_data_recorder/orderbook/reconstructor.py:153-184 | Before the book is reliable offers wait in their order; one more than the buffer holds loses all of them |
| BookReconstruction.IntervalsAreRealGaps | src/binance_market_data_recorder/orderbook/reconstructor.py:252-301 | In every run each interval on record was opened by an event that lies beyond the book and, on Spot, leaves ids out |
| UnreliableIntervals.IntervalCanEndIff | src/binance_market_data_recorder/orderbook/reconstructor.py:153-275 | Exactly which open unreliable intervals some later run can still close: the newest one, while resync is required and the buffer has not overflowed |
| UnreliableIntervals.IntervalEndsIff | src/binance_market_data_recorder/orderbook/reconstructor.py:236-248 | An event ends an open unreliable interval exactly when the interval is the awaited one and the event is a snapshot that the buffer bridges without a gap; it then ends at the last id that the buffer reaches |
| UnreliableIntervals.AwaitedIntervalEnds | src/binance_market_data_recorder/orderbook/reconstructor.py:153-250 | Whatever waits in the buffer, three valid events close an awaited interval: a snapshot ahead of the buffer empties it, and one offered event bridges the snapshot before that |
| UnreliableIntervals.LostIntervalsStayOpen | src/binance_market_data_recorder/orderbook/reconstructor.py:153-275 | Finding: an open interval that is not awaited, or whose buffer has overflowed, stays open in every later run, however often the book becomes reliable again |
| UnreliableIntervals.RestartAbandons | src/binance_market_data_recorder/orderbook/reconstructor.py:371-378 | A restart loses the interval that was awaited |
| UnreliableIntervals.GapAbandons | src/binance_market_data_recorder/orderbook/reconstructor.py:236-250 | A snapshot that bridges only to end in another gap loses the interval that was awaited and awaits a new one |
| UnreliableIntervals.OverflowLoses | src/binance_market_data_recorder/orderbook/reconstructor.py:157-161 | One event too many for the buffer loses the interval that is awaited, although no restart and no gap has overtaken it |
| UnreliableIntervals.LostByRestart | src/binance_market_data_recorder/orderbook/reconstructor.py:371-378 | A run of valid events from the start that loses its interval by a restart |
| UnreliableIntervals.LostByAnotherGap | src/binance_market_data_recorder/orderbook/reconstructor.py:236-250 | A run of valid events from the start that loses its interval by a further gap |
| UnreliableIntervals.LostByOverflow | src/binance_market_data_recorder/orderbook/reconstructor.py:157-161 | A run of valid events from the start that loses its interval by an overflow of the buffer |
| BookReconstruction.Reconstructor.Offer | src/binance_market_data_recorder/orderbook/reconstructor.py:153-195 | The object refines the value semantics; an event of another product is refused without effect; the answer is true exactly when the book was and stays reliable |
| BookReconstruction.Reconstructor.SynchronizeWith | src/binance_market_data_recorder/orderbook/reconstructor.py:197-250 | The loop over candidates, with its early exit at a gap, ends in the same state and answer as the recursive bridging procedure |
| BookReconstruction.SynchronizeKeepsForm | src/binance_market_data_recorder/orderbook/reconstructor.py:197-250 | A reliable book never has events waiting or an overflowed buffer, the buffer stays within its capacity, and a required resync always has an open interval |
| DepthContinuity.TrackerIsTheShadow | src/binance_market_data_recorder/supervisor/depth_continuity.py:27-155 | On every run the sequence-only tracker is the reconstructor with its book forgotten: reliable at the same moments, at the same id, with the same events waiting |
| DepthContinuity.InvalidatedTrackerIsAShadow | src/binance_market_data_recorder/supervisor/depth_continuity.py:27-155 | With malformed events among the inputs the tracker is still a shadow: of the reconstructor restarted at each of them, except while the buffer has overflowed |
| DepthContinuity.SynchronizeShadows | src/binance_market_data_recorder/supervisor/depth_continuity.py:133-155 | Bridging by ids alone gives the same answer as bridging with a book |
| DepthContinuity.Continuity.SynchronizeWith | src/binance_market_data_recorder/supervisor/depth_continuity.py:133-155 | The tracker's loop computes the id-only bridge that the shadow lemma compares |
| DepthContinuity.Continuity.Apply | src/binance_market_data_recorder/supervisor/depth_continuity.py:111-131 | A live event leaves the tracker reliable exactly when it is stale or continues the current id; otherwise it alone waits in the buffer |
| OrderBook.ApplySide | src/binance_market_data_recorder/orderbook/model.py:169-198 | The best price that is only touched when it must change is, after any list of levels, the best price that a full search would find; the side itself is the replay of the levels |
| OrderBook.RecomputeBest | src/binance_market_data_recorder/orderbook/model.py:161-167 | The full search: a price of the side that no other price beats, or none for an empty side |
| OrderBook.Book.Apply | src/binance_market_data_recorder/orderbook/model.py:200-210 | Both sides are replayed, both kept prices stay best, and the book moves to the event's final id |
| OrderBook.Book.IsCrossed | src/binance_market_data_recorder/orderbook/model.py:227-231 | Comparing the two kept prices decides whether any bid is at or above any ask |
| OrderBook.ReplayGivesLastWord | src/binance_market_data_recorder/orderbook/model.py:153-159 | Replaying levels leaves each price at the last word on it and every other price alone; zero removes |
| OrderBook.ReplayStaysPositive | src/binance_market_data_recorder/orderbook/model.py:153-159 | Replaying valid levels never leaves a level without quantity |
| RequestBudget.Budget.Run | src/binance_market_data_recorder/binance/request_budget.py:44-75 | Any sequence of delay, take and block calls with ordered clock readings, refused calls and retries included: each answer is the exact time to wait by the rule on everything charged and blocked so far, the account is kept by that rule, and no window is ever overspent |
| RequestBudget.GrantedCostStaysSpent | src/binance_market_data_recorder/binance/request_budget.py:51-70 | Whatever happens in between, a granted cost counts until its window has passed: a take on the same key that needs more than the rest of the window is not granted before then |
| RequestBudget.FreshAccountAdmits | src/binance_market_data_recorder/binance/request_budget.py:44-70 | With nothing charged and nothing blocked any chargeable request goes through at once |
| RequestBudget.NeverOverspends | src/binance_market_data_recorder/binance/request_budget.py:30-75 | In every state that such a run passes through, the sliding-window proof kernel cannot find a peak above a window's capacity in the budget's admissions |
| RequestBudget.Budget.Delay | src/binance_market_data_recorder/binance/request_budget.py:44-62 | The reported delay is exact: from now on the whole request could be admitted at a moment if and only if that moment is at least this far away; a charge that no window could ever hold raises |
| RequestBudget.Budget.Take | src/binance_market_data_recorder/binance/request_budget.py:64-70 | Each charge of a granted request is entered once under its own key at the second clock reading, and nothing else is; a refused request enters nothing; granted exactly when every charge was admissible at the first reading, and otherwise the answer is the exact time to wait |
| RequestBudget.AdmissionFits | src/binance_market_data_recorder/binance/request_budget.py:64-70 | A charge that fits among what is still live keeps every window within capacity even though it is entered at a later clock reading than it was checked |
| RequestBudget.WaitFor | src/binance_market_data_recorder/binance/request_budget.py:55-61 | Walking the oldest admissions until the excess is gone finds the first instant at which the charge fits |
| RequestBudget.Prune | src/binance_market_data_recorder/binance/request_budget.py:53-54 | Dropping expired entries from the front keeps the deque a suffix of all admissions with only dead entries missing |
| RequestBudget.Budget.Block | src/binance_market_data_recorder/binance/request_budget.py:72-75 | A later, shorter block never shortens a market's block, and the other market is untouched |
| RateWindow.Peak | tools/verify_shared_api_budget.py:155-174 | The deque pass returns exactly the maximum total cost over all half-open windows of the length: no window costs more and one costs as much |
| RateWindow.PeaksAddUp | tools/verify_shared_api_budget.py:216-253 | The peak of merged admissions lies between the larger single peak and the sum of the two |
| RateWindow.VerifyKey | tools/verify_shared_api_budget.py:216-253 | A key passes exactly when both processes' own rows keep every window within their caps; the combined figure is then the exact peak of both and its own assertion cannot fail |
| RateWindow.EntriesAreTheRows | tools/verify_shared_api_budget.py:155-166 | The entries of a key cost in any window what the printed rows in it do |
| RateWindow.EachRowHasOneKey | tools/verify_shared_api_budget.py:30-44 | Every request is charged to exactly one key, by its market and by whether it is a connection, funding or statistics request; the gateway charges its printed cost |
| RateWindow.Weights | tools/verify_shared_api_budget.py:33-44 | Only weights exceed one: fifty and twenty on Spot, twenty for a depth snapshot and one else on USD-M |
| RateWindow.MergeReadsBack | tools/verify_shared_api_budget.py:220-249 | Recasting both processes' rows as gateway events loses no admission and invents none |
| RateWindow.GatewayChargesNothing | tools/verify_shared_api_budget.py:248-252 | For the funding and statistics keys the gateway has no admissions, so the recorder's peak is the combined peak |
| RateWindow.VerifyCooldowns | tools/verify_shared_api_budget.py:177-190 | Accepts admissions, in whatever order they were printed, exactly when each was planned, is not early, and lies at or past the end of every cooldown of its market that began before it by time, then id |
| RateWindow.ReplayDecides | tools/verify_shared_api_budget.py:182-191 | Replaying the admissions in order of time and id decides that rule on the admissions as they were printed |
| RateWindow.NextAdmission | tools/verify_shared_api_budget.py:186-188 | Whether the next admission is in order depends on the market's latest deadline alone |
| RateWindow.ByTimeSorts | tools/verify_shared_api_budget.py:182 | The replay order is ascending in time and, at equal times, in id, with each admission once |
| CaptureLoop.EvaluatorTrustsIff | docs/milestone_acceptance/R2-warm-readiness-ordering-repair-20261025/controller.py:268-286 | For every run of the capture loop on a monotone clock, the evaluator trusts the nominal log if and only if no turn lost the race between the loop guard and the slot check |
| CaptureLoop.ReportTellsTheTurns | docs/milestone_acceptance/R2-warm-readiness-ordering-repair-20261025/controller.py:268-286 | A truthful report on a completed run's trusted log counts a slot as passed exactly when some turn took it up, observed the recorder before the next slot was due and saw no reason against it; a failed row carries the reasons that its turn observed, with lateness behind them; a missing slot was taken up by no turn |
| CaptureLoop.RowOfTurn | docs/milestone_acceptance/R2-warm-readiness-ordering-repair-20261025/controller.py:274-282 | Each turn's row is in the log that its role names, behind those of earlier turns, with the times and reasons observed |
| CaptureLoop.RaceCanHappen | docs/milestone_acceptance/R2-warm-readiness-ordering-repair-20261025/controller.py:272-273 | Finding, under full sleeps: a completed run whose log the evaluator refuses, because a recovery probe is due just before the target and its two clock readings straddle the target |
| CaptureLoop.RaceNeedsOpenEpisode | docs/milestone_acceptance/R2-warm-readiness-ordering-repair-20261025/controller.py:285-286 | With full sleeps the race is lost only right after a bad row, because only an open recovery episode wakes the loop before its target |
| CaptureLoop.FaultFreeRunsAreTrusted | docs/milestone_acceptance/R2-warm-readiness-ordering-repair-20261025/controller.py:268-286 | So with full sleeps every run without core faults leaves a log that the evaluator trusts |
| CaptureLoop.Capture | docs/milestone_acceptance/R2-warm-readiness-ordering-repair-20261025/controller.py:268-286 | A run completes exactly when some guard reading reaches the target with all turns before it valid, raises at the first turn that fails validation, and is interrupted only when the readings end; its logs and the times it asks to be woken at are then the specified ones; a row that fails validation has been logged first; the recovery accountant never raises on a monotone clock |
| CaptureLoop.TurnKeepsTrustIff | docs/milestone_acceptance/R2-warm-readiness-ordering-repair-20261025/controller.py:272-285 | One turn keeps the evaluator's trust exactly when it did not lose the race |
| CaptureLoop.WrittenRowsAreBehind | docs/milestone_acceptance/R2-warm-readiness-ordering-repair-20261025/controller.py:277-284 | Rows already written lie strictly before the pending slot, in slot number and in observation time |
| CaptureLoop.RowIsConsistent | docs/milestone_acceptance/R2-warm-readiness-ordering-repair-20261025/controller.py:277-280 | A validated regular row satisfies the evaluator's slot, schedule, skip count and clock projection unless its slot is the one past the end |
| CaptureLoop.MissedIff | docs/milestone_acceptance/R2-warm-readiness-ordering-repair-20261025/controller.py:272-284 | A slot is never recorded exactly when an earlier turn overran it or the loop ended before taking it up |
| CaptureLoop.ReportedMissingSlots | tools/qualification_owner_995.py:157-167 | The evaluator's missing slots are exactly the slots that some turn overran or the loop never took up |
| CaptureLoop.ProbesFollowFaults | docs/milestone_acceptance/R2-warm-readiness-ordering-repair-20261025/controller.py:285-286 | With honest sleeps an extra probe only follows a bad row, five seconds or more after the turn before it |
| CaptureLoop.LoopIsBounded | docs/milestone_acceptance/R2-warm-readiness-ordering-repair-20261025/controller.py:272-286 | With honest sleeps the loop makes at most one turn a slot, one for the race and one for each five seconds |
| CaptureLoop.OneRowATurn | docs/milestone_acceptance/R2-warm-readiness-ordering-repair-20261025/controller.py:281-282 | Every turn leaves one row, in one log or the other |
| CaptureLoop.StrictFinish | docs/milestone_acceptance/R2-warm-readiness-ordering-repair-20261025/controller.py:118-136 | At most twelve observations, each logged as it was made; a returned endpoint was observed by the deadline, is complete exactly when it is good and strictly passing, and an incomplete one is returned only once the deadline has passed; it raises only for an observation that fails validation, lies behind the accountant's last one, or comes too late |
| FixedSlots.EvaluateFixedSlots | tools/qualification_owner_995.py:97-160 | Evidence is accepted exactly when every nominal row is consistent, slots are distinct and times increase; slots are conserved, failures name the bad slots with line and reasons, and the verdict allows floor(total / 200) bad slots |
| FixedSlots.ProbesAreInvisible | tools/qualification_owner_995.py:120-124 | Inserting a recovery or finish probe anywhere changes neither the nominal rows nor the trust in the evidence |
| FixedSlots.VerdictIgnoresProbes | tools/qualification_owner_995.py:120-160 | Two truthful reports on logs with the same nominal rows agree on counts, missing slots and verdict |
| FixedSlots.TrustGrows | tools/qualification_owner_995.py:126-155 | Comparing a row with the slots seen and the last time decides trust in the whole log |
| FixedSlots.TrustedPrefix | tools/qualification_owner_995.py:116-155 | Distrust is final: every prefix of a trusted log is trusted |
| FixedSlots.Missing | tools/qualification_owner_995.py:157-158 | The missing slots are those of the period never seen, ascending |
| Recovery.RecoveryObserver.Check | tools/qualification_owner_995.py:54-71 | Accepts exactly while the clock stays in order; first bad time, total and episode count are what the history deserves, episode by maximal bad run |
| Recovery.GoodMeans | tools/qualification_owner_995.py:59-62 | A row is good exactly when the core is ready and no reason is one of the two core reasons: auxiliary reasons open no episode |
| Recovery.RecoveryObserver.FinishEndpoint | tools/qualification_owner_995.py:73-75 | True exactly when the row carries no core fault and passes the strict gate |
| Recovery.RecoveryObserver.NextCheckNs | tools/qualification_owner_995.py:80-84 | Never later than the next slot, the target or, in an open episode, five seconds |
| Recovery.CoreRecovery.Check | tools/qualification_core_recovery.py:24-53 | Accepts exactly the rows that the per-episode rules admit, said on the maximal bad run and not on running state |
| Recovery.CoreRecovery.Endpoint | tools/qualification_core_recovery.py:55-60 | Accepts a target row exactly when it passes the strict gate, is admitted and is not bad; no episode is then open |
| Recovery.CoreRecovery.NextCheckNs | tools/qualification_core_recovery.py:62-67 | Earlier than the observer only to meet the deadline of the open episode |
| Recovery.SameAccount | tools/qualification_core_recovery.py:24-53 | On a history that both accountants took, first bad time, total and episode count agree, and the total is at most sixty seconds for each closed episode |
| Recovery.CoreTotalBound | tools/qualification_core_recovery.py:34-52 | The strict total never exceeds sixty seconds for each episode it has closed |
| Recovery.ChargedIsTimeBehindBadRows | tools/qualification_owner_995.py:65-70 | The total is exactly the time spent behind bad rows, less what the open episode has run up |
| Recovery.StartsAndCloses | tools/qualification_owner_995.py:65-70 | Episodes opened equal episodes closed plus the one still open |
| Recovery.DeservedGrows | tools/qualification_owner_995.py:65-70 | The account by maximal bad runs can be kept call by call |
| Recovery.StrictRefusesReversalIff | tools/qualification_core_recovery.py:34-38 | Of a row that meets the other episode rules, reversed or not, the strict accountant refuses exactly one that lies before the first bad row of the open episode |
| Recovery.AccountantsPartIff | tools/qualification_core_recovery.py:24-53 | After a history that both took, the strict accountant takes a call that the lenient one refuses exactly when it meets the other episode rules, does not lie before the open episode, and its row is reversed or was checked before it was taken |
| Recovery.StrictRulesMissClockReversal | tools/qualification_core_recovery.py:34-38 | Finding: reversals that only the lenient accountant refuses, between good rows, into an episode, and inside an episode |
| WorkloadProgress.InterleavingsStayBalanced | docs/milestones/P0/benchmark_checks.py:89-149 | Under any interleaving of registrations, records, writes and acknowledgements in which each writer id serves one stream, refused calls included, each stream's written and persisted counters equal the sums over its writers and persisted never exceeds written |
| WorkloadProgress.BalanceKeptIff | docs/milestones/P0/benchmark_checks.py:109-149 | One accepted operation keeps the sums if and only if it respects the one-stream discipline |
| WorkloadProgress.TwoStreamsBreakTheBooks | docs/milestones/P0/benchmark_checks.py:123-129 | Finding: one writer id appending to two streams breaks the sums |
| WorkloadProgress.AcknowledgementIsExact | docs/milestones/P0/benchmark_checks.py:131-149 | A ticket taken earlier is accepted, whatever ran in between, exactly when no later acknowledgement overtook it; it credits exactly what it captured; otherwise nothing changes |
| WorkloadProgress.OvertakenTicketIsRefused | docs/milestones/P0/benchmark_checks.py:142-146 | Once a larger ticket has been acknowledged the smaller one is refused in every later run |
| WorkloadProgress.CountersAreTallies | docs/milestones/P0/benchmark_checks.py:109-134 | After any run each counter of a stream, other than the persisted one, is the tally of the accepted frames and bytes of its own phase and stream |
| WorkloadProgress.LastSentIsLastSend | docs/milestones/P0/benchmark_checks.py:109-121 | After any run the time of a stream's last send is the one its last accepted send gave; nothing else moves it, registering the stream again included |
| WorkloadProgress.SumTakesOut | docs/milestones/P0/benchmark_checks.py:126-129 | The sum over a map of writers does not depend on the order of summation |
| WorkloadProgress.Progress.Synced | docs/milestones/P0/benchmark_checks.py:136-149 | The object takes the specified step, and raises without effect exactly where the specification does |
| WorkloadProgress.Progress.Written | docs/milestones/P0/benchmark_checks.py:123-129 | The object takes the specified step |
| WorkloadProgress.Progress.Record | docs/milestones/P0/benchmark_checks.py:116-121 | The object takes the specified step, the time of a send included; an unknown stream raises |
| WorkloadProgress.Progress.RegisterModelSource | docs/milestones/P0/benchmark_checks.py:109-114 | The object takes the specified step: a known stream is left alone, a new one starts at zero, and exactly an empty ledger raises |
| PhysicalAudit.VerifyPhysicalRecords | docs/milestones/P0/benchmark_checks.py:17-86 | Accepts exactly the disks whose lifecycles, ordinals, receive times and payloads satisfy the rules stated on the whole physical sequence, and then reports its true flags, counts and evidence |
| PhysicalAudit.LifecyclesDecide | docs/milestones/P0/benchmark_checks.py:27-58 | The order rules accept chunks in whatever order they are listed: exactly when each has one writer, a lifecycle and gapless ordinals, and any two of one market, symbol, stream and writer, not just neighbours, lie wholly apart |
| PhysicalAudit.OwnersAreWriters | docs/milestones/P0/benchmark_checks.py:41-45 | Two chunks have one owner exactly when market, symbol, stream and writer incarnation agree |
| PhysicalAudit.LabelsNameStreams | docs/milestones/P0/benchmark_checks.py:55-56 | As long as no market or symbol has a slash in it, a label names one stream |
| PhysicalAudit.AcceptedReceiveTimes | docs/milestones/P0/benchmark_checks.py:59-65 | On an accepted disk receive times never run back along a connection of one writer: not within a chunk, and not into a chunk that became active after it was sealed |
| PhysicalAudit.MalformedDecides | docs/milestones/P0/benchmark_checks.py:58-85 | The flag test accepts exactly when no record of any chunk is flagged as malformed |
| PhysicalAudit.LabelsCountPayloads | docs/milestones/P0/benchmark_checks.py:55-70 | Each label is counted once for each of its payloads |
| PhysicalAudit.AcceptedPayloadsAreTheInput | docs/milestones/P0/benchmark_checks.py:66-70 | The digest comparison holds exactly when every stream's payloads on disk are the fixed input, frame for frame |
| PhysicalAudit.FramingInjective | docs/milestones/P0/steady_baseline.py:95-97 | Length-prefixed framing is injective on payload sequences |
| PhysicalAudit.SealDecides | docs/milestones/P0/benchmark_checks.py:47-49 | Comparing with the owner's latest seal keeps all its lifecycles apart |
| PhysicalAudit.ReceiveDecides | docs/milestones/P0/benchmark_checks.py:59-65 | Comparing with the connection's latest receive time keeps all its records in order, across chunks |
| PhysicalAudit.BooksDecide | docs/milestones/P0/benchmark_checks.py:84-85 | At the end the fed digests equal the expected ones exactly when the content rules hold; an expected stream without frames is never accepted |
| PhysicalAudit.ByActiveSorts | docs/milestones/P0/benchmark_checks.py:32 | Chunks are audited in order of activation, each once |
| SteadyClassifier.ClassifySteady | docs/milestones/P0/benchmark_checks.py:196-232 | A series is flagged exactly when it ends above the first value that rose over the window start; a stream is late exactly by the two input rules |
| SteadyClassifier.TwoHighsAreImplied | docs/milestones/P0/benchmark_checks.py:222-229 | Asking for two record highs adds nothing to asking that the end exceed the first |
| SteadyClassifier.GrowthNeedsTwoHighs | docs/milestones/P0/benchmark_checks.py:218-221 | A flagged series shows two separate new highs and its first rise is not its end, so neither a lone burst at the end nor a full recovery is flagged |
| SteadyClassifier.Highs | docs/milestones/P0/benchmark_checks.py:222-227 | The scan lists every record high, in order |
| LeasedGroup.ReleaseOnlyWhenAlone | docs/milestone_acceptance/R2-lossless-command-receipts-20261026/owned_command.py:155-158 | In every interleaving, at a release the parent holds a valid and true control line, its inventory saw nobody else in the group, and nobody else is in the group then or ever after |
| LeasedGroup.ReleaseByteIsHonoured | docs/milestone_acceptance/R2-lossless-command-receipts-20261026/owned_command.py:246-251 | The release byte is never swallowed: a keeper that reads it has sent its result and exits with code zero |
| LeasedGroup.NoSignalAfterReaping | docs/milestone_acceptance/R2-lossless-command-receipts-20261026/owned_command.py:190-197 | Once the keeper is reaped no group signal is ever sent |
| LeasedGroup.CalmRunsRelease | docs/milestone_acceptance/R2-lossless-command-receipts-20261026/owned_command.py:147-209 | Over all runs, by the steps taken: when nothing runs late or fails in the parent and its count finds nobody else, no signal is ever sent, whatever the command's exit code; the run ends with the lease released, the group empty and that code in the receipt, and with the keeper at exit code zero unless it gave up or was killed from outside |
| LeasedGroup.CleanEndsAreDecided | docs/milestone_acceptance/R2-lossless-command-receipts-20261026/owned_command.py:155-176 | A run that ends without a failure in the parent has released the lease unsignalled, exactly when nothing ran late and the count found nobody else, or else has sent TERM and then KILL; either way nobody is left in the group |
| LeasedGroup.KillEmptiesTheGroup | docs/milestone_acceptance/R2-lossless-command-receipts-20261026/owned_command.py:169-256 | A kill, by the parent or by a keeper that gives up or has lost its parent, leaves nobody in the group then or later |
| LeasedGroup.KillIsReported | docs/milestone_acceptance/R2-lossless-command-receipts-20261026/owned_command.py:160-188 | The receipt says that KILL was used exactly when it was sent, and no run sends more than three signals |
| LeasedGroup.ReleasedKeeperExits | docs/milestone_acceptance/R2-lossless-command-receipts-20261026/owned_command.py:238-251 | A released keeper that nobody harms needs at most two steps of its own to exit with code zero |
| LeasedGroup.ExitIsReported | docs/milestone_acceptance/R2-lossless-command-receipts-20261026/owned_command.py:238-245 | Once the command is gone a keeper that nobody harms reports its exit code within two steps of its own |
| LeasedGroup.LostKeeperCleansUp | docs/milestone_acceptance/R2-lossless-command-receipts-20261026/owned_command.py:238-256 | A keeper whose parent is gone goes on to read its input and then empties the group |
| LeasedGroup.ParentCanEnd | docs/milestone_acceptance/R2-lossless-command-receipts-20261026/owned_command.py:177-206 | The parent can fail at any moment before its handler, and from there it always can end, with the keeper's input closed |
| LeasedGroup.ForeignControlFails | docs/milestone_acceptance/R2-lossless-command-receipts-20261026/owned_command.py:138-143 | A control line that names another keeper or group, or no inner command, fails the run |
| LeasedGroup.SurvivorsAreReported | docs/milestone_acceptance/R2-lossless-command-receipts-20261026/owned_command.py:170-209 | The last count names whoever is alive in the group, the keeper included, and the receipt complains of any |
| LeasedGroup.ExitsAreFinal | docs/milestone_acceptance/R2-lossless-command-receipts-20261026/owned_command.py:190-197 | Exit codes of keeper and command are final, whatever is signalled to the group later |
| LeasedGroup.ProtocolOkIsSound | docs/milestone_acceptance/R2-lossless-command-receipts-20261026/command_receipts.py:70-98 | A receipt that passes means the inner command exited zero, the keeper exited zero after an honoured release, nobody is left in the group and the parent signalled nobody |
| LeasedGroup.OnlyOneReceiptPasses | docs/milestone_acceptance/R2-lossless-command-receipts-20261026/command_receipts.py:70-98 | For each pair of pids exactly one receipt passes |
| LeasedGroup.SignalledRunsDoNotPass | docs/milestone_acceptance/R2-lossless-command-receipts-20261026/command_receipts.py:75-98 | A run with a signal, a failure, a timeout, a non-zero inner exit or a survivor in the group never passes |
| LeasedGroup.SuccessIsReachable | docs/milestone_acceptance/R2-lossless-command-receipts-20261026/owned_command.py:125-198 | The undisturbed run exists for any pids and any exit code, and ends with the lease released, the keeper at zero and a receipt that carries the code and passes exactly for zero |
| LeasedGroup.LeftoverIsKilled | docs/milestone_acceptance/R2-lossless-command-receipts-20261026/owned_command.py:153-176 | A run of a command that exits zero and leaves a child behind: the group is terminated and killed, and the receipt names the child and does not pass |
| LeasedGroup.OverdueIsKilled | docs/milestone_acceptance/R2-lossless-command-receipts-20261026/owned_command.py:147-176 | A run of a command that does not end in time: the group is terminated and killed, and the receipt says so |
| LeasedGroup.StepKeepsAll | docs/milestone_acceptance/R2-lossless-command-receipts-20261026/owned_command.py:115-257 | Every step of parent, keeper or another member keeps the control line true, the release last and the signals accounted for |
| LeasedGroup.RunsKeepTheInvariant | docs/milestone_acceptance/R2-lossless-command-receipts-20261026/owned_command.py:115-257 | The invariant holds in every state of every run |
| ParsedViews.View | docs/milestone_acceptance/R2-lossless-command-receipts-20261026/command_receipts.py:27-38 | The explicit stack accepts exactly the values whose recursive depth is within bounds and whose floats are finite, and it terminates |
| ParsedViews.PushPreserves | docs/milestone_acceptance/R2-lossless-command-receipts-20261026/command_receipts.py:34-37 | Pushing children one level down keeps the bound still to be decided and the work still to be done |
| ParsedViews.ParseLines | docs/milestone_acceptance/R2-lossless-command-receipts-20261026/command_receipts.py:57-67 | A bad line is reported and costs no later good one: from the raw bytes the loop collects exactly the bounded views and the failures, each with its type and message and located where its bytes start |
| ParsedViews.LinesAreTheBytes | docs/milestone_acceptance/R2-lossless-command-receipts-20261026/command_receipts.py:59 | Splitting the raw bytes into lines loses and reorders nothing |
| ParsedViews.EachIsALine | docs/milestone_acceptance/R2-lossless-command-receipts-20261026/command_receipts.py:59 | Each part is text without line ends and then one line end, LF, CR or CR LF, which only the last part may lack |
| ParsedViews.SplitDecides | docs/milestone_acceptance/R2-lossless-command-receipts-20261026/command_receipts.py:59 | There is one way to cut the bytes into such parts without cutting a CR LF in two, and the split is it |
| ParsedViews.ErrorsAreLocated | docs/milestone_acceptance/R2-lossless-command-receipts-20261026/command_receipts.py:58-65 | A reported offset leads straight back, in the raw output, to the bytes of the line that failed, and it failed with the reported error |
| ParsedViews.EveryLineOnce | docs/milestone_acceptance/R2-lossless-command-receipts-20261026/command_receipts.py:58-66 | Each line shows up under its own number, as a view or as an error, and none twice |
| ParsedViews.ViewsAreTrue | docs/milestone_acceptance/R2-lossless-command-receipts-20261026/command_receipts.py:58-61 | A reported view is the bounded value of the line whose number it carries |
| CatalogSelection.Catalog.SelectCatalog | tools/qualification_scoped_corpus.py:73-205 | Succeeds exactly when the cursors and inventories agree, the chunks that the start inventory lacks are those whose first transition lies past the cursor, one each, and they hold records and are all settled; the kept chunks are then those, every dependent table is cut down to exactly the rows hanging on them, and all references hold |
| CatalogSelection.EveryDeleteKeepsReferences | tools/qualification_scoped_corpus.py:126-156 | After each of the eight deletes no child row refers to a missing parent, so foreign keys never refuse one |
| CatalogSelection.AllDeletesSelectExactly | tools/qualification_scoped_corpus.py:126-156 | The eight deletes together keep exactly the rows that hang, directly or through a parent, on a selected chunk |
| CatalogSelection.ParentsFirstBreaks | tools/qualification_scoped_corpus.py:143-144 | The order is needed: deleting chunks before a leftover transition breaks a reference |
| CatalogSelection.CompletionsKeepTheirStarts | tools/qualification_scoped_corpus.py:157-184 | A kept completion keeps its matching start, unchanged, exactly when that start has a ledger position, which the insert trigger gives to every event |
| CatalogSelection.SelectionIsMinimal | tools/qualification_scoped_corpus.py:160-184 | An event is kept exactly when it has a position and lies past the boundary or is a start whose market, symbol, stream and gap id, not null, a completion past the boundary repeats; kept rows are unchanged |
| CatalogSelection.Catalog.DeleteUnselected | tools/qualification_scoped_corpus.py:126-156 | The statements in their order, with the references holding after each |
| CausalRepair.SelectedCopy.RepairDiscontinuityContext | tools/qualification_selected_resume.py:50-138 | Commits exactly the missing starts with their own sequence ids, each at or below the boundary and the high water unchanged, or rolls back; succeeds exactly when the sequence is one to one, each completion agrees with the source and has one sound pair there, and the missing starts fit |
| CausalRepair.SoundMeans | src/binance_market_data_recorder/service/acceptance_v5_delta.py:254-276 | Evidence is sound exactly when it repeats the row's own identity, with nothing empty, around a whole end of its kind |
| CausalRepair.LookupMeans | src/binance_market_data_recorder/storage/acceptance_delta.py:194-207 | The pair lookup finds the starts that a completion closes and the completions that close the same start |
| CausalRepair.PairedMeans | src/binance_market_data_recorder/service/acceptance_v5_delta.py:236-278 | A completion is accepted exactly when the source has one start and one completion for it, both with a position and sound evidence, and the completion does not come first |
| CausalRepair.RepairIsIdempotent | tools/qualification_selected_resume.py:81-128 | A second repair succeeds and adds nothing |
| CausalRepair.SelectionNeedsNoRepair | tools/qualification_selected_resume.py:81-128 | A selection made from the same source is complete already, so there is nothing to add; the repair accepts it exactly when each completion past the boundary has one sound pair in the source |
| CausalRepair.SelectionMayBeRefused | tools/qualification_selected_resume.py:90-91 | Finding: a source whose completion names no gap is selected as it is, and the repair refuses the selection |
| CausalRepair.RepairRestoresSelection | tools/qualification_selected_resume.py:81-120 | Whatever pre-boundary starts a selector had lost are exactly the missing ones, and putting them back gives the full selection; the repair accepts exactly when each completion past the boundary has one sound pair in the source |
| CausalRepair.BlockedMeansUnfit | tools/qualification_selected_resume.py:104-119 | What keeps a start out of the working copy keeps it out of the catalog itself, whatever was added before it |
| ArchiveWorker.WholeCyclesAreExact | tools/r3_capacity.py:60-67 | Over any number of whole cycles a worker that works its seconds of each cycle and idles for the rest moves exactly what the reported rates say: its work seconds' bytes, and its chunks or its file cap, in each cycle |
| ArchiveWorker.WorkerKeepsRate | tools/r3_capacity.py:60-67 | At any moment such a worker has moved at least what the rates say and at most a cycle's worth more |
| ArchiveWorker.ServiceAfterOutage | tools/r3_capacity.py:68-73 | Wherever in its cycle the worker stands when the archive comes back, from the reported outage on it has served at least the reported rates: one cycle is gap enough |
| DiskBudget.PeakBoundsBacklog | tools/r3_capacity.py:73-108 | At every moment of the horizon the backlog, worked off at the effective service, is at most the reported peak |
| DiskBudget.PeakIsReached | tools/r3_capacity.py:105-108 | The backlog does reach the reported peak, at the end of the outage or of the horizon, and ends at the reported end |
| DiskBudget.InitialEquivalentIsLeast | tools/r3_capacity.py:82-86 | Old chunks are charged the least that covers both their bytes and their number at the arriving mix |
| ChunkBacklog.QueueWithinPeak | tools/r3_capacity.py:80-108 | Bytes in a first-in-first-out queue of old and new chunks, each served within both limits, never exceed that backlog, and so the peak, when retiring the old chunks keeps up with the effective service |
| ChunkBacklog.EvenChunksKeepUp | tools/r3_capacity.py:82-86 | Old chunks that are all at most as large as those of the arriving mix, or all at least as large, keep up |
| ChunkBacklog.EvenChunksStayWithinPeak | tools/r3_capacity.py:82-122 | For such old chunks the reported peak covers the real queue, and the reported lower bound the writer's free space, at every moment of the horizon |
| ChunkBacklog.StablePeakHoldsIff | tools/r3_capacity.py:82-108 | Under stable service, for old chunks of any sizes, the reported peak covers the queue throughout the horizon exactly when, at each retirement and at the horizon, the arrivals so far are at most the bytes retired plus what was charged above the old bytes |
| ChunkBacklog.UnevenChunksPassThePeak | tools/r3_capacity.py:82-122 | Finding: a small old chunk ahead of a large one; the scenario fits, and its queue exceeds the reported peak and takes the writer below its hard reserve |
| ChunkBacklog.MixIsServedEffectively | tools/r3_capacity.py:99-104 | Serving chunks of the mix one by one within both limits is serving bytes at the effective rate |
| DiskBudget.WriterStaysAboveBound | tools/r3_capacity.py:109-122 | With that backlog the writer's free space never falls below the reported lower bound |
| DiskBudget.ArchiveStaysAboveBound | tools/r3_capacity.py:123-133 | Archive free space never falls below the reported lower bound |
| DiskBudget.FittingScenarioIsSafe | tools/r3_capacity.py:134-142 | With that backlog a scenario that fits keeps the writer above its hard reserve and the archive short of full throughout |
| DiskBudget.FitsIff | tools/r3_capacity.py:88-142 | A scenario fits exactly when service is above arrival in bytes and in files, all that arrives by the horizon, old chunks as charged, could be served after the outage, and neither disk reaches its limit |
| DiskBudget.ReasonsAreExact | tools/r3_capacity.py:134-142 | Each blocking reason is reported exactly when it applies |
| DiskBudget.WriterMinIsTight | tools/r3_capacity.py:109-122 | The writer's bound is the whole number next below its free space at the horizon beside the peak, with every growth and temporary file counted |
| DiskBudget.ArchiveNeededIsTight | tools/r3_capacity.py:123-133 | The archive's need is less than two bytes above what it holds at the horizon |
| DiskBudget.StablePeakIsPostOutage | tools/r3_capacity.py:88-108 | Under stable service the peak is the backlog at the end of the outage |
| DiskBudget.CaughtUpIff | tools/r3_capacity.py:91-107 | When catch-up fits, the end backlog is zero exactly when bytes limit the service or the oversize of the old chunks fits in the spare file service |
| DiskBudget.OrdinaryBacklogIsCaughtUp | tools/r3_capacity.py:83-107 | In particular, old chunks no larger than the mix leave no end backlog |
| DiskBudget.FittingScenarioMayEndBehind | tools/r3_capacity.py:134-138 | Finding: a valid scenario that fits and still ends with a backlog |
| DiskBudget.RunwayIsExact | tools/r3_capacity.py:143-156 | With nothing retired the writer is at or above its reserve exactly up to the reported runway if it starts there; a start below the reserve has runway zero and stays below; without growth there is no runway and nothing changes |
| Measurements.Quantile | tools/benchmark_m3_three_way.py:75-82 | The first value whose running count exceeds rank k is element k of any ascending listing of the histogram |
| Measurements.HistogramDistribution | tools/benchmark_m3_three_way.py:71-85 | The histogram's quantiles, maximum and total are those of every sample list with that histogram |
| Measurements.DistributionMeans | tools/benchmark_m1_m3_pipeline.py:83-91 | Each reported percentile is a sample with at most that share of the gaps between samples below it and more than that share up to it; the maximum is the largest sample |
| Measurements.WeightedSum | tools/benchmark_m3_three_way.py:84 | Adding up value times count, in any order of values, gives the sum of the bag |
| Measurements.TotalOfBag | tools/benchmark_m1_m3_pipeline.py:83-91 | The sum of a sample list is the sum of its bag |
| Measurements.QuantizationCommutes | tools/benchmark_m3_three_way.py:393 | Quantizing with a monotone rounding before sorting gives the quantized order statistics, rank by rank |
| Measurements.MergedHistogramIsWhole | tools/benchmark_m3_three_way.py:393-395 | Adding up per-minute histograms gives the histogram of the whole run |
| StreamFingerprint.PrintIgnoresOrder | tools/benchmark_m3_three_way.py:88-102 | The fingerprint is the count and the hash sum of the multiset of frames: thread order and chunk boundaries cannot show |
| StreamFingerprint.Fingerprint.Add | tools/benchmark_m3_three_way.py:99-102 | Each added frame extends the fingerprinted history by that frame |
| Bars.TickInOneBar | tools/benchmark_m3_three_way.py:134-140 | Each tick lies in one bar, open on the left and closed on the right, and closes it exactly at its end |
| Bars.NextTick | tools/benchmark_m3_three_way.py:134-140 | No hole and no overlap: the next tick stays in the bar or, after a closing frame only, opens the adjacent one |
| Bars.OneClosingFrame | tools/benchmark_m3_three_way.py:138-140 | Each bar that ends inside the run gets exactly one closing frame |
| Bars.BarsAbut | tools/benchmark_m1_m3_pipeline.py:308-320 | Bars of consecutive ordinals abut to the millisecond, for weekly and UTC+8 bars too |
| Bars.BarsAreAligned | tools/benchmark_m1_m3_pipeline.py:317-320 | Bars lie on multiples of their period by UTC or by UTC+8, and weekly bars open on Mondays |
| Bars.WithheldCloseIsBackfilled | tools/benchmark_m3_three_way.py:160-166 | The frame withheld at tick 119 is the close of exactly the minute bar that the backfill check expects (lines 203-207) |
| AcceptanceCadence.RunAcceptanceStage | src/binance_market_data_recorder/cli.py:742-786 | No later sample starts before its predecessor's start plus the interval or the end of the stage; sampling goes on until, and no further than, a sample recorded at or past the end; missed slots are not replayed, and the number of samples is bounded |
| AcceptanceCadence.Wait | src/binance_market_data_recorder/cli.py:770-780 | The loop asks to be woken at its target or at the end of the stage, whichever is first, and never in the past |
| AcceptanceCadence.SampleCount | src/binance_market_data_recorder/cli.py:762-786 | At most (duration - 1) / interval + 2 samples |
| Relay.Loop.Turn | tools/ssh_en0_proxy.py:40-82 | One pass keeps both directions prefix-ordered with the remainder in the buffer, moves as many bytes as the calls accept, and ends exactly at the socket's end of file |
| Relay.Loop.Run | tools/ssh_en0_proxy.py:40-82 | After any number of passes all that the calls brought has been read, and what was written is a prefix of it, each way; half-close happened at most once and only after all input was sent; buffers stay under 98304 bytes |
| Relay.Loop.AlwaysInterested | tools/ssh_en0_proxy.py:41-54 | There is always something to wait for, so the exit for having nothing is never taken |
| Relay.Loop.WhatMayCome | tools/ssh_en0_proxy.py:41-56 | A side with under 65536 bytes waiting may be read, up to 32768 bytes at a time, and whatever waits may be written |
| Relay.Loop.Send | tools/ssh_en0_proxy.py:72-77 | Sent bytes leave the buffer from the front, and half-close follows the last of them |
| Relay.Loop.TakeStdin | tools/ssh_en0_proxy.py:59-66 | Input is appended, and its end is remembered and passed on at once only if nothing is waiting |
| ProcessTree.ProcessTreeSample | docs/milestones/P0/profile_steady.py:32-42 | The closure loop ends, even if parent links form a cycle, with exactly the pids reached from the root by parent links, and their resident bytes are summed |
| ProcessTree.DescendantsAreHereditary | docs/milestones/P0/profile_steady.py:34 | Nothing but the root is owned without an owned parent |
| MonitorRate.Evaluate | tools/qualification_monitor_rate.py:18-82 | Evidence is accepted exactly when checks are ordered, sound and close enough; counts, failed lines and the largest gap over both ends and all neighbours are true |
| MonitorRate.EvidenceCoversThePeriod | tools/qualification_monitor_rate.py:67-71 | In accepted evidence every stretch of the period longer than two cadences contains a check |

## Left out

Assumptions on the environment:

- Clocks: BOOTTIME and monotonic readings never decrease; sleeps last at least as long as asked (full sleeps: `SleepsFully`, `Honest`, `FinishOrdered`) where a lemma or method says so.
- The target duration of the capture is a constant of common.py, which is not part of this model; any positive whole number of 30 s slots is allowed.
- The configured contexts and the reasons of the auxiliary gate are inputs; how readiness publications produce them is not modelled.
- JSON and SHA-256: rows are parsed records in which an absent or non-integer field is `None`, and a digest is the byte sequence fed to it.
- SQLite, file systems, sockets, processes and `/proc`: only their effect on rows, bytes, descriptors and pids is modelled.
- Floating point: seconds, rates and quantile ranks are exact; rounding is not modelled.
- Python's sort is a stable insertion sort, and reasons that the source appends to a list are a set in SteadyClassifier.

Simplifications of single members:

- BookReconstruction.ReliableBookIsTrue: needs genuine inputs; an event is genuine about a price when its last word is the quantity at its final id and its silence means no change since the id it reaches back to.
- RateWindow.VerifyKey: one key at a time with its caps and window length as parameters; running the probes and the workloads are left out.
- RequestBudget.Budget.Take: one event loop; the waiting coroutines around it and the parsing of Retry-After headers are left out.
- Recovery.CoreRecovery.Check: promises its invariant only when it returns, because the source leaves a first bad row recorded when it raises on it.
- WorkloadProgress.Progress.Record: the snapshot of due frames that is computed from these counters is left out.
- PhysicalAudit.VerifyPhysicalRecords: reading chunks back and grouping transition rows into lifecycles happen before the model starts.
- LeasedGroup.RunsKeepTheInvariant: deadlines may strike at any moment, an inventory is one step although ps takes a while, pids are not reused while leased, members may leave the group but not join it from outside, and a failed Popen of keeper or inner command is not modelled.
- ParsedViews.ParseLines: what json.loads returns or raises for a line is a parameter; the none, utf8 and json modes are left out.
- ArchiveWorker.ServiceAfterOutage: in each cycle the worker works first and idles then, at its full rates while it works.
- ChunkBacklog.StablePeakHoldsIff: service is a fluid that frees the bytes of a chunk evenly while it is served; chunks leave in the order in which they came, and new ones all have the size of the mix.
- CatalogSelection.Catalog.SelectCatalog: comparing file hashes, copying and VACUUM are inputs or left out; foreign keys are those that the deletes show.
- CausalRepair.SelectedCopy.RepairDiscontinuityContext: the file bindings around the transaction are left out, and every position is within the source's high water because that is their maximum.
- Bars.TickInOneBar: intervals are any whole number of seconds; calendar-month bars are left out.
- Relay.Loop.Run: prefix order, not delivery; at the socket's end of file output may still be in the buffer.

Parts of the repository that are not modelled: collectors, order-book checkpoints and audits, book-ticker comparison,
normalisation, replay, archive transfer and deletion, acceptance codecs, command line and configuration, benchmark
timing, fixtures and review scripts.
