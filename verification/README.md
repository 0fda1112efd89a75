# Replay, lake and task verification

Dafny models of five parts of the trading research repository, each proved against what the
code is for. `dafny verify dfyconfig.toml` checks everything.

| file | models |
|---|---|
| `PositionSweep.dfy`, `PositionPricing.dfy`, `PositionGuarantees.dfy`, `Compounding.dfy` | `backtest/models.py`: which trades of a replay enter the portfolio, under slot, cash and lot limits, and the equity curve; the compounding mode |
| `Drawdown.dfy` | `backtest/replay.py`: the signal-level and the equity drawdown |
| `BenjaminiHochberg.dfy` | `diag/factor_zoo_scan.py`: the adjusted p-values |
| `Suspension.dfy`, `SuspensionMeaning.dfy`, `SuspensionCache.dfy` | `data/integrity.py`: suspended days from S/R events, what they promise, and the cache in front |
| `Continuity.dfy`, `ContinuityAgreement.dfy`, `LakeGaps.dfy`, `WindowGate.dfy` | `data/integrity.py`: the gap scanner, repair sub-segments, and the window gate |
| `SafeOverwrite.dfy` | `data/integrity.py`: the row-count guard and the atomic overwrite under crashes and power loss |
| `TokenBucket.dfy`, `CircuitBreaker.dfy` | `data/resilience.py`: rate limiter and circuit breaker |
| `GuardedFetch.dfy` | `data/tushare_sync.py`: one API pull behind both |
| `ShardSync.dfy`, `AsOfAdjust.dfy`, `AdjustedBars.dfy`, `AdjustedShard.dfy`, `SymbolSync.dfy` | `data/tushare_sync.py`: incremental shards, as-of price adjustment, adjusted shards over runs, the per-symbol loop |
| `TasksDb.dfy`, `TaskRunner.dfy`, `TaskProtocol.dfy`, `TaskGuarantees.dfy` | `backtest/tasks_db.py`, `backtest/scheduler.py`, `backtest/worker.py`: the task table, one pass of scheduler and worker, and all their interleavings |
| `Sorting.dfy`, `SortedDays.dfy`, `Arithmetic.dfy`, `Wrappers.dfy` | stable sorting, sorted day lists, products and quotients, optional values |

Code that updates state step by step is a method or a class here, proved equal to a specification
function; the theorems are lemmas about those functions over every input, run or interleaving.
Floats are `real`. Dates are integers, as the code compares fixed-width ISO text; symbols and file
versions are integers too. Clocks, random keys, API replies, over-long sleeps and the points where
a process stops are parameters.

## What the proofs establish

* **Portfolio.** The code looks at its limits only when a trade enters and releases expired
  positions lazily. Still, at every instant the open positions number at most `max_positions` and
  stake at most the capital, for every queue discipline; every refusal is forced; the final equity
  is an exact accounting identity.
* **Lake integrity.** The one-pass clustered scan computes the per-symbol definition of a suspended
  day. The scanner's gaps are exactly, and maximally, the missing days, and the independently
  written gate agrees with it. Histories of overwrites never leave a torn target and lose at most a
  tenth of the rows per attempt.
* **Resilience.** Bounds on grants and probes in any window of any interleaving, and on the API
  calls of any run of pulls; polling does not disturb the bucket; a breaker opens exactly at the
  threshold of failures since the last success and then refuses until it has cooled; it leaves
  HALF_OPEN exactly when a pull that its quota admits is answered, and the first answer decides
  which way.
* **Sync.** A call over the shard directory does one step of each symbol's own run. After any run of resumed syncs, torn writes and failed pulls a shard is what one pull of
  the source would give; after any run of adjusted syncs all its rows are on a single base.
* **Tasks.** Over all interleavings of schedulers, workers, sweeps, cancels, deletes and restarts:
  nothing is claimed or submitted twice, claims come oldest first, statuses only move forward.

## Where the code falls short of its own promise

Each is modelled as the code behaves; the members named give the condition under which the promise
holds, and a case in which it does not.

* The curve is documented as ascending by exit date (`backtest/models.py:88`) but is in admission
  order: `CurveOrder`, `CurveOutOfOrder`.
* For no trades a bare list comes back even when the taken trades were asked for
  (`backtest/models.py:109-110`): `BuildEquityCurve`.
* With no capital, a trade that is taken divides by zero: `BuildEquityCurve`,
  `ZeroCapitalRaisesExactlyWhen`, `OneTradeWithoutCapital`.
* A trade with a negative fraction can push a portfolio over its capital, and any that occupies
  time does beside some other trade: `NegativeFractionBreaksTheBound`.
* A suspension is documented to last from its S to the next R, or to the end
  (`data/integrity.py:14-15`), but trade days strictly between two successive S events are left
  out: `PromiseKeptExactlyWhen`, `ConsecutiveSuspensionsLeaveAGap`.
* The cache promises no staleness (`data/integrity.py:151-152`), which needs the stamp to determine
  the suspensions: `NeverStaleExactlyWhen`, `RewrittenInOneTick`.
* An overwrite whose flush failed does not survive power loss: `CorruptionExactlyWhen`,
  `FailedFlushThenPowerLoss`. The guard then refuses every later unforced write:
  `CorruptStaysUntilForced`.
* A probe that ends in an empty frame or a permission error is never recorded, and HALF_OPEN has no
  timeout: `LeavesHalfOpenExactlyWhen`, `NeutralProbesWedge`, `WedgedUntilAnswered`. A comment in the empty-frame branch
  (`data/tushare_sync.py:151`) speaks of a recorded success; the code records nothing.
* Shard merges keep one row a date, so datasets with several lose rows
  (`config/registry.py:673-686`): `MergeKeepsAllExactlyWhen`, `OneOfTwoLevelsIsLost`. Late
  corrections inside the stored span are never fetched: `BackfillIsMissedExactlyWhen`,
  `CorrectionIsMissed`. In an adjusted shard a stored day that the source no longer knows stays on
  its old base: `OneBaseAfterResync`, `WithdrawnDayStaysOnItsOldBase`.
* Waiting for more tokens than the bucket holds, without a timeout, never ends: `Acquire`.
* An ended task status is not always final, and a success can show less than full progress:
  `StatusIsFinalExactlyWhen`, `SweptThenSucceeds`, `ProgressIsFinalExactlyWhen`,
  `SuccessBelowFullProgress`.

## Model

| member | source | states |
|---|---|---|
| PositionSweep.QueueIsOrderedRearrangement | backtest/models.py:143-172 | Every queue discipline and every random draw yields a rearrangement of the trades ordered by the start of occupancy. |
| PositionSweep.Release | backtest/models.py:180-188 | Releasing drops exactly the holdings whose exit is not after the key and frees exactly their money. |
| PositionSweep.KeptTwice | backtest/models.py:180-188 | Releasing lazily at an earlier key first changes nothing about what is left at a later one. |
| PositionSweep.KeptIsStillOpen | backtest/models.py:180-188 | The holdings left by a release are exactly the taken orders still open after the key. |
| PositionSweep.MirrorsAfterRelease | backtest/models.py:180-188 | After the lazy release the running list mirrors all orders ever taken that are still open. |
| PositionSweep.Sweep | backtest/models.py:173-232 | The running cash and holdings take exactly the orders of the recursive greedy definition, which refuses only for slots, size or money; the curve has one point per taken order. |
| PositionSweep.BuildEquityCurve | backtest/models.py:86-233 | Curve and taken trades are those of the greedy selection over the queue; no trades give a bare list; without capital the first trade taken divides by zero. In the compounding mode all trades are taken in exit order. |
| PositionPricing.QueueOfTrades | backtest/models.py:127-172 | For every discipline and all draws: each trade is queued once, with its occupancy (from entry, or from the day after the signal when pending orders freeze money, to exit), and which of two asks first, down to the given order among ties. |
| PositionPricing.OrdersArePriced | backtest/models.py:195-225 | For every queued order: no stake exactly without a price or when the budget is below one lot, else as many lots as fit the budget, and at least one; its gain is the return after slippage on both sides, less two minimum fees in lot mode, and pnl_pct is that gain in percent of the stake. |
| PositionPricing.CurvePoints | backtest/models.py:219-232 | Point k stands at the exit of the k-th order taken and adds its rr and its gain to the point before; the k-th taken trade is the one given. |
| PositionSweep.Compound | backtest/models.py:112-126 | The compounding loop computes the running growth, the running rr and one point per trade. |
| Compounding.CompoundSteps | backtest/models.py:115-125 | Point k multiplies the equity before it by 1 + rr * risk_frac, adds the rr, and stands at its exit. |
| Compounding.CompoundsInExitOrder | backtest/models.py:114-114 | In the compounding mode every trade is taken once and the curve is in exit order, as documented. |
| Compounding.GrowthIgnoresOrder | backtest/models.py:116-119 | What the trades compound to does not depend on their order. |
| Compounding.FinalCompoundEquity | backtest/models.py:113-126 | The compounded curve ends at the growth of the trades as given, whatever ties their exit dates have. |
| PositionSweep.ZeroCapitalRaisesExactlyWhen | backtest/models.py:190-225 | Without capital a trade is taken, and the division raises, exactly when there are trades, no whole lots are asked for and slots exist. |
| PositionSweep.OneTradeWithoutCapital | backtest/models.py:216-225 | One trade at capital zero is taken. |
| PositionGuarantees.LimitsHoldAfterEachStep | backtest/models.py:178-232 | After every step cash is not negative (stakes still open sum to at most the capital) and the slots are respected. |
| PositionGuarantees.LimitsHoldAtEveryInstant | backtest/models.py:178-232 | At every instant, not only at entries, open positions number at most max_positions and stake at most the capital. |
| PositionGuarantees.PortfolioWithinLimits | backtest/models.py:103-107 | The same for all trades, disciplines, draws and instants. |
| PositionGuarantees.RefusalIsForced | backtest/models.py:190-217 | A refused order had no size, or all slots were taken at its start, or it did not fit beside the stakes overlapping its start. |
| PositionGuarantees.FinalEquity | backtest/models.py:219-225 | Total gain times capital is the sum of stake times return less two minimum fees per taken lot order. |
| PositionGuarantees.FinalEquityOfReplay | backtest/models.py:219-232 | The last curve point is 1 plus that net profit over the capital. |
| PositionGuarantees.CashNeverRefuses | backtest/models.py:190-217 | With a fixed fraction and max_positions * pos_cap at most 1, a sized order enters exactly when a slot is free. |
| PositionGuarantees.NegativeFractionBreaksTheBound | backtest/models.py:195-200 | With quality allocation and room for two, a trade that occupies time keeps every pairing with an ordinary trade within the capital if and only if its fraction is not negative. |
| PositionGuarantees.CurveOrder | backtest/models.py:88-88 | Under every discipline the curve is in exit order exactly when no taken trade nests in an earlier one and simultaneous starts were taken by exit, which the default discipline ensures; there no nesting in the queue suffices, and is needed when nothing is refused. |
| PositionGuarantees.DefaultQueueOrdersTies | backtest/models.py:168-172 | The default discipline queues simultaneous starts by exit. |
| PositionGuarantees.CurveOutOfOrder | backtest/models.py:226-231 | Two trades whose curve, under every discipline and draw, is not in exit order. |
| Drawdown.SignalDrawdown | backtest/replay.py:316-327 | One pass with a running peak finds the minimum over all contiguous blocks of summed rr, 0 when none is negative. |
| Drawdown.WorstBlockIsUnique | backtest/replay.py:312-315 | That minimum is one number, so the pass computes a definition. |
| Drawdown.BlocksAddUp | backtest/replay.py:316-320 | A block of one trade is worth its rr, and adjacent blocks add up. |
| Drawdown.EquityDrawdown | backtest/replay.py:389-396 | The minimum over j of eq_j over the highest point so far (1 included) less 1, capped at 0. |
| Drawdown.DeepestFallBounds | backtest/replay.py:386-396 | No later point fell further from any earlier one; the loss passes 100% exactly when equity goes negative. |
| Drawdown.DeepestFallIsAttained | backtest/replay.py:389-396 | A negative drawdown is the fall of some point from the start or from an earlier point. |
| BenjaminiHochberg.Adjust | diag/factor_zoo_scan.py:84-86 | The array filled through the permutation holds the clipped suffix minima of p * m / rank. |
| BenjaminiHochberg.AdjustedIsStepUp | diag/factor_zoo_scan.py:82-86 | For every level below 1, thresholding the adjusted values is the step-up procedure in sorted and in unsorted form. |
| BenjaminiHochberg.AdjustedRejects | diag/factor_zoo_scan.py:82-86 | The same per hypothesis, and adjusted values lie in [0, 1]. |
| BenjaminiHochberg.AdjustedIsMonotone | diag/factor_zoo_scan.py:85-86 | Adjusted values are monotone in the p-values. |
| BenjaminiHochberg.TieBreakingIsIrrelevant | diag/factor_zoo_scan.py:84-85 | Any two ways of breaking ties in argsort give the same adjusted values. |
| Suspension.BisectLeft | data/integrity.py:122-122 | The first position whose day is not before the key. |
| Suspension.DaysFrom | data/integrity.py:122-123 | The bisected tail is the trade days on or after the key. |
| Suspension.DaysBetween | data/integrity.py:133-135 | The bisected slice is the trade days in the half-open interval, empty when crossed. |
| Suspension.ScanIsDefinition | data/integrity.py:119-140 | Scanning one symbol's events gives exactly the days of the definition: S dates, trade days before a directly following R, and all after a final S. |
| Suspension.OneSortServesAll | data/integrity.py:104-106 | One stable sort of the whole table gives each symbol the rows of its own sort. |
| Suspension.LoadSuspendIntervals | data/integrity.py:80-143 | The one-pass clustered scan returns the per-symbol definition for exactly the symbols that were suspended. |
| SuspensionMeaning.ResumptionDayTrades | data/integrity.py:13-13 | In any table an R date of a symbol without an S on it is not on record as suspended. |
| SuspensionMeaning.MarksKeepTableOrder | data/integrity.py:104-106 | The events a symbol is judged by are its S and R rows of the table by date, rows of one date in table order. |
| SuspensionMeaning.OnRecordExactlyWhen | data/integrity.py:119-143 | For any table, symbol and day: on record exactly when promised by the documentation and not strictly between two successive S events. |
| SuspensionMeaning.PromiseKeptExactlyWhen | data/integrity.py:14-15 | The documented intervals, closed and open, are on record exactly when no trade day falls strictly between two successive S events of the symbol. |
| SuspensionMeaning.OneSymbolTable | data/integrity.py:119-143 | A table of one symbol's marks in date order yields exactly their suspended days. |
| SuspensionMeaning.ConsecutiveSuspensionsLeaveAGap | data/integrity.py:127-129 | The table S, S, R yields the S dates and the days from the second S, not the day between the two. |
| SuspensionCache.Cache.Load | data/integrity.py:157-183 | The answer is the uncached one for the content stored under the key; at eight entries the cache is emptied first. |
| SuspensionCache.StoredCameFromACall | data/integrity.py:176-183 | Every stored answer came from an earlier call with its key, and at most eight are held. |
| SuspensionCache.EightKeysAreReadOnce | data/integrity.py:176-183 | While at most eight keys are asked for, each keeps the content of its first request. |
| SuspensionCache.NinthKeyEmptiesTheCache | data/integrity.py:180-183 | After a ninth key only that one is stored. |
| SuspensionCache.CachedAgreesWithUncached | data/integrity.py:151-152 | Over any run of file versions, windows and evictions the cached answer is the uncached one if the stamp determines the content. |
| SuspensionCache.StaleAnswerTracesBack | data/integrity.py:176-183 | A stale answer comes from an earlier call with the same stamp and days on a content with other suspensions. |
| SuspensionCache.SecondOfTwo | data/integrity.py:173-183 | On an empty cache the second of two calls with one key is stale exactly when their contents differ in suspensions. |
| SuspensionCache.NeverStaleExactlyWhen | data/integrity.py:151-152 | No run over a set of requests is ever stale, evictions included, exactly when no two of them share stamp and days but differ in suspensions. |
| SuspensionCache.RewrittenInOneTick | data/integrity.py:173-178 | A file rewritten under the same stamp is answered from its old content. |
| Continuity.UnjustifiedSubsegments | data/integrity.py:456-474 | The loop returns the runs of the unjustified days within the missing days. |
| Continuity.CollectMeansSpans | data/integrity.py:516-527 | The collected runs are the maximal spans of kept days. |
| Continuity.RunsConcatenate | data/integrity.py:516-527 | The runs, concatenated, are exactly the kept days in order. |
| Continuity.PresumptionNeedsAHealthyMarket | data/integrity.py:443-453 | A presumed suspension is at least ten days long and at least 800 symbols traded on each of its days. |
| WindowGate.PresumedExactlyWhen | data/integrity.py:443-453 | Presumed suspended exactly when the hole has ten days or more, data on both sides, a median presence of 1000 or more, and no day under eight tenths of it; the median is the middle of any ascending rearrangement. |
| Continuity.ScanSymbol | data/integrity.py:510-527 | The loop over expected days returns the gaps built from the maximal runs without rows. |
| LakeGaps.FindGaps | data/integrity.py:506-528 | For every symbol and day: the day is listed for the symbol exactly when it is a trade day without a row that has an earlier and a later row, and then in one gap only; a gap is the whole run of trade days from its start to its end, and its flags follow from S/R events and presumption. |
| LakeGaps.GapsAreTheHoles | data/integrity.py:482-487 | The same of the specification, and between two gaps of one symbol lies a trade day with a row. |
| Continuity.FilterUniverse | data/integrity.py:650-670 | Exactly the symbols with rows whose tail window passes the gate, in order. |
| WindowGate.GateMeaning | data/integrity.py:589-604 | For every day: listed as missing exactly when it is a trade day between two rows of the window without one, unjustified exactly when also no suspension explains it; the window passes exactly when there is no such day. |
| WindowGate.CleanSymbolsStay | data/integrity.py:650-670 | The filtered universe keeps, in order and as often as named, exactly the symbols with rows whose last window rows have no unexplained gap. |
| ContinuityAgreement.GapsAreTheMissingDays | data/integrity.py:482-487 | The gaps concatenated are exactly the trade days between first and last row without a row. |
| ContinuityAgreement.GapsAreMaximal | data/integrity.py:516-527 | Gaps are disjoint, separated by present days, and strictly between real rows. |
| ContinuityAgreement.NeighboursAlwaysHaveData | data/integrity.py:548-553 | The presumption's two neighbour conditions always hold for a scanned gap. |
| ContinuityAgreement.GapFlags | data/integrity.py:542-562 | How the justified and suspected flags and the unjustified list determine each other; the dataclass fill-in never applies. |
| ContinuityAgreement.SubsegmentsAreTheUnjustifiedDays | data/integrity.py:456-474 | The repair segments are cut at the maximal spans of a gap's unjustified days and together are exactly those days. |
| ContinuityAgreement.ScannerAndGateAgree | data/integrity.py:569-604 | Without the heuristic the gate's unjustified days are the union of the gaps' ones, and it passes exactly when all gaps are justified. |
| ContinuityAgreement.GateIsStricterThanPresumption | data/integrity.py:546-555 | With it, the gate passes exactly when all gaps are justified and none by presumption. |
| ContinuityAgreement.TailSeesTheRestriction | data/integrity.py:653-663 | A tail window sees exactly the restriction of the full verdict; passing in full implies passing in every tail. |
| ContinuityAgreement.NoCalendarLetsAllThrough | data/integrity.py:646-648 | With no trade days every symbol with rows passes. |
| SafeOverwrite.Lake.AtomicWrite | data/integrity.py:342-373 | What every way of ending leaves in target and temporary file. |
| SafeOverwrite.Lake.Overwrite | data/integrity.py:376-395 | Refused exactly when unforced and the target is unreadable, or exists and the new table is empty or below the ratio; written exactly when nothing fails; the new table is in place when the replacement was reached, else the old one. |
| SafeOverwrite.DefaultGuard | data/integrity.py:249-316 | At the default ratio a write is let through exactly for a missing target, or a readable one when the new table is not empty and has nine tenths of its rows. |
| SafeOverwrite.GrowingIsAllowed | data/integrity.py:249-268 | A table that does not shrink is let through at any ratio up to 1. |
| SafeOverwrite.TargetIsTheLastReplacement | data/integrity.py:342-373 | After any history without an ill-timed power loss the target is the table of the last attempt that reached the replacement, or the original. |
| SafeOverwrite.TargetIsAlwaysOneCompleteVersion | data/integrity.py:349-373 | After any history with crashes at any step the target is the original or one complete written table. |
| SafeOverwrite.RowsNeverCollapse | data/integrity.py:249-268 | After k unforced attempts a lake of n > 0 rows holds at least 0.9^k * n and is not empty. |
| SafeOverwrite.LostExactlyWhen | data/integrity.py:319-339 | After any history a readable target is lost exactly when some power loss struck while it was unflushed. |
| SafeOverwrite.CorruptionExactlyWhen | data/integrity.py:319-339 | In terms of the happenings: an allowed attempt replaced the table without flushing, and a power loss came before any other replacement. |
| SafeOverwrite.FailedFlushThenPowerLoss | data/integrity.py:331-339 | A written table whose flush failed is unreadable after a power loss. |
| SafeOverwrite.UnflushedExactlyWhen | data/integrity.py:329-339 | After any history the target is unflushed exactly when the last attempt that replaced it could not flush and no power loss came since. |
| SafeOverwrite.CorruptStaysUntilForced | data/integrity.py:307-311 | An unreadable target is never overwritten unforced. |
| TokenBucket.RefillsCompose | data/resilience.py:230-236 | Refilling in between changes nothing about a later level. |
| TokenBucket.RateLimiter.TryAcquire | data/resilience.py:238-245 | Granted exactly when what is held plus elapsed * rate, capped at the capacity, covers the request; then exactly that much is taken out. |
| TokenBucket.RateLimiter.Acquire | data/resilience.py:247-261 | The polling loop leaves the level the bucket would have had without polling less what was granted; it gives up only when the tokens would not be there at the deadline either, and undisturbed it has them by the deadline if they are, after exactly as long as the shortfall takes when there is none; it ends except for more than the capacity without a timeout, where it is still waiting after any number of polls. |
| TokenBucket.GrantsAreBacked | data/resilience.py:230-245 | In any run what was granted plus what is held is at most what was held plus what was refilled. |
| TokenBucket.GrantsAreExact | data/resilience.py:230-245 | While the bucket does not run over, what was granted and what is held are exactly what was held plus what was refilled. |
| TokenBucket.WindowBound | data/resilience.py:209-218 | In any window at most capacity + rate * length is granted, and 0 <= tokens <= capacity. |
| TokenBucket.OversizedIsNeverGranted | data/resilience.py:251-257 | More than the capacity is never granted. |
| CircuitBreaker.Breaker.AllowRequest | data/resilience.py:110-120 | The whole new state and the answer, thawing included. |
| CircuitBreaker.Breaker.RecordSuccess | data/resilience.py:122-130 | The whole new state. |
| CircuitBreaker.Breaker.RecordFailure | data/resilience.py:132-139 | The whole new state. |
| CircuitBreaker.ReachableIsSound | data/resilience.py:83-139 | From a fresh breaker, over all interleavings, CLOSED has fewer failures than the threshold and HALF_OPEN no more grants than its quota. |
| CircuitBreaker.OpenGrantsNothing | data/resilience.py:93-101 | OPEN grants nothing before opened_at + recovery_timeout. |
| CircuitBreaker.FailuresOpenExactlyWhen | data/resilience.py:132-139 | From CLOSED without failures, k failures leave the breaker OPEN exactly when k is at least the threshold (and 1), since the time of the failure that reached it. |
| CircuitBreaker.StaysClosedExactlyWhen | data/resilience.py:122-139 | With requests, successes and failures in any order it stays CLOSED exactly as long as the failures since the last success stay below the threshold. |
| CircuitBreaker.FreshBreakerOpens | data/resilience.py:93-139 | A fresh breaker grants everything until that count reaches the threshold, and from then on refuses everything until the recovery timeout is over. |
| CircuitBreaker.RefusesWhileCooling | data/resilience.py:93-120 | An OPEN breaker stays so, with the same opening time, and refuses, whatever arrives before its cooling time is over. |
| CircuitBreaker.EpisodesAreApart | data/resilience.py:93-101 | In any time-ordered run two episodes of HALF_OPEN start at least recovery_timeout apart. |
| CircuitBreaker.ProbesAreCounted | data/resilience.py:110-120 | From HALF_OPEN, until an answer comes, the counter grows by exactly the probes granted, which stay within the rest of the quota. |
| CircuitBreaker.EpisodeStaysWithinQuota | data/resilience.py:110-120 | In any run one episode, from the call that starts it for as long as it lasts, grants at most half_open_max_calls probes. |
| CircuitBreaker.ProbesWithinAllowance | data/resilience.py:110-120 | From any state the probes granted are within what the running episode has left plus one quota for each episode that can still start. |
| CircuitBreaker.ProbeBound | data/resilience.py:53-55 | In a span T at most quota * (floor(T / recovery_timeout) + 1) probes are granted. |
| CircuitBreaker.WedgedUntilAnswered | data/resilience.py:116-119 | With the quota used and no answer, every request at every time is refused. |
| CircuitBreaker.HalfOpenIsLeftOnlyByAnswers | data/resilience.py:122-139 | In any run HALF_OPEN is left at some point exactly when some answer is recorded. |
| CircuitBreaker.UnansweredProbesWedge | data/resilience.py:116-119 | Without an answer HALF_OPEN wedges exactly when the requests use up the quota. |
| GuardedFetch.BackoffSum | data/tushare_sync.py:140-148 | k retries back off for exactly 2^(k+1) - 2 seconds, at most 62. |
| GuardedFetch.ChainEnds | data/tushare_sync.py:120-148 | The retry chain ends with the first reply that is not transient, or else with the sixth call; five retries back off for 62 seconds. |
| GuardedFetch.RefusedAfterTheWait | data/tushare_sync.py:104-114 | Whatever other threads do during the cooling wait, the second refusal happens exactly when the quota is used up or one of their failures opened the breaker again. |
| GuardedFetch.RefusedTwiceMeansWedged | data/tushare_sync.py:104-114 | With nobody else calling, a refusal after one cooling time happens exactly to a wedged breaker. |
| GuardedFetch.FetchWithGuard | data/tushare_sync.py:72-160 | Ends with one token drawn during the call, at most one breaker wait and at most six calls; makes no call exactly when the breaker was wedged; records at most one outcome, determined by the last reply; returns data exactly when that was data; leaves limiter and breaker fit for the next call. |
| GuardedFetch.PassBreaker | data/tushare_sync.py:104-114 | At most one cooling wait; refused in the end exactly when the breaker was wedged, which is then unchanged. |
| GuardedFetch.CallWithRetries | data/tushare_sync.py:120-160 | The retry chain has exactly its defined length and backoff, and the breaker hears of its last reply alone. |
| GuardedFetch.ProbeIsAnsweredExactlyWhen | data/tushare_sync.py:121-157 | A probe is answered exactly when the API does not go, within six calls, from transient failures to an empty frame or a permission error. |
| GuardedFetch.LeavesHalfOpenExactlyWhen | data/tushare_sync.py:132-157 | In a run of pulls a breaker of any quota leaves HALF_OPEN exactly when one of the pulls that the rest of its quota admits is answered. |
| GuardedFetch.FirstAnswerDecides | data/tushare_sync.py:130-157 | The first answered pull closes the breaker when it brought data and opens it again otherwise. |
| GuardedFetch.BadPullsOpen | data/tushare_sync.py:121-160 | From CLOSED every pull passes until the bad pulls since the last with data reach the threshold; the pull that reaches it opens the breaker when it ends. |
| GuardedFetch.NeutralProbesWedge | data/tushare_sync.py:132-152 | Neutral pulls wedge the breaker exactly when they use up the quota, of any size; then every request at every time is refused. |
| GuardedFetch.CallsPerWindow | data/tushare_sync.py:98-128 | Pulls that each make at most six calls on a granted token make at most 6 * (capacity + rate * T) calls in a window of length T. |
| GuardedFetch.FetchInTurn | data/tushare_sync.py:317-354 | Any number of guarded pulls in turn, with any pauses, make at most 6 * (capacity + rate * elapsed) API calls, and each brings the data of the last call of its retry chain, or nothing. |
| ShardSync.MergeMeaning | data/tushare_sync.py:416-428 | A merge is strictly date-sorted with one row a day: the pulled one where there is one, else the stored one; no stored day is lost. |
| ShardSync.AnswersExactlyWhen | data/tushare_sync.py:578-588 | In terms of the raw rows: an answer is exact when its dated rows have different dates, are those of the range, and carry the values of the source. |
| ShardSync.MergeKeepsAllExactlyWhen | data/tushare_sync.py:425-427 | No row is lost exactly when no two rows share a date. |
| ShardSync.OneOfTwoLevelsIsLost | config/registry.py:673-686 | Two pulled rows of one date leave one. |
| ShardSync.FullPullStoresTheRange | data/tushare_sync.py:578-588 | In any API order, a cleansed answer is the source's rows of the range in date order. |
| ShardSync.ResumedPullCompletes | data/tushare_sync.py:332-334 | A complete shard merged with the missing range is complete to the new end. |
| ShardSync.ShardIsOnePull | data/tushare_sync.py:321-356 | After any run of syncs, torn writes, empty pulls and new data the shard is one pull of the source up to its last day. |
| ShardSync.AnsweredSyncCatchesUp | data/tushare_sync.py:321-356 | After an answered sync it is one pull of [first start, end]; a skipped sync means it already reached the end. |
| ShardSync.ResumedSyncKeepsDays | data/tushare_sync.py:355-356 | A resumed sync never drops a stored day whatever comes back, and an empty pull changes nothing. |
| ShardSync.BackfillIsMissedExactlyWhen | data/tushare_sync.py:332-334 | A resumed shard equals a full pull exactly when the source did not change within the stored span. |
| ShardSync.CorrectionIsMissed | data/tushare_sync.py:332-334 | A day corrected after it was stored keeps its old value through the next resumed sync. |
| AsOfAdjust.AsOfMeaning | data/tushare_sync.py:377-380 | The as-of factor is the one of the greatest factor day not after the bar. |
| AsOfAdjust.BackwardMerge | data/tushare_sync.py:394-394 | The two-pointer pass over sorted tables gives each left row its as-of factor. |
| AsOfAdjust.PositionsAreRestored | data/tushare_sync.py:386-396 | Sorting back by position gives bar i, in any API order, the factor of its own day. |
| AsOfAdjust.AdjustBatch | data/tushare_sync.py:381-407 | Sort, merge and restore produce the bar-by-bar definition; missing factors or a bad base skip the batch, unusable dates raise. |
| AdjustedBars.AdjustedBar | data/tushare_sync.py:386-407 | In an accepted batch bar i keeps its place, date and other columns, and each price is the raw one times the last factor row not after its day over the newest factor row. |
| AdjustedBars.AdjustedExactlyWhen | data/tushare_sync.py:397-404 | A dated batch is accepted exactly when the newest factor is a number other than zero and every bar has an as-of factor. |
| AdjustedBars.RaisesExactlyWhen | data/tushare_sync.py:381-396 | The join raises exactly when there are factors and one table has an unusable date. |
| AsOfAdjust.AcceptedExactlyWhen | data/tushare_sync.py:371-375 | With usable factors a batch is accepted exactly when no bar is older than the first factor. |
| AsOfAdjust.RatiosIgnoreTheBase | data/tushare_sync.py:358-363 | Price ratios between two bars do not depend on the base factor. |
| AsOfAdjust.NewestBarsKeepTheirPrices | data/tushare_sync.py:361-362 | A bar on or after the newest factor day keeps its raw prices. |
| AsOfAdjust.LaterFactorsDoNotMatter | data/tushare_sync.py:394-394 | Factors of later days do not reach back. |
| AsOfAdjust.OneBaseAfterResync | data/tushare_sync.py:335-339 | After an accepted resumed sync every row, old or new, is on one base, the shard being one pull of the rescaled source, exactly when the source still knows every stored day. |
| AsOfAdjust.WithdrawnDayStaysOnItsOldBase | data/tushare_sync.py:416-428 | A stored day withdrawn from the source keeps its old price beside a newly scaled one. |
| AdjustedShard.AcceptedSyncRescales | data/tushare_sync.py:335-429 | An accepted sync leaves one pull of [first start, end] of the source, rescaled with the new factors. |
| AdjustedShard.ShardIsOnOneBase | data/tushare_sync.py:335-429 | After any run of accepted, refused, raising or torn syncs and of new data all stored rows are on one base. |
| SymbolSync.ShardDir.SyncBySymbol | data/tushare_sync.py:317-429 | The loop does each symbol's sync in turn; on an exception the earlier symbols stay written. |
| SymbolSync.SymbolsAreIndependent | data/tushare_sync.py:317-429 | Each symbol's shard afterwards is its own sync of its own old shard; others are untouched. |
| SymbolSync.RoundIsASync | data/tushare_sync.py:321-429 | A round of an unadjusted dataset is one sync step of the shard runs, on what came back for the range asked for. |
| SymbolSync.RoundIsAnAdjustedSync | data/tushare_sync.py:321-429 | A round of an adjusted dataset is one sync step of the adjusted shard runs. |
| SymbolSync.ResumedRoundCompletes | data/tushare_sync.py:321-356 | After the call a resumed shard that held everything up to its last day holds everything up to the end, when exactly the days after it came back; it stays as it is when it reached the end already or nothing came back. |
| SymbolSync.FullRoundStoresTheRange | data/tushare_sync.py:321-429 | Without a shard to resume the whole range is asked for and stored. |
| SymbolSync.ResumedCallKeepsDays | data/tushare_sync.py:412-429 | A resumed call, adjusted or not and whatever comes back, loses no stored day of any symbol. |
| SymbolSync.AdjustedRoundRescales | data/tushare_sync.py:335-429 | An adjusted shard is asked for again from its first day, and afterwards is one pull of the source on the base of the new factors, or unchanged when the batch is refused. |
| SymbolSync.FullAdjustedRound | data/tushare_sync.py:335-429 | The same for a range without a shard to resume. |
| SymbolSync.StopsExactlyWhen | data/tushare_sync.py:341-396 | The call stops at a symbol exactly when its dataset is adjusted, both tables came back and one has an unusable date. |
| TasksDb.Tasks.ClaimNextPending | backtest/tasks_db.py:155-175 | Claims a pending row with the least creation time, or nothing when none is pending; no other row changes. |
| TasksDb.Tasks.ListTasks | backtest/tasks_db.py:134-147 | The newest rows of the status, newest first, up to the limit. |
| TasksDb.Tasks.MarkTask | backtest/tasks_db.py:191-213 | The terminal writes, field by field and regardless of the status before; no other row changes. |
| TasksDb.Tasks.DeleteTask | backtest/tasks_db.py:216-221 | Removes exactly the row and tells whether there was one. |
| TasksDb.Tasks.ResetRunningToFailed | backtest/tasks_db.py:224-236 | Every running row is failed as interrupted, with its finish time; every other row is untouched. |
| TaskRunner.Scheduler.RequestCancel | backtest/scheduler.py:75-82 | Sets the flag of a registered task and nothing else. |
| TaskRunner.Scheduler.PollOnce | backtest/scheduler.py:102-117 | Claims the oldest pending task, registers a fresh flag and submits it once; nothing is submitted when the row is deleted before it is read back. |
| TaskRunner.Scheduler.ResetOnStartup | backtest/scheduler.py:85-89 | The startup turns the table's running rows to failed. |
| TaskRunner.PercentRoundsDown | backtest/scheduler.py:134-134 | The reported percentage is done * 100 over total rounded down, 0 for no symbols, and at most 100 for at most all of them. |
| TaskRunner.ConsumeOne | backtest/scheduler.py:126-136 | A consumer round stops exactly when the task has ended or is gone, and otherwise writes the report it got and a heartbeat. |
| TaskRunner.Scheduler.SweepStale | backtest/scheduler.py:138-160 | The loop applies each listed row's verdict as it was listed. |
| TaskRunner.SweepMeaning | backtest/scheduler.py:145-159 | Exactly the listed tasks with a heartbeat older than 300 s are failed; all else is untouched. |
| TaskRunner.SweptExactlyWhen | backtest/scheduler.py:145-159 | A listed task is failed exactly when its heartbeat is more than 300 seconds old, with the whole seconds since it in the error. |
| TaskRunner.SweepDropsFlags | backtest/scheduler.py:160-160 | Exactly their flags are dropped. |
| TaskRunner.RunReplayWorker | backtest/worker.py:97-153 | The row afterwards, case by case; one terminal write gets through, or none exactly when the row is gone or the except branch's own write raises. |
| TaskRunner.RunEndsAs | backtest/worker.py:97-153 | A running row becomes a success with the report exactly when every step and the write work, and cancelled exactly when the replay is aborted after all earlier steps worked and the last write works; missing prices and an unknown strategy fail with errors of their own, any first exception with its code. |
| TaskProtocol.RunKeepsInvariant | backtest/scheduler.py:91-160 | The protocol invariant holds in every state of every interleaving. |
| TaskGuarantees.EveryRunIsSound | backtest/tasks_db.py:155-160 | No task is claimed, submitted or marked by a worker twice; running rows have a heartbeat and no finish time, successes a report, cancelled tasks a request. |
| TaskGuarantees.ClaimsAreInOrder | backtest/tasks_db.py:164-169 | While the clock does not run back, tasks are claimed in creation order, whichever scheduler claims. |
| TaskGuarantees.StatusNeverGoesBack | backtest/tasks_db.py:31-32 | Statuses move only from pending through running to ended, and deleted ids stay gone. |
| TaskGuarantees.StatusIsFinalExactlyWhen | backtest/tasks_db.py:191-213 | An ended status is final in all continuations exactly when no worker of it is on its way and no sweep is about to overwrite it. |
| TaskGuarantees.ProgressIsFinalExactlyWhen | backtest/scheduler.py:126-136 | Full progress of an ended task is final exactly when its consumer is not between check and write. |
| TaskGuarantees.OnlyNewClaimsRunAfterStartup | backtest/scheduler.py:85-89 | A start leaves nothing running and pending rows unchanged, and afterwards only tasks claimed later run. |
| TaskGuarantees.PollIsARun | backtest/scheduler.py:102-117 | A poll is a claim and a submission that leaves a worker and a consumer waiting, or a dropped claim when the row is deleted. |
| TaskGuarantees.RestartIsARun | backtest/scheduler.py:85-89 | A crash and a restart may come at any time; they leave nothing in hand, no consumer, sweep or flag, and every running row failed as interrupted. |
| TaskGuarantees.CancelTakesEffect | backtest/scheduler.py:75-82 | A cancel request lets the worker of a registered task end cancelled, and changes nothing for any other task. |
| TaskGuarantees.WorkerRunIsARun | backtest/worker.py:97-153 | A whole worker run is at most two protocol steps with exactly the write that got through. |
| TaskGuarantees.SweepIsARun | backtest/scheduler.py:145-160 | A whole sweep is a listing step and one step per listed task. |
| TaskGuarantees.ConsumerRoundIsARun | backtest/scheduler.py:126-136 | A consumer round is a status check followed by its two writes, or by none. |
| TaskGuarantees.SweptThenSucceeds | backtest/scheduler.py:113-117 | A reachable run in which a task queued in the pool is swept to failed and then marked a success. |
| TaskGuarantees.SuccessBelowFullProgress | backtest/scheduler.py:127-135 | A reachable run ending in a success with progress 50. |

## Left out

- `by=date` and `by=single` syncs, `no_date_filter`, the merged multi-index file and the column renames: easier variants of what is modelled.
- `_classify_exc`'s keyword search: the kind of an exception is an input.
- Floating-point rounding, text and time-zone date formats, NaN other than a missing factor or date, and stored shards whose dates do not parse.
- ShardSync.MergeMeaning: rows of equal date inside one frame are sorted stably; the library's order among them is unspecified.
- TokenBucket.RateLimiter.Acquire: one caller at a time, and amounts are not negative.
- GuardedFetch.FetchWithGuard: nobody else uses the breaker during the call; for the wait alone `RefusedAfterTheWait` has them. The bucket holds at least one token, without which the code would wait for ever, and the breaker admits at least one probe.
- TaskGuarantees.ClaimsAreInOrder: assumes no task is created with a time before one already claimed, as a wall clock could do.
- TasksDb.Tasks.CreateTask: a new id is assumed never to have been used, as with random UUIDs.
- TaskRunner.RunReplayWorker: a write that raises is taken not to have changed the row.
- `reset()` of limiter and breaker (test support), the `on_open` and `on_close` callbacks, the decorators, and the constructor's argument errors.
- In the interleaved model a progress write may carry any number; heartbeats that do not parse do not occur.
- `fetch_trade_days`, monthly and pattern statistics, `_iter_trading_days`, `_recommend_min_rr`, report text and logging.
- `backtest/mock_broker.py`, `broker/`, `broadcast/`, strategies, configuration and the remaining scripts.
