# Point-in-time research engine and scoring arithmetic: a Dafny model

This project models the parts of `openfundscore` whose correctness is not visible in any one function, and proves what they are for:

- the **walk-forward engine**: revision chains with publication and knowledge times, the fold loop that resolves what was known at a decision instant, freezes a selection and only then joins outcomes, and its numeric diagnostics (ranks, Spearman correlation, Jaccard turnover, leave-one-component-out sensitivity, drawdown and recovery, pooled summary);
- the **evidence overlap sweep**: an event sweep over two lazily cleaned binary heaps, proved equal to the quadratic definition;
- **robust normalisation and fixed-weight aggregation**: interpolated quantiles, IQR/MAD winsorising, midrank scores, two levels of fixed weights, and the manager score producer against its independent audit;
- **calendar windows**: month subtraction with month-end clamping, complete months, day capacity;
- the **stateful pieces**: the append-only bitemporal store, the local rate limiter, the paginated fetch loop, the percent-decoding fixpoint of request paths.

`dafny verify dfyconfig.toml` checks the whole project. Loops and updating objects of the source are methods and classes proved against functions; the theorems are lemmas about those functions.

## Conventions

- Instants are integers (UTC microseconds); `IsoText` derives that view from calendar fields and proves that the stored text orders the same way. Dates are Gregorian year/month/day, or their day numbers.
- Floats are exact reals. `round` is exact half-even rounding. The Spearman correlation is kept as numerator and two scales, because its denominator is the square root of their product: "at most 1" reads `numerator^2 <= priorScale * currentScale`.
- Identifiers are text ordered by code point. Digests and other opaque content are not inspected.
- Raising is a `Result`, an `Option` or an outcome constructor. Python's `sorted` is a function specified by order and multiset (`Ordering`); `heapq` is a verified binary heap (`MinHeap`).
- A score callback is a function of the scoring view; it may raise, return nothing or return anything.

## What turned out false, unreachable or conditional

- **The audit does not accept every producer result.** A role-weighted tenure may hold any share strictly between 0 and 1, but the aggregate factor is rounded to six digits and the audit wants it positive. The condition can be read off the dossier before anything is scored: list the tenures of the target that have attributable evidence, and take the mean of their shares (`CreditedMean`). `ManagerAudit.ScoreThenAudit` runs the producer and then the audit and proves that a scorable dossier passes if and only if that mean exceeds 0.0000005; `ManagerAudit.TinyShareIsRefused` runs both on a valid dossier with the single share 0.0000004, which is scored and then refused.
- **Three error branches never fire.** The final "complete acyclic chain" check of the revision groups (walk_forward.py:1098-1103 and its two siblings), the in-fold `score_audit_conflict` failure (walk_forward.py:2305-2313) and the final count mismatch of the page loop (official_providers.py:2093-2098). The branches are still in the model; their results are proved impossible.
- In `resolve_share_class` the two wrong-type branches cannot be taken either, since a query only returns the type it was asked for; that method leaves them out.

## Model

| member | source | states |
|---|---|---|
| `OverlapSweep.FirstCrossScopeOverlap` | src/openfundscore/evidence_usage.py:186-237 | returns the lexicographically least pair that double-counts, and none exactly when no pair of entries on opposite sides shares an identity over intersecting windows |
| `OverlapSweep.FileEvents` | src/openfundscore/evidence_usage.py:190-214 | each identity's group holds exactly the opening and closing events of the eligible entries that carry it |
| `OverlapSweep.CollisionsByGroup` | src/openfundscore/evidence_usage.py:205-214 | a pair collides globally exactly when it collides inside the group of some identity, in either order |
| `OverlapSweep.CollisionMeaning` | src/openfundscore/evidence_usage.py:190-214 | a collision is one raw current-fund fact of a fund component and of a tenure component of the manager, with one lineage, series or evidence in common and a common day |
| `OverlapSweep.SweepGroup` | src/openfundscore/evidence_usage.py:217-236 | after one group the running best is still a real collision and is at most every collision of that group |
| `OverlapSweep.HandleEvent` | src/openfundscore/evidence_usage.py:220-236 | one event keeps both active sets equal to the open windows, both heaps covering them, and every pair of opened colliding windows bounded by the running best |
| `OverlapSweep.Meet` | src/openfundscore/evidence_usage.py:221-232 | an opening window is compared with the least open window of the other side, which accounts for all open windows it meets |
| `OverlapSweep.DropClosed` | src/openfundscore/evidence_usage.py:223-224 | lazy deletion leaves every active index in the heap and puts the least active one on top |
| `OverlapSweep.MeetingWindowIsOpen` | src/openfundscore/evidence_usage.py:213-226 | in sorted event order (starts before ends at one day) a window that meets the one being opened and was opened before it has not been closed yet |
| `OverlapSweep.OpenWindowMeets` | src/openfundscore/evidence_usage.py:213-226 | an open window of the other side does intersect the one being opened |
| `MinHeap.Heap.Push` | src/openfundscore/evidence_usage.py:234 | adds one element to the multiset and keeps the binary heap order |
| `MinHeap.Heap.Pop` | src/openfundscore/evidence_usage.py:223-224 | removes one occurrence of the root, which is the least element, and keeps the heap order |
| `MinHeap.RootIsLeast` | src/openfundscore/evidence_usage.py:225-226 | in a heap-ordered list the first element is at most every element |
| `EvidenceUsage.ValidateScoreEvidenceUsage` | src/openfundscore/evidence_usage.py:240-295 | a ledger is accepted exactly when it is small enough, no entry is faulty and no two entries share a raw fact over a common day; otherwise the error names the first faulty entry or the least double-counting pair |
| `EvidenceUsage.FirstFault` | src/openfundscore/evidence_usage.py:250-281 | the validation loop finds the first entry that is unknown, repeated or has a faulty window, together with that fault |
| `EvidenceUsage.KnownComponents` | src/openfundscore/evidence_usage.py:24-57 | the known components are those of the fund, the tenure components of the manager and its five others |
| `EvidenceUsage.AcceptedMonthsAreComplete` | src/openfundscore/evidence_usage.py:122-183 | whichever time basis an entry declares, acceptance means its declared months are the complete calendar months between its endpoints |
| `EvidenceUsage.AcceptedBasis` | src/openfundscore/evidence_usage.py:122-183 | which entries each time basis accepts: the observation's own day, exactly that many calendar months before it, or complete months that end by it |
| `EvidenceUsage.MomentOrder` | src/openfundscore/evidence_usage.py:122-140 | comparing a ledger instant by day and then time of day is comparing microseconds |
| `EvidenceUsage.DoubleCountsIsCollision` | src/openfundscore/evidence_usage.py:186-237 | on ordered windows, sharing a calendar day is the same as the day-number windows meeting |
| `Calendar.SubtractMonths` | src/openfundscore/window_semantics.py:9-14 | the result is the latest date of the target month not past the original day, and exists exactly when that month lies in years 1 to 9999 |
| `Calendar.MonthWindowGalois` | src/openfundscore/window_semantics.py:9-24 | m <= complete months from s to e if and only if s <= e shifted back m months |
| `Calendar.MonthWindowRoundTrip` | src/openfundscore/window_semantics.py:9-24 | a window built by shifting back m months is counted as exactly m complete months, despite clamping |
| `Calendar.OrdinalOrder` | src/openfundscore/formula_cross_fields.py:228-230 | day numbers order dates as dates compare, and determine them |
| `Calendar.OrdinalByFormula` | src/openfundscore/window_semantics.py:9-14 | month lengths and leap years add up to the closed day-number formula with (153 m + 2) / 5 days before the m-th month from March |
| `Calendar.CalendarDaysBounds` | src/openfundscore/formula_cross_fields.py:221-230 | an m-month window spans between 28m and 31m days, across leap years and clamped month ends |
| `CrossFields.PeriodSampleCapacity` | src/openfundscore/formula_cross_fields.py:256-284 | for m > 0 the period rule accepts every sample size from m to 28m+1 and refuses every one below m or above 31m+1 |
| `CrossFields.NegativeDaysFitWindow` | src/openfundscore/formula_cross_fields.py:256-294 | an accepted negative-day count is an integer, at most the sample size, which fits the window |
| `CrossFields.DurationRules` | src/openfundscore/formula_cross_fields.py:256-307 | a recovery is accepted exactly up to its window in months, an event exactly up to the days of its window, point-in-time rules exactly without a window |
| `Revisions.ValidateRevisionGroup` | src/openfundscore/walk_forward.py:1053-1103 | accepts a group exactly when it is one chain strictly increasing in knowledge time; says when each error is raised; the last error never is |
| `Revisions.LinkChildren` | src/openfundscore/walk_forward.py:1061-1085 | files each revision under its parent exactly when every parent exists and precedes its child, and otherwise exhibits the offending revision |
| `Revisions.WalkChain` | src/openfundscore/walk_forward.py:1092-1103 | following first children from the single root visits every revision of an unbranched group, which is then one chain |
| `Revisions.OneChainGivesConditions` | src/openfundscore/walk_forward.py:1053-1103 | conversely, a chain has distinct revisions, preceding parents, one root and no branch |
| `Revisions.ChainIncreases` | src/openfundscore/walk_forward.py:1076-1084 | along a chain knowledge time strictly increases between any two places, and publication never decreases |
| `Revisions.IndexSize` | src/openfundscore/walk_forward.py:1054-1060 | the revision dictionary is as long as the group exactly when no revision id repeats |
| `Ordering.SortedUnique` | src/openfundscore/walk_forward.py:2391 | two arrangements of the same elements sorted by a key without ties are equal, so no result depends on how a sort is done |
| `Ordering.SortByCorrect` | src/openfundscore/walk_forward.py:2391 | sorting yields the same elements in key order |
| `Records.ValidateRevisionGroups` | src/openfundscore/walk_forward.py:1043-1103 | accepts a collection exactly when every group of equal economic key is one chain |
| `Records.GroupByKey` | src/openfundscore/walk_forward.py:1046-1052 | groups hold the records of their key in input order, and keys are listed once |
| `Records.ResolveRevisions` | src/openfundscore/walk_forward.py:1106-1126 | keeps exactly the records that no record of the same group supersedes, each once |
| `Records.KnownIsPrefix` | src/openfundscore/walk_forward.py:2148-2155 | for any decision the known revisions of a chain are a prefix of it |
| `Records.ResolutionKeepsLatest` | src/openfundscore/walk_forward.py:1106-1126 | on validated records, the resolved revision of a group is exactly the one with the latest knowledge time among those known and in force |
| `Records.ResolutionIsTotal` | src/openfundscore/walk_forward.py:1189-1208 | a group with anything visible resolves to exactly one record |
| `Lifecycle.ValidateCandidateLifecycle` | src/openfundscore/walk_forward.py:212-314 | accepts exactly the sorted, duplicate-free, chained lifecycles whose distinct effective ranges are pairwise disjoint |
| `Lifecycle.AcceptedLifecycleMeaning` | src/openfundscore/walk_forward.py:156-235 | an accepted lifecycle is ordered by start, publication and knowledge; ranges are nonempty, and a successor is named exactly by merged and transformed intervals |
| `Lifecycle.RangesOverlap` | src/openfundscore/walk_forward.py:304-314 | comparing only neighbours in start order decides whether any two distinct ranges share an instant |
| `Lifecycle.SweepRanges` | src/openfundscore/walk_forward.py:304-314 | the neighbour sweep over sorted distinct ranges reports an overlap exactly when two of them are not disjoint |
| `Lifecycle.LifecycleAt` | src/openfundscore/walk_forward.py:1211-1245 | equals the set-based resolution of the intervals known at and covering the decision |
| `Lifecycle.LifecycleIsLatestKnownCover` | src/openfundscore/walk_forward.py:1211-1245 | for an accepted candidate the status is unknown only if no known interval covers the decision, and otherwise is the status of the covering revision learned last |
| `WalkForwardEngine.RunWalkForward` | src/openfundscore/walk_forward.py:2059-2480 | rejects exactly the unacceptable inputs; otherwise aborts with the specified error or yields one report a fold, whose frozen part is the specified run and whose trails, diagnostics and evaluation are made from it, with a summary pooling the folds |
| `WalkForwardEngine.RunOneFold` | src/openfundscore/walk_forward.py:2099-2459 | one fold of the loop computes the specified next state from the state carried over; what it carries on is pinned by `RunContinuity.FoldsAreCompared` |
| `RunContinuity.FoldsAreCompared` | src/openfundscore/walk_forward.py:2416-2417 | in every completed run the first report has no prior fold, and the stability and turnover of every later one compare the scores of the common strategies, and the selections, of that report and the one before it |
| `RunContinuity.MeanTurnoverMeaning` | src/openfundscore/walk_forward.py:2466-2468 | the summary averages the turnovers of all folds but the first, and has none for a single fold |
| `RunContinuity.OneContentPerAudit` | src/openfundscore/walk_forward.py:2289-2300 | with a callback, two audits of one strategy with one audit id and revision are equal, in whichever folds of the run they were given |
| `RunContinuity.ConflictMeaning` | src/openfundscore/walk_forward.py:2289-2300 | a run is aborted for an audit conflict only when an audit has the identity of an audit of an earlier fold and other content |
| `RunContinuity.PrecomputedNeverConflict` | src/openfundscore/walk_forward.py:2317-2377 | a run on precomputed scores is never aborted for an audit conflict |
| `RunContinuity.AbortMeaning` | src/openfundscore/walk_forward.py:2099-2300 | a run is aborted at its first fold that no candidate had begun by, or in which some strategy's verdict ends the run or its audit contradicts an earlier one |
| `RunContinuity.TrailMeaning` | src/openfundscore/walk_forward.py:2110-2157 | the audit trails in plain comparisons: published and learned by the decision, and for snapshots in force at it and of an active strategy |
| `WalkForwardEngine.ScreenFold` | src/openfundscore/walk_forward.py:2125-2390 | the strategy loop computes the specified tally, or stops at the first run-aborting error |
| `WalkForwardEngine.JudgeStrategy` | src/openfundscore/walk_forward.py:2126-2387 | the verdict computed from record lists is the one specified over sets of known records |
| `WalkForwardEngine.ScoreFromSource` | src/openfundscore/walk_forward.py:2214-2387 | callback and precomputed scores are judged by the same provider and time checks |
| `WalkForwardEngine.Representatives` | src/openfundscore/walk_forward.py:2084-2091 | each strategy is represented by its share class with the least identifier |
| `WalkForwardEngine.UniverseByRepresentative` | src/openfundscore/walk_forward.py:2100-2104 | selecting strategies by their representative's inception selects those of any of their share classes |
| `WalkForwardEngine.RepresentativeLifecycle` | src/openfundscore/walk_forward.py:2126 | the representative's known covering intervals are all the strategy's known covering intervals |
| `WalkForwardEngine.ValidateInputs` | src/openfundscore/walk_forward.py:1899-2056 | accepts exactly the accepted inputs |
| `WalkForwardEngine.RunFolds` | src/openfundscore/walk_forward.py:2099-2459 | the fold loop realises the specified run, and delivers with each frozen part its audit trails, its sensitivity diagnostics and the evaluation of its selection |
| `WalkForwardEngine.CollectTrails` | src/openfundscore/walk_forward.py:2110-2157 | the trails of a fold hold exactly the known snapshots in force of its active strategies, superseded revisions included, and every known lifecycle interval of its strategies |
| `WalkForwardEngine.SelectedAreScored` | src/openfundscore/walk_forward.py:2391-2402 | every selected strategy has a score in the dictionary the diagnostics start from, so they never fail on a missing key |
| `RunReport.Summarize` | src/openfundscore/walk_forward.py:2418-2480 | the loops pool period returns and relative returns fold after fold; mean, interval, turnover mean and wealth are those of the pooled series |
| `RunReport.SummaryMeaning` | src/openfundscore/walk_forward.py:2461-2480 | mean and interval are about all relative returns of all folds, the wealth curve about all their periods |
| `RunReport.PoolingKeepsAll` | src/openfundscore/walk_forward.py:2421-2422 | pooling keeps every value of every fold and adds none |
| `RunReport.RelativeIsStretch` | src/openfundscore/walk_forward.py:2421-2422 | the relative returns of each fold are a stretch of the pooled ones |
| `RunReport.PoolingDeepensDrawdown` | src/openfundscore/walk_forward.py:2461-2480 | the pooled drawdown is at least as deep as that of any pooled fold, and at most a total loss |
| `DeliveredReports.ResultIsDetermined` | src/openfundscore/walk_forward.py:2059-2480 | the specification leaves one result: two results of a run have equal reports and summary, or the same error |
| `DeliveredReports.DeliveredReportsAgree` | src/openfundscore/walk_forward.py:2059-2480 | no lookahead for the caller: two completed runs that agree on what was known by fold k's decision and on the outcomes of the windows of folds 0 to k deliver equal reports for those folds, evaluation and diagnostics included |
| `DeliveredReports.TrailHoldsTheEvidence` | src/openfundscore/walk_forward.py:2148-2157 | every snapshot a scored strategy rests on is in the audit trail of its fold |
| `DeliveredReports.DeliveredStatus` | src/openfundscore/walk_forward.py:2418-2420 | the status of each fold says whether none, all or some of its selected strategies have a supplied outcome for its window |
| `DeliveredReports.DeliveredDiagnostics` | src/openfundscore/walk_forward.py:2397-2402 | the diagnostics of each fold start from its own ranks and have one scenario for every component its audits name, in order |
| `DeliveredReports.SummaryDrawdownIsDeepest` | src/openfundscore/walk_forward.py:2461-2480 | in every completed run the drawdown of the summary is at least as deep as that of every fold |
| `Eligibility.EligibleIff` | src/openfundscore/walk_forward.py:2126-2390 | with precomputed scores a strategy is scored if and only if it is active by the interval learned last, its latest known evidence is unambiguous and complete, and exactly one known score in force comes from the same provider snapshot and is no older than that evidence |
| `Eligibility.EligibleByCallbackIff` | src/openfundscore/walk_forward.py:2126-2316 | with a callback, if and only if the same holds of the score it returns for that evidence and the score was known by the decision |
| `Eligibility.LifecycleFailures` | src/openfundscore/walk_forward.py:2126-2147 | a strategy is set aside as unknown exactly when no known interval covers the decision, and as terminal exactly when the interval learned last is not active |
| `Eligibility.MissingMeansNothingKnown` | src/openfundscore/walk_forward.py:2148-2179 | a domain is missing exactly when no snapshot of it is known and in force, however many revisions there are |
| `Eligibility.NoGapIsComplete` | src/openfundscore/walk_forward.py:2171-2213 | the sequence of evidence checks passes exactly when every required domain is present, one provider snapshot supplies all, nothing is unknown and the strategy is available |
| `Eligibility.TipsAreLatest` | src/openfundscore/walk_forward.py:2148-2157 | the unsuperseded records among those known are exactly the latest known revision of each record in force |
| `Eligibility.WhatIsKnown` | src/openfundscore/walk_forward.py:2148-2155 | known means published and learned by the decision; in force means from the first instant to just before the last |
| `Eligibility.EvidenceFailures` | src/openfundscore/walk_forward.py:2158-2213 | which failure an active strategy gets for its evidence: conflict, missing domain, provider conflict, unknown value, unavailable, each exactly when the checks before it pass |
| `Eligibility.ScoreFailures` | src/openfundscore/walk_forward.py:2317-2377 | which failure a precomputed score gets: none, several, another provider, older than the evidence |
| `Eligibility.ReplyFailures` | src/openfundscore/walk_forward.py:2214-2288 | which answers of a callback end the run and which are set aside, and why |
| `Eligibility.AuditOfRecord` | src/openfundscore/walk_forward.py:608-624 | a precomputed record is audited with its own total, components, provider and times |
| `Eligibility.AcceptedRecords` | src/openfundscore/walk_forward.py:332-606 | accepted snapshots and scores have times in order, nonempty ranges, known strategies and no self-reference |
| `NoLookahead.NoLookahead` | src/openfundscore/walk_forward.py:2099-2417 | two accepted runs that agree on everything incepted and known by fold k's decision are in the same state after every fold up to k, or abort alike |
| `NoLookahead.SameReports` | src/openfundscore/walk_forward.py:2099-2417 | and so give identical reports (scores, failures, selection, stability, turnover, audits) for folds 0 to k |
| `NoLookahead.RunAppends` | src/openfundscore/walk_forward.py:2424-2459 | a run only appends reports, one a fold, and never revises an earlier one |
| `NoLookahead.FoldsInOrder` | src/openfundscore/walk_forward.py:628-733 | accepted folds decide after training and validation, embargo before their outcomes, and have outcome windows that follow one another |
| `NoLookahead.OutcomesDoNotMatter` | src/openfundscore/walk_forward.py:2418-2420 | replacing all outcomes changes nothing that is frozen |
| `NoLookahead.OrderDoesNotMatter` | src/openfundscore/walk_forward.py:2126-2163 | nor does permuting candidates, snapshots and scores |
| `NoLookahead.ShareClassesDoNotMatter` | src/openfundscore/walk_forward.py:2084-2104 | nor does adding a share class of a known strategy |
| `FoldGuarantees.ScreeningIsComplete` | src/openfundscore/walk_forward.py:2118-2390 | each strategy is scored or failed, never both; the in-fold audit conflict cannot occur; retained evidence is point-in-time |
| `FoldGuarantees.EveryReportIsSound` | src/openfundscore/walk_forward.py:2099-2459 | over any run every report accounts for each strategy of its universe exactly once, by that strategy's own verdict, rests on evidence known and in force at its decision, and selects best first |
| `FoldGuarantees.ScreeningReflectsVerdicts` | src/openfundscore/walk_forward.py:2118-2390 | what a fold records of a strategy is its own verdict, and the terminal count is the number of terminal failures |
| `FoldGuarantees.VerdictIsSound` | src/openfundscore/walk_forward.py:1026-1034 | an eligible score was known by the decision, belongs to the strategy and does not predate its evidence |
| `FoldGuarantees.CollectKeeps` | src/openfundscore/walk_forward.py:2289-2390 | every turn of the strategy loop keeps the accounting, the evidence and the audit trail invariants |
| `FoldGuarantees.SelectionIsBestFirst` | src/openfundscore/walk_forward.py:2391-2393 | the selection has the requested size, nothing left out beats anything taken, and ties go to the smaller identifier |
| `FoldGuarantees.SelectionMeaning` | src/openfundscore/walk_forward.py:2391-2393 | the cut in plain comparisons: descending scores, equal scores by ascending identifier, within the selection and across the cut |
| `Outcomes.EvaluateOutcomes` | src/openfundscore/walk_forward.py:1824-1887 | joins to each selected strategy its outcome of the fold's own window; relative returns, their mean and interval, portfolio, drawdown, recovery and status follow the specification |
| `Outcomes.EvaluationIsDetermined` | src/openfundscore/walk_forward.py:1824-1887 | fold, selection and outcomes determine the whole evaluation |
| `Outcomes.OtherWindowsDoNotMatter` | src/openfundscore/walk_forward.py:1829-1842 | outcomes of other windows, and the order of all of them, do not enter it |
| `Outcomes.IntervalIsDefined` | src/openfundscore/walk_forward.py:1256-1291 | the radicand of the standard error is never negative, and is zero exactly when all relative returns are equal |
| `Outcomes.UsableCounts` | src/openfundscore/walk_forward.py:1829-1842 | the join is complete exactly when every selected strategy has an outcome for that window, and uses nothing else |
| `Outcomes.Compound` | src/openfundscore/walk_forward.py:1248-1253 | compounding without a curve equals the final wealth of the curve less the starting 1 |
| `Outcomes.TotalReturnIsGrowth` | src/openfundscore/walk_forward.py:1248-1253 | a total return is the product of one plus each period's return, less one |
| `Outcomes.ReturnsMultiply` | src/openfundscore/walk_forward.py:1248-1253 | one plus the total of two series in a row is the product of one plus each total |
| `Outcomes.OnePeriodReturn` | src/openfundscore/walk_forward.py:1248-1253 | over one period the total return is that period's return |
| `Outcomes.RelativeReturnMeaning` | src/openfundscore/walk_forward.py:1843-1850 | a relative return is own growth less the peers' growth, and never negative for a strategy that loses no period to its peers |
| `Outcomes.StatusMeaning` | src/openfundscore/walk_forward.py:1851-1880 | insufficient, evaluated and partial say exactly whether none, all or some of the selected strategies have an outcome |
| `Outcomes.UsableInOrder` | src/openfundscore/walk_forward.py:1829-1842 | a complete join lists the outcomes in the order of selection |
| `Outcomes.PortfolioMeaning` | src/openfundscore/walk_forward.py:1863-1873 | the portfolio return of a period times the number of strategies is the sum of theirs |
| `Outcomes.IntervalMeaning` | src/openfundscore/walk_forward.py:1256-1291 | the interval is centred on the mean; its squared error is the sum of squared distances from it over n - 1, over n |
| `Outcomes.PortfolioIsSimple` | src/openfundscore/walk_forward.py:1863-1873 | averaging accepted returns gives returns in [-1, 1], so the drawdown guarantees apply to the portfolio |
| `WealthCurve.WealthMetrics` | src/openfundscore/walk_forward.py:1294-1340 | the curve starts at 1 and each period adds its return times the wealth it starts from; the drawdown is the deepest fall from a running peak, at the first period that reaches it; a reported recovery is the first later period regaining that peak |
| `WealthCurve.DeepestDrawdown` | src/openfundscore/walk_forward.py:1300-1317 | the single pass finds the first deepest drawdown and the peak before it |
| `WealthCurve.DrawdownMeaning` | src/openfundscore/walk_forward.py:1300-1317 | a drawdown is the fall from the highest wealth so far, as a fraction of it |
| `WealthCurve.RecoveryMeaning` | src/openfundscore/walk_forward.py:1321-1340 | recovery is the first later period at least as high as everything up to the trough, and unrecovered means there is none |
| `WealthCurve.DrawdownIsWorstChange` | src/openfundscore/walk_forward.py:1294-1340 | for returns in [-1, 1] it equals the minimum of curve[j]/curve[i] - 1 over all i <= j with curve[i] > 0, and lies in [-1, 0] |
| `WealthCurve.NoDrawdownIffNonDecreasing` | src/openfundscore/walk_forward.py:1318-1320 | it is 0 exactly when wealth never falls |
| `WealthCurve.DrawdownOnlyDeepens` | src/openfundscore/walk_forward.py:1300-1317 | a longer series keeps the earlier wealth curve; its drawdown is at least as deep, and while it is not deeper its trough stays where it was |
| `WealthCurve.StretchFallsLess` | src/openfundscore/walk_forward.py:1294-1340 | a series falls at least as deeply as any stretch of it does on its own |
| `Ranking.Ranks` | src/openfundscore/walk_forward.py:1343-1357 | each identifier gets the number strictly above it plus half of one more than the number tied with it |
| `Ranking.RanksSum` | src/openfundscore/walk_forward.py:1343-1357 | ranks of n values sum to n(n+1)/2, ties or not |
| `Ranking.RanksReflectValues` | src/openfundscore/walk_forward.py:1343-1357 | a higher value has the smaller rank and equal ranks mean equal values |
| `Ranking.SameOrderSameRanks` | src/openfundscore/walk_forward.py:1343-1357 | two score lists have equal ranks exactly when they order their positions identically |
| `Stability.ScoreStability` | src/openfundscore/walk_forward.py:1360-1459 | computes the specified metric over the common strategies in identifier order |
| `Stability.CauchySchwarz` | src/openfundscore/walk_forward.py:1401-1443 | the squared product sum is at most the product of the two square sums |
| `Stability.SpearmanInRange` | src/openfundscore/walk_forward.py:1401-1459 | a reported correlation has positive scales and lies in [-1, 1] |
| `Stability.VariationMeansSomeDifference` | src/openfundscore/walk_forward.py:1434-1450 | insufficient variation is reported exactly when one fold ties every common strategy |
| `Stability.PerfectCorrelation` | src/openfundscore/walk_forward.py:1401-1459 | the correlation is 1 exactly when both folds order the common strategies identically |
| `Stability.SpearmanMeaning` | src/openfundscore/walk_forward.py:1401-1459 | numerator and scales are sums of products of rank gaps, ranks counted as positions above plus the middle of those level, gaps taken from (n + 1) / 2 |
| `Stability.TurnoverIsDistance` | src/openfundscore/walk_forward.py:1462-1491 | turnover is symmetric, in [0, 1], 0 exactly for equal selections and 1 exactly for disjoint non-empty ones |
| `Stability.TurnoverMeaning` | src/openfundscore/walk_forward.py:1462-1491 | turnover times the size of the union is the number of strategies the two selections do not share |
| `Sensitivity.SensitivityDiagnostics` | src/openfundscore/walk_forward.py:1647-1750 | one scenario for every component name in order, each the specified one, beside the baseline ranks |
| `Sensitivity.Diagnose` | src/openfundscore/walk_forward.py:1659-1743 | a component not known for exactly the scored strategies is reported as insufficient coverage; otherwise selection, ranks, turnover, correlation and mean change are those of the scores without it |
| `Sensitivity.ScenarioMeaning` | src/openfundscore/walk_forward.py:1686-1743 | a scenario is about the scores less the last contribution of that name; it selects their best, ranks them by counting, and compares selection, order and mean with the frozen ones |
| `Sensitivity.CorrelationOfSameKeys` | src/openfundscore/walk_forward.py:1735-1736 | its correlation is that of the frozen scores with the scores without the component, over all strategies |
| `Sensitivity.DeltaMeaning` | src/openfundscore/walk_forward.py:1706-1741 | its mean change is the mean of the new selection without the component less the mean of the frozen selection with it |
| `Sensitivity.NothingOfTheName` | src/openfundscore/walk_forward.py:1494-1495 | a strategy without a component of that name contributes nothing known |
| `Sensitivity.BestIsOptimal` | src/openfundscore/walk_forward.py:1700-1705 | no list of as many different strategies has a larger total score than the selection |
| `Sensitivity.MeanDeltaBounds` | src/openfundscore/walk_forward.py:1706-1741 | leaving a component out lowers the mean selected score by at most its mean contribution to the frozen selection and by at least its mean contribution to the perturbed one |
| `Sensitivity.UniformComponentChangesNothing` | src/openfundscore/walk_forward.py:1692-1743 | a component worth the same to every strategy changes no selection and no rank, has turnover 0 and full rank agreement, and moves the mean by exactly that amount |
| `Sensitivity.FrozenSelectionIsBest` | src/openfundscore/walk_forward.py:2391-2402 | the selection a fold freezes from its score list is the best of the dictionary the diagnostics start from |
| `Normalization.NormalizeMetric` | src/openfundscore/category_metrics.py:1693-1930 | says which peer counts are refused, and otherwise that the loops compute the specified score |
| `Normalization.QuantileIndex` | src/openfundscore/category_metrics.py:1620-1643 | for every sample and probability both quantile indices are within the sample |
| `Normalization.FindBounds` | src/openfundscore/category_metrics.py:1842-1894 | the branches on spread and median deviation give the specified winsorising bounds |
| `NormalizationMeaning.BoundsAreFences` | src/openfundscore/category_metrics.py:1842-1894 | for samples of every size the bounds are the quartiles by rank plus and minus 1.5 times their distance, or the median plus and minus 3 times 1.4826 median deviations, or the median |
| `NormalizationMeaning.AdjustedMeaning` | src/openfundscore/category_metrics.py:1895-1901 | a raw value within the fences is kept, and otherwise moved to the fence it passed |
| `NormalizationMeaning.ScoreMeaning` | src/openfundscore/category_metrics.py:1902-1930 | the score in counts of the unclamped sample, for raw values between, below and above the fences and in both directions |
| `NormalizationMeaning.PlainMidrank` | src/openfundscore/category_metrics.py:1902-1930 | when the raw value and all peers are within the fences the score is the plain midrank of the sample |
| `Normalization.CountAround` | src/openfundscore/category_metrics.py:1909-1910 | the two sums count the peers strictly below and those equal |
| `NormalizationLaws.QuantileReflects` | src/openfundscore/category_metrics.py:1620-1643 | the p-quantile of the negated sample is minus the (1-p)-quantile |
| `NormalizationLaws.QuantileWithin` | src/openfundscore/category_metrics.py:1620-1643 | a quantile lies between the least and the greatest value |
| `NormalizationLaws.BoundsReflect` | src/openfundscore/category_metrics.py:1842-1894 | negating the sample mirrors the bounds and keeps the method |
| `NormalizationLaws.BoundsOrdered` | src/openfundscore/category_metrics.py:1842-1894 | the lower bound never exceeds the upper |
| `NormalizationLaws.ScoreInRange` | src/openfundscore/category_metrics.py:1895-1930 | every normalised score lies in [0, 100] |
| `NormalizationLaws.PeerOrderDoesNotMatter` | src/openfundscore/category_metrics.py:1841-1930 | permuting the peers changes nothing |
| `NormalizationLaws.TranslationInvariance` | src/openfundscore/category_metrics.py:1841-1930 | adding one constant to the raw value and all peers leaves the score unchanged |
| `NormalizationLaws.ScoreMonotone` | src/openfundscore/category_metrics.py:1895-1930 | a better raw value never scores worse in the declared direction |
| `NormalizationLaws.NoDispersionIsNeutral` | src/openfundscore/category_metrics.py:1862-1865 | without dispersion every raw value scores exactly 50 |
| `NormalizationLaws.DirectionDuality` | src/openfundscore/category_metrics.py:1841-1930 | negating the raw value and all peers and flipping the direction leaves the score unchanged |
| `Rounding.RoundIsClose` | src/openfundscore/manager_research.py:2018-2026 | rounding moves a value by at most half a unit of the last digit |
| `Rounding.TieGoesToEven` | src/openfundscore/manager_research.py:2018-2026 | halfway between two multiples of the last digit the even one is taken |
| `Rounding.LastDigit` | src/openfundscore/category_metrics.py:2709-2711 | the unit of the last digit is a power of ten |
| `Rounding.RoundMonotone` | src/openfundscore/manager_research.py:2018-2026 | rounding keeps order |
| `Aggregation.ScoreCategory` | src/openfundscore/category_metrics.py:2468-2720 | from raw readings and their peers: succeeds exactly when the peers are admitted, every normalised sample has 5 to 10,000 peers and every dimension aggregates (as it does with all metrics core); an open score exists exactly when history covers 12 months and everything is scored, and is the rounded fixed-weight total; stage and confidence in months, regime coverage and manager confidence; the names of the unscored dimensions |
| `Aggregation.NormalizeSection` | src/openfundscore/category_metrics.py:2573-2631 | the metric loop of a dimension gives every observed reading its peer score, none to performance evidence on under 12 months of history, and fails exactly on a sample of unfit size |
| `Aggregation.MetricMeaning` | src/openfundscore/category_metrics.py:2573-2631 | a reading keeps its identity, weight, importance and state, and is scored against its peers exactly when it is observed and not too young |
| `Aggregation.TotalsMeaning` | src/openfundscore/category_metrics.py:2468-2473 | the peer limit counts all peers and all readings of the profile |
| `Aggregation.OneMoreReading` | src/openfundscore/category_metrics.py:2468-2473 | one more reading adds its own peers |
| `Aggregation.ScoreMetrics` | src/openfundscore/category_metrics.py:2632-2662 | the metric loop computes the specified dimension score, or says why there is none |
| `Aggregation.DimensionMeaning` | src/openfundscore/category_metrics.py:2645-2695 | short history, blocked by a core metric, refused or scored, each exactly when; the contribution is the weight in hundredths of the score |
| `Aggregation.OpenScoreInRange` | src/openfundscore/category_metrics.py:2698-2711 | with weights totalling 100 at both levels the score lies in [0, 100], rounding included |
| `Aggregation.ScoreSensitivity` | src/openfundscore/category_metrics.py:2647-2708 | changing one metric score by d moves the unrounded total by exactly w_dimension * w_metric * d / 10000 |
| `Aggregation.ManagerSensitivity` | src/openfundscore/category_metrics.py:2547-2556 | raising the manager score by d moves the unrounded total by exactly the manager weight times d / 100 |
| `Aggregation.Consensus` | src/openfundscore/category_metrics.py:2647-2708 | if every metric and the manager score the same, so does the category |
| `CategoryLaws.CategoryScoreInRange` | src/openfundscore/category_metrics.py:2546-2711 | whatever the readings and their peers, fixed weights totalling 100 keep the open score in [0, 100] |
| `CategoryLaws.BetterReadingsNeverScoreWorse` | src/openfundscore/category_metrics.py:2573-2711 | improving any raw values, each in its declared direction, never lowers the open score and leaves the same metrics scored |
| `CategoryLaws.RecordingDoesNotMatter` | src/openfundscore/category_metrics.py:2573-2711 | recording any metrics with another origin, with the opposite sign and direction, or with their peers in another order changes no metric score and no admission |
| `ManagerScore.TenureAttribution` | src/openfundscore/manager_research.py:1179-1280 | for one target or for all tenures: details and observations cover exactly the tenures with attributable evidence, each with its factor; refused as unresolved if and only if one of them is unresolved, and for want of evidence if and only if there is none |
| `ManagerScore.CollectObservations` | src/openfundscore/manager_research.py:1204-1239 | the listed tenures are distinct and are exactly those of the attributable rows; the observations are exactly those rows with their qualified evidence |
| `ManagerScore.AttributableMeaning` | src/openfundscore/manager_research.py:1200-1229 | a row counts exactly when it is usable, belongs to an eligible tenure and cites evidence both referenced and declared to support the component |
| `ManagerScore.AttributionRules` | src/openfundscore/manager_research.py:827-865 | who leads alone shares with nobody, who shares names someone else, and exactly the roles have a share, strictly between 0 and 1 |
| `ManagerScore.ScoreComponents` | src/openfundscore/manager_research.py:1992-2033 | contributions, score, confidence and the list of insufficient components are the specified ones; a scored manager has low confidence |
| `ManagerAudit.ContributionMeaning` | src/openfundscore/manager_research.py:2014-2018 | within half a millionth the tenure component contributes score times aggregate times weight / 100 and every other usable component score times weight / 100 |
| `ManagerAudit.OnlyTenureIsDiscounted` | src/openfundscore/manager_research.py:2014-2018 | another aggregate changes the contribution of the tenure component only |
| `ManagerAudit.TeamShare` | src/openfundscore/manager_research.py:1250-1251 | the members of a team share equally, to six digits |
| `ManagerScore.ScoreManager` | src/openfundscore/manager_research.py:1952-2047 | produces a result exactly when the attributions are valid, the target exists and, with the tenure component scored, attribution succeeds over all tenures and for the target; says when each refusal occurs |
| `ManagerScore.ProducibleMeaning` | src/openfundscore/manager_research.py:1179-1192 | what success needs, in plain words: the tenure component counts only if it has a score |
| `ManagerAudit.ProducerAgreesWithAuditor` | src/openfundscore/category_metrics.py:747-1260 | for component scores in [0, 100] with weights totalling 100, the audit accepts the producer's result if and only if the mean share of the tenures the dossier credits to the target exceeds 0.0000005 |
| `ManagerAudit.ScoreThenAudit` | src/openfundscore/category_metrics.py:747-1260 | producer and audit in sequence: which dossiers are scored, and which of those accepted, is decided by the dossier alone |
| `ManagerAudit.MeanIsCredited` | src/openfundscore/manager_research.py:1241-1275 | the mean factor of the producer's details is the mean share of the tenures of the dossier credited to the target, in whatever order the rows list them |
| `ManagerAudit.AggregateIsExpected` | src/openfundscore/category_metrics.py:1111-1120 | the producer's aggregate is the audit's own rounded mean of the factors |
| `ManagerAudit.PresentRange` | src/openfundscore/category_metrics.py:1255 | contributions within their weights keep the score between 0 and the total weight |
| `ManagerAudit.ScoreIsSumOfContributions` | src/openfundscore/manager_research.py:2020-2026 | rounding the sum of rounded contributions changes nothing |
| `ManagerAudit.PositiveAggregate` | src/openfundscore/manager_research.py:1272-1275 | the rounded aggregate factor is positive exactly when the mean factor exceeds half a millionth |
| `ManagerAudit.ContributionPasses` | src/openfundscore/category_metrics.py:1124-1138 | each contribution is within its weight and within 0.000001 of what the audit computes on its own: raw * weight / 100, times the factor for the tenure component only |
| `ManagerAudit.TinyShareIsRefused` | src/openfundscore/category_metrics.py:1031-1040 | run on a valid dossier with the single share 0.0000004, the producer gives a scored result and the audit refuses it |
| `PerformanceWindows.ValidatePerformanceWindows` | src/openfundscore/manager_research.py:728-824 | accepts exactly the dossiers whose tenures and performance rows obey every dated rule |
| `PerformanceWindows.FileWindow` | src/openfundscore/manager_research.py:753-762 | a window is filed exactly when it meets none filed under its key |
| `PerformanceWindows.NoDayCountedTwice` | src/openfundscore/manager_research.py:728-824 | for one strategy and metric no day is evidenced by two rows, inside a tenure or across tenures |
| `PerformanceWindows.AcceptedRowMeaning` | src/openfundscore/manager_research.py:781-824 | an accepted row lies inside its tenure, and claims more than low confidence only after the transition days |
| `PerformanceWindows.LowConfidenceFits` | src/openfundscore/manager_research.py:799-809 | a row of low confidence needs only to lie inside its tenure |
| `PerformanceWindows.EvidencedDays` | src/openfundscore/manager_research.py:799-809 | the row lengths of one strategy and metric add up to the number of distinct days they evidence |
| `PerformanceWindows.EvidenceFitsCalendar` | src/openfundscore/manager_research.py:615-645 | all that evidence together covers no more days than have passed since its first day |
| `IsoText.TextOrderIsInstantOrder` | src/openfundscore/storage.py:230-242 | comparing two fixed-width timestamp texts is comparing the instants |
| `IsoText.TextIsInjective` | src/openfundscore/canonical.py:615-621 | the text determines the instant |
| `IsoText.TextReadsBack` | src/openfundscore/canonical.py:615-621 | every field reads back as its number from the place ISO 8601 gives it |
| `IsoText.DigitsOrder` | src/openfundscore/canonical.py:615-621 | zero-padded numbers of one width compare as numbers, equal ones leaving the comparison to the rest of the text |
| `Storage.CanonicalStore.PutOne` | src/openfundscore/storage.py:91-125 | appends a new record and returns true, returns false on identical replay, and refuses a reused id |
| `Storage.CanonicalStore.Put` | src/openfundscore/storage.py:127-130 | the same as a transaction: a refused put leaves the table unchanged |
| `Storage.CanonicalStore.Load` | src/openfundscore/storage.py:261-278 | stores every item or, on any bad item or conflict, leaves the table exactly as it was |
| `Storage.CanonicalStore.QueryVersions` | src/openfundscore/storage.py:141-174 | returns the versions the SQL statement selects, in its order, or the error for an unknown type or a blank id |
| `Storage.RecordMeaning` | src/openfundscore/canonical.py:95-160 | a record has a known type, an identity and an entity that are not white space, a validity that does not end before it starts, and was fetched no earlier than published |
| `Storage.BlankMeaning` | src/openfundscore/storage.py:152-153 | a blank id is one in which every character is white space |
| `Storage.SpaceMeaning` | src/openfundscore/storage.py:152-153 | the white space characters |
| `Storage.KnownTypes` | src/openfundscore/storage.py:150-151 | the seven record types |
| `Storage.CanonicalStore.ResolveShareClass` | src/openfundscore/storage.py:176-228 | joins each share class version to all its strategy candidates and their sorted conflict groups, and never fails on a proper id |
| `Storage.CanonicalStore.DumpJson` | src/openfundscore/storage.py:244-259 | returns every stored record exactly once and nothing else, by type, entity, validity start, publication and id, and leaves the table as it is |
| `Storage.QueryMeaning` | src/openfundscore/storage.py:155-174 | in terms of instants: every stored version in force at the instant and fetched by the cutoff is returned exactly once, and nothing else, by validity start, publication and id |
| `Storage.DumpMeaning` | src/openfundscore/storage.py:244-259 | sorting the rows by the text columns of the dump statement orders the records by type, entity, instants and id, each stored record once |
| `Storage.NoTies` | src/openfundscore/storage.py:170-172 | both orders end in the primary key, so no two rows of a table are tied |
| `Storage.ResolutionMeaning` | src/openfundscore/storage.py:176-228 | every visible version of the share class is resolved once and in order, with all visible versions of its own strategy and exactly the conflict groups that it or any of them carries |
| `StoreHistory.Perform` | src/openfundscore/storage.py:91-278 | any sequence of puts and loads on the object ends in the state of the specified run |
| `StoreHistory.RunAppends` | src/openfundscore/storage.py:91-278 | over any such sequence the table only grows at its end and ids stay unique |
| `StoreHistory.StoredForEver` | src/openfundscore/storage.py:99-108 | once stored, a record can be replayed as a no-op after any sequence, and no other content can take its id |
| `StoreHistory.QueryDependsOnlyOnKnown` | src/openfundscore/storage.py:155-174 | a query at a cutoff is a function of the set of rows fetched by the cutoff |
| `StoreHistory.LateRecordsAreInvisible` | src/openfundscore/storage.py:155-174 | any sequence of puts and loads of records fetched after the cutoff leaves every query at the cutoff unchanged |
| `StoreHistory.LateRecordsDoNotChangeResolution` | src/openfundscore/storage.py:176-228 | and every share class resolution at the cutoff |
| `StoreHistory.DumpIgnoresOrder` | src/openfundscore/storage.py:244-259 | stores with the same rows give the same dump, whatever the insertion order |
| `StoreHistory.DumpReloads` | src/openfundscore/storage.py:244-278 | a dump loads into an empty store, restores every row and is dumped again unchanged |
| `StoreHistory.ReloadIsNoOp` | src/openfundscore/storage.py:244-278 | loading a store's dump into any later state of that store changes nothing |
| `StoreHistory.LoadOrderDoesNotMatter` | src/openfundscore/storage.py:261-278 | loading the same records in another order succeeds and ends in the same dump |
| `RateLimiter.LocalRateLimiter.constructor` | src/openfundscore/official_providers.py:1008-1038 | starts with no grant and the deadline at zero |
| `RateLimiter.LocalRateLimiter.Acquire` | src/openfundscore/official_providers.py:1048-1093 | grants exactly when one of the first nine readings reaches the deadline after uninterrupted waiting, sleeping at most eight times; a failed call leaves the deadline unchanged; grants stay one interval apart |
| `RateLimiter.AtMostRpsPerSecond` | src/openfundscore/official_providers.py:1003-1093 | over any run a half-open one-second window holds at most requests_per_second grants |
| `RateLimiter.RateIsReached` | src/openfundscore/official_providers.py:1003-1038 | the bound is reached: grants one interval apart put exactly requests_per_second into one second |
| `RateLimiter.SpacedApart` | src/openfundscore/official_providers.py:1089-1093 | the j-th grant is at least j - i intervals after the i-th |
| `RequestPath.SafeRequestPath` | src/openfundscore/official_providers.py:578-632 | accepts, and returns unchanged, exactly the paths that reach their percent-decoding fixpoint within eight rounds through clean texts only |
| `RequestPath.DecodeRound` | src/openfundscore/official_providers.py:602-631 | the scanning loop computes one round of decoding and whether there was an escape |
| `PathEscapes.DecodingInvertsEncoding` | src/openfundscore/official_providers.py:612-631 | an escape written with the digits of n, in any mix of case and at any place, decodes to the character numbered n or is refused |
| `PathEscapes.HexIsDigit` | src/openfundscore/official_providers.py:612-619 | nothing but a hexadecimal digit, of either case, is read as one |
| `RequestPath.IsClean` | src/openfundscore/official_providers.py:593-601 | testing the split text is testing that no path segment is a dot segment, and that no character is forbidden |
| `RequestPath.SplitIsSegments` | src/openfundscore/official_providers.py:595 | splitting at slashes yields exactly the path segments |
| `RequestPath.DecodingShrinks` | src/openfundscore/official_providers.py:602-631 | a round shortens the text strictly while escapes remain and is the identity once none do |
| `RequestPath.AcceptedPathShrinks` | src/openfundscore/official_providers.py:591-631 | on its way to the fixpoint an accepted path loses at least two characters a round |
| `PathEscapes.HiddenDotsAreRefused` | src/openfundscore/official_providers.py:591-632 | a path with a segment that becomes "." or ".." after any number of rounds is never accepted |
| `PathEscapes.DotSegmentsAreRefused` | src/openfundscore/official_providers.py:593-631 | in particular however its dots are written |
| `PathEscapes.RoundsBySegment` | src/openfundscore/official_providers.py:602-631 | decoding works segment by segment: no round moves a segment boundary |
| `PathEscapes.AcceptedTextsAreSafe` | src/openfundscore/official_providers.py:593-631 | every text an accepted path decodes to is rooted, has no query or fragment delimiter, backslash, control or non-ASCII character, and has the same slashes |
| `PathEscapes.EightLayers` | src/openfundscore/official_providers.py:592-632 | a letter escaped n times over is accepted exactly when n is at most 8 |
| `PathEscapes.PlainPaths` | src/openfundscore/official_providers.py:578-597 | a path without escapes is accepted exactly when it is clean, well written and at most 8192 characters long |
| `PathEscapes.PathCharacters` | src/openfundscore/official_providers.py:43 | the permitted characters are those of section 3.3 of RFC 3986 and the slash |
| `PagedFetch.FetchSeries` | src/openfundscore/official_providers.py:1958-2100 | for any server the fetch succeeds exactly when all pages are consistent within the limits; then it has read max(1, ceil(total / per_page)) pages and returns exactly total records in page order; the final count check never fires |
| `PagedFetch.FetchPages` | src/openfundscore/official_providers.py:2005-2100 | the page loop, for the metadata of page 1 |
| `PagedFetch.CollectedSize` | src/openfundscore/official_providers.py:1779-1797 | after n consistent pages the rows collected number n * per_page, or total after the last |
| `PagedFetch.PageArithmetic` | src/openfundscore/official_providers.py:1779-1787 | the expected page count is the least that holds the rows, and at least one |
| `PagedFetch.ServesMeaning` | src/openfundscore/official_providers.py:1738-1797 | what a server must send for the fetch to succeed, page by page: its own number, shared metadata, valid rows and as many as belong on the page |

## Left out

- IEEE rounding, overflow and the "not finite" failures: arithmetic is exact, so a branch that only rejects a non-finite intermediate does not occur.
- The square roots of the Spearman denominator and of the standard error in `_uncertainty`: their radicands are modelled and proved nonnegative, the roots are not taken.
- `_component_diagnostics`, `_summary_sensitivity`, the mean score stability of the summary and selection breadth: folds of values that are modelled.
- `WalkForwardEngine.RunWalkForward`: its reports do not carry component diagnostics and selection breadth, and its summary no mean stability, component diagnostics or sensitivity, because each is a plain fold of values that are modelled.
- `WalkForwardEngine.RunOneFold`: computes what is frozen; the audit trails, diagnostics and evaluation that the source computes in the same turn are added by `WalkForwardEngine.RunFolds`, because none of them is carried to the next fold.
- `RunReport.Summarize`: does not model the parts of the summary just named.
- The separate error codes and paths of `_validate_inputs`: every rejection is one `InvalidInput`; which inputs are rejected is modelled. The size limit on nested lists, the identifier and text syntax checks and the closeness check of a component sum against its total are not.
- `WalkForwardEngine.ValidateInputs`: does not model the checks just named, because they constrain fields that no modelled property reads.
- The order of a report's audit trails: they are sets here; the source lists the same records by identifier.
- The order in which one of several simultaneous group errors is reported: groups are visited in input order and the error is that of the first faulty group found.
- Callback effects: a callback that changes state between calls is outside the model.
- The JSON text of a dump and of the document column: a document is the record it encodes; two records have equal documents exactly when they are equal. A document that fails validation is one `Refused` item.
- `Storage.CanonicalStore.QueryVersions`: conversion of other time zones to UTC, including its failure at the ends of the calendar, is left to the caller's instant.
- Peer admission, provenance, identity and ledger checks of `_normalize_metric` and `_manager_audit`: independent field checks; the arithmetic halves are modelled.
- `Normalization.NormalizeMetric`: does not model those peer and observation checks, only the size limits and the arithmetic.
- `Aggregation.ScoreCategory`: peers come grouped by metric; their identity, snapshot and range checks and the ledger comparison before the loop are not modelled, because they are independent field checks.
- `EvidenceUsage.ValidateScoreEvidenceUsage`: duplicates are compared on the modelled fields and on instants, not on the raw text of every field, because the other fields are opaque to the sweep.
- Threads and the lock of the limiter, and the HTTP transport: one caller at a time under the lock, a clock and a sleeper that may do anything, a server that is any function of the page number.
- Row parsing of the series adapter: a row is valid with its period or invalid; the identifier built from it is determined by the period.
- `heapq` on a Python list: the heap keeps its list in a sequence field that is replaced, not an array updated in place.
