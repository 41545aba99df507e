# ThrottleKit, verified

A Dafny model of the decision algorithms of ThrottleKit, a rate-limiting and admission-control library, with proofs of
what its documentation claims of them. Each module models one component; all of them verify together.

* **Fluid LP** (`FluidLp*`, `LineSearch`, `Cramer`, `Vertices`, `Greedy`): the solver behind the joint bid-price policy.
  Its dual enumeration is proved globally optimal in two- and three-budget mode, the dual optimum is proved to be the
  primal one, and each mode's primal recovery is proved optimal exactly under a condition on the workload, the budgets
  and the prices.
* **Fair split** (`MaxMin`, `MaxMinInteger`, `MaxMinGuarantee`): water-filling is the unique weighted max-min fair split;
  its integer drip, and what it guarantees a tenant.
* **Learned reservation** (`Reservation`, `ReservationFloor`): the square-root regret bound of projected online gradient
  descent, and exactly when its documented constant holds.
* **Calendar and quota** (`Calendar`, `CalendarPeriods`, `WindowCounter`, `FixedWindow`): the proleptic Gregorian
  calendar of ISO 8601:2004, section 3.2.1, its periods, and the counters reset by them.
* **Heavy hitters** (`SpaceSaving`, `HeavyHitters`, `Analytics`): what a bounded summary knows about the whole stream.
* **Limiters** (`Strategy`, `Gcra`, `TokenBucket`, `GcraBucket`, `SlidingLog`, `SlidingLogScript`, `LeakyBucket`,
  `Fused`, `TokenBudget`): bounds over whole runs, exact retry hints, invisible TTL eviction, and agreement of the
  JavaScript and Lua forms. GCRA against the token bucket is the equivalence of ITU-T I.371, Annex A.
* **Protocols** (`Leasing`, `Admission`, `AdmissionRuns`, `AdmissionService`, `Warmup`): distributed leasing for every
  fleet size, the slot and lease lifecycle of unified admission with admits interleaved at every await, and the online
  refinement of its bid prices.

## Conventions

Numbers are exact: doubles are reals, counts are integers, and the tolerances EPS and RED_TOL of the solver are 0, with
exact singularity tests. The clock, random lease ids and the square root of a counter are parameters: a root is any
`s >= 0` with `s * s == t`. A store call is one atomic step. Thrown range errors are `Result` or `Option` values.
Lua scripts are methods over the key's value and its expiry; that a script is atomic, that Redis truncates the numbers a
script returns, and that it refuses an index that is no whole number are taken from Redis. The bid prices a call is
gated by are part of its request, as they stand when it enters: online refinement lets earlier calls move them.

Array.prototype.sort with a difference comparator is a stable insertion sort by key. A JavaScript Map that is only
searched, extended and shortened is a sequence in insertion order.

## Where the code and its documentation part

The model follows the code. Each difference has a lemma with a concrete input or a family of them, and the exact
condition where one is proved.

* The fallback of `fillBothTight` is described as a partial fill of a plan that is otherwise exact. It can overspend the
  budgets: with zero-weight types (`FluidLpOverspend.ZeroWeightOverspends`), and on ordinary workloads with more than 12
  marginal types, where the search tries no 0/1 pattern but the empty one (`FluidLpMany.ManyTypesOverspend`). When the plan
  is optimal is `FluidLpExact.TwoBudgetBestExactlyWhen`.
* `solveThreeBudget` is documented to fall short of the optimal plan only when two or more budgets bind. It can with one
  (`FluidLpThree.OneBindingMisses`); `FluidLpThree.EarnsExactlyWhen` says when its plan earns the reported objective.
* `weightedMaxMin` promises a total of min(sum of demands, floor(limit)). With fractional demands it can hand out more
  (`MaxMinInteger.FractionalDemandOvershoots`); `MaxMinInteger.ExactTotalWhen` says when it does not. It also promises
  every backlogged tenant its guaranteed share; a fractional demand below that share can be floored and left there
  (`MaxMinGuarantee.BacklogBelowGuarantee`), and `MaxMinGuarantee.GuaranteeKeptExactlyWhen` says when it is not.
* `learnedReservation` promises (3/2) D G sqrt(T) with the default step. The floor of 1e-6 on that step breaks it on
  every range narrower than that times the cost (`ReservationFloor.LongStepBreaks`); for equal costs
  `ReservationFloor.DefaultStepExactWhen` is the exact condition.
* `daysFromCivil` and `civilFromDays` combine a truncation adjustment with a floor division, so most days before
  0000-03-01 are off by one (`Calendar.EarlyDateDiffers`, `Calendar.EarlyDayDiffers`), and a day before a 1 March then
  gets a date that does not exist (`Calendar.EarlyDayImpossible`). Exactly when: `Calendar.DaysFromCivilExactWhen`,
  `Calendar.CivilFromDaysExactWhen`.
* The sliding log indexes an array with `limit` in the index; a fractional limit makes the hint a whole window
  (`SlidingLog.FractionalLimitHint`), and `SlidingLog.ReportedHintExactWhen` says when the hint is exact. Redis refuses
  such an index, so there the script fails instead (`SlidingLogScript.SameAnswers`).
* The fixed-window and quota scripts return the reset instant unrounded, and Redis truncates it where the JavaScript form
  rounds up (`WindowCounter.ScriptResetDiffers`); `WindowCounter.Script` says when the two agree.

## Model

| member | source | states |
|---|---|---|
| LineSearch.LineDescent | src/admission/fluid-lp.ts:128-133 | the one-dimensional core: along a line, a sum of linear and clipped affine terms that stays bounded is no larger at some breakpoint or endpoint than at any given point of the feasible stretch |
| FluidLpVertex.Descend | src/admission/fluid-lp.ts:250-265 | from any dual point one can move, along a line on which all planes already touched stay touched, to a point that touches one more plane and whose dual value is no larger |
| Vertices.CandidateVertex | src/admission/fluid-lp.ts:135-150 | for every p >= 0 in two-budget mode some enumerated candidate (origin, axis threshold or bid-line crossing) is dual-feasible with no larger D |
| Vertices.TripleVertex | src/admission/fluid-lp.ts:258-262 | for every p >= 0 some dual-feasible solution of three of the planes has no larger D |
| Cramer.SolvesExactly | src/admission/fluid-lp.ts:228-238 | solve3x3 returns a point exactly when the determinant is non-zero, that point satisfies all three equations, and it is the only one that does |
| FluidLpSolver.EvalDual | src/admission/fluid-lp.ts:129-133 | the evaluation loop computes D(p) = B.p + sum of weight * max(0, reduced value) |
| FluidLpSolver.Candidates | src/admission/fluid-lp.ts:135-150 | the candidate loops list exactly the origin, the axis thresholds and the crossings of non-parallel bid lines |
| FluidLpSolver.Evaluate | src/admission/fluid-lp.ts:152-162 | every dual-feasible candidate is listed with its dual value and minD is the least of them |
| FluidLpSolver.MostSelective | src/admission/fluid-lp.ts:164-188 | the point returned is listed, co-optimal, and as selective as every listed co-optimal one: it rejects more types (the number of those with a negative reduced value), or as many with a larger concurrency price, or with those equal and a larger cost price, or with those equal and a rate price no smaller |
| FluidLpSolver.TwoBudgetPrices | src/admission/fluid-lp.ts:128-190 | the returned bid prices minimise D over the whole quadrant p >= 0, and among the co-optimal candidates none rejects more types, or as many at a larger cost price, or with those equal at a larger rate price |
| FluidLpSolver.TripleVertices | src/admission/fluid-lp.ts:286-315 | the triple loops list exactly the origin and the non-negative solutions of the plane triples |
| FluidLpSolver.ThreeBudgetPrices | src/admission/fluid-lp.ts:271-332 | the returned three prices minimise D over the whole octant p >= 0, and among the co-optimal plane triples none rejects more types, or as many at larger prices, compared by concurrency, then cost, then rate |
| FluidLp.WeakDuality | src/admission/fluid-lp.ts:257-263 | every feasible fractional plan earns at most D(p), for every p >= 0 |
| FluidLp.StrongDuality | src/admission/fluid-lp.ts:372-378 | a feasible plan consistent with prices p that exhausts every priced budget earns exactly D(p) |
| FluidLpOptimality.OptimalSlope | src/admission/fluid-lp.ts:128-133 | at a dual optimum every admissible direction has a non-negative one-sided slope, written out as the budgets' change plus each type's edge |
| FluidLpFill.ForcedFits | src/admission/fluid-lp.ts:192-209 | at optimal prices the forced types alone fit into every budget |
| FluidLpFill.CutBound | src/admission/fluid-lp.ts:398-399 | cutting the marginal types at a cost threshold, the admitted side cannot overspend the untight budget |
| FluidLpSingle.RateTight | src/admission/fluid-lp.ts:397-416 | only rate priced: the cheapest-first fill hits the rate budget exactly, stays within cost and earns D(p) |
| FluidLpSingle.CostTight | src/admission/fluid-lp.ts:419-436 | only cost priced: the dearest-first fill hits the cost budget exactly, stays within rate and earns D(p) |
| FluidLpSingle.TiesInListOrder | src/admission/fluid-lp.ts:400-424 | both fills visit types of equal cost in list order |
| FluidLpSingle.BothTightExists | src/admission/fluid-lp.ts:438-447 | both priced: some plan consistent with the prices spends both budgets exactly |
| FluidLpSparse.SparseExists | src/admission/fluid-lp.ts:442-447 | then some such plan has at most two fractional weighted types, which is what the pair enumeration looks for |
| FluidLpPair.MaskFor | src/admission/fluid-lp.ts:465-476 | every 0/1 pattern of the other marginal types is the bit pattern of some enumerated mask |
| FluidLpPair.PairSolves | src/admission/fluid-lp.ts:479-481 | the 2x2 formulas solve both spending equations whenever the pair's determinant is non-zero |
| FluidLpPair.PairUnique | src/admission/fluid-lp.ts:479-481 | and their solution is the only one |
| FluidLpPair.TrialExact | src/admission/fluid-lp.ts:467-487 | a trial that is accepted spends exactly the remaining rate and the remaining cost |
| FluidLpPair.TrialComplete | src/admission/fluid-lp.ts:467-487 | a plan that spends both budgets exactly and is fractional only at one non-singular pair is found by some trial |
| FluidLpBoth.FoundIsCertified | src/admission/fluid-lp.ts:482-487 | whatever the enumeration returns from inside its loop is feasible and earns D(p), so no feasible plan earns more |
| FluidLpBoth.EnumerationSucceeds | src/admission/fluid-lp.ts:458-490 | with at most 12 marginal types, two of them weighted and of distinct cost, the enumeration must find a plan |
| FluidLpBoth.CertifiedIffExhausts | src/admission/fluid-lp.ts:372-378 | with both budgets priced a plan consistent with the prices is optimal exactly when it spends both budgets in full |
| FluidLpPlan.Classify | src/admission/fluid-lp.ts:195-209 | one loop splits the types into forced, marginal and rejected and totals what the forced ones use |
| FluidLpPlan.FillRate | src/admission/fluid-lp.ts:400-416 | the in-place rate loop equals the greedy fill function whose threshold form is proved |
| FluidLpPlan.FillCost | src/admission/fluid-lp.ts:422-435 | the in-place cost loop equals the greedy fill function over the cost needs |
| FluidLpPlan.WritePair | src/admission/fluid-lp.ts:482-487 | an accepted pair and mask are written into x as the found plan, in place |
| FluidLpPlan.FillBothTight | src/admission/fluid-lp.ts:448-495 | either the first pair and mask, in the order of the loops, whose trial fits fill x, or no pair fits and every marginal type is set to 1 |
| FluidLpPlan.FillMarginal | src/admission/fluid-lp.ts:379-440 | the dispatch on which budgets are tight leaves exactly the plan of that branch |
| FluidLpPlan.RecoveredIsCertified | src/admission/fluid-lp.ts:192-224 | the recovered plan is feasible and optimal whenever a budget is unpriced, a usable pair exists, or the enumeration hit |
| FluidLpPlan.SolveTwoBudget | src/admission/fluid-lp.ts:117-225 | two-budget mode: optimal, most selective prices, a consistent plan whose reported objective is its own, certified optimal whenever a usable pair exists or a budget is unpriced |
| FluidLpSolve.PositiveWeightsSuffice | src/admission/fluid-lp.ts:458-464 | positive weights and at most 12 types guarantee a usable pair whenever both budgets are priced |
| FluidLpExact.TwoBudgetBestExactlyWhen | src/admission/fluid-lp.ts:108-116 | for every accepted workload: the plan is feasible and no feasible fractional plan earns more than the reported objective exactly when a budget is unpriced, nothing is marginal, the pair search succeeds, or admitting every marginal type in full happens to spend both budgets |
| FluidLpSolve.HitsExactlyWhen | src/admission/fluid-lp.ts:458-490 | up to 12 marginal types, the enumeration hits exactly when two marginal types have positive weight and distinct cost |
| FluidLpExact.CertifiedExactlyWhen | src/admission/fluid-lp.ts:379-494 | the recovered plan is feasible and earns the dual optimum exactly under that condition, which names only workload, budgets and prices: up to 12 marginal types the search succeeds on any two of positive weight and distinct cost, beyond only on a pair that fills the room alone |
| FluidLpExact.HitsBeyondTwelve | src/admission/fluid-lp.ts:456-490 | beyond 12 marginal types the enumeration hits exactly when some pair alone fills what the forced plan leaves of both budgets |
| FluidLpOverspend.ZeroWeightOverspends | src/admission/fluid-lp.ts:491-494 | a concrete workload on which every answer of the solver uses a rate of 2 under a rate budget of 1: the fallback is taken although a zero-weight type is the only partner |
| FluidLpMany.ManyTypesOverspend | src/admission/fluid-lp.ts:456-494 | for every n >= 13, a workload of n types of weight 1 on which every answer of the solver admits all n of them under a rate budget of 10, and reports more than the dual optimum |
| FluidLpMany.ThirteenTypes | src/admission/fluid-lp.ts:456-494 | the smallest of them: rate 13 and cost 91 under budgets of 10 and 70, reporting 104 where the optimum is 80 |
| FluidLpSolve.AdmitShareOf | src/admission/fluid-lp.ts:357-365 | a marginal type's share is the largest that fits into all three rooms, the only one that is 1 or leaves a needed budget empty |
| FluidLpSolve.FillThree | src/admission/fluid-lp.ts:355-367 | the in-place loop equals the fill in list order, each type taking the largest share that fits what the types before it left; the plan stays consistent, the rooms exact, and every marginal type is full or blocked by an empty budget |
| FluidLpSolve.SolveThreeBudget | src/admission/fluid-lp.ts:271-370 | three-budget mode: globally optimal prices, the list-order plan, which is within all three budgets and which no marginal type could extend, and the dual optimum as objective |
| FluidLpStrong.PrimalAttains | src/admission/fluid-lp.ts:257-263 | strong duality, by elimination of one type after the other: at optimal prices some feasible plan earns exactly D(p), with two or three binding budgets |
| FluidLpExact.ThreeBudgetObjective | src/admission/fluid-lp.ts:257-263 | the objective reported in three-budget mode is the primal optimum: some feasible plan earns it and none earns more |
| FluidLpThree.EarnsExactlyWhen | src/admission/fluid-lp.ts:264-269 | the three-budget plan earns the reported objective exactly when filling the marginal types in list order leaves nothing of any priced budget, for every workload, budget and optimal prices |
| FluidLpThree.OnePriceEarns | src/admission/fluid-lp.ts:264-269 | with exactly one positive price it does whenever the marginal types in full would fit into the other two budgets |
| FluidLpThree.OneBindingMisses | src/admission/fluid-lp.ts:264-269 | one binding budget is not enough: under rate 1, cost 5, concurrency 1 two types of equal value and costs 10 and 1 have the only optimal prices (1, 0, 0), and the plan earns 1/2 under a reported objective of 1 |
| FluidLpSolve.Validate | src/admission/fluid-lp.ts:497-551 | validation passes exactly the inputs the solver accepts, and an error names a field that is at fault |
| FluidLpSolve.SolveFluidLp | src/admission/fluid-lp.ts:117-225 | the public entry: errors exactly on rejected inputs, naming a field that is at fault; otherwise the two- or three-budget answer above, whose prices minimise, over all non-negative prices of the input's own budgets, budgets times prices plus the weighted surpluses of the types |
| Sorting.SortByStable | src/admission/fluid-lp.ts:400-424 | the sort behind both fills keeps entries of equal keys in their order |
| MaxMin.WaterfillContinuous | src/admission/index.ts:409-442 | sort and loop give one common level L with every share = min(demand, weight * L) and sum = min(total demand, limit) |
| MaxMin.TheFairSplit | src/admission/index.ts:408-442 | that split is the one and only feasible split that is weighted max-min fair: raising a share always lowers one whose normalised service is no larger |
| MaxMinInteger.Neediest | src/admission/index.ts:471-480 | the scan returns the tenant of least service among those still below demand, the first listed on a tie, or none |
| MaxMinInteger.Drip | src/admission/index.ts:469-485 | dripping ends with each share rounded down or up, the neediest first, and a total of min(sum of rounded-up demands, floor(limit)) |
| MaxMinInteger.WeightedMaxMin | src/admission/index.ts:459-486 | errors exactly on invalid input, naming an argument that is at fault; otherwise the integer split of the fair shares described above, for all real demands |
| MaxMinInteger.Guarantee | src/admission/index.ts:451-453 | every tenant gets at least min(floor(demand), guaranteed share) and at most its demand rounded up |
| MaxMinGuarantee.GuaranteeKeptExactlyWhen | src/admission/index.ts:451-453 | a backlogged tenant keeps its guaranteed share exactly when its demand is whole, or reaches that share, or its place in the queue of the drip is within the floored-off leftover; queue and leftover are functions of demands, weights and limit |
| MaxMinGuarantee.BacklogBelowGuarantee | src/admission/index.ts:451-453 | weights 3, 0.3 and 0.3 under a limit of 4: the first tenant demands 2.5, gets 2 and has a guaranteed share of 3 |
| MaxMinGuarantee.DrippedExactlyWhen | src/admission/index.ts:469-485 | a tenant that wants more than its floored fair share gets one more credit exactly when fewer tenants come before it than credits are left over |
| MaxMinInteger.ExactTotalWhen | src/admission/index.ts:449-450 | the documented total min(sum of demands, floor(limit)) is exact just when the demands are whole or sum to at least floor(limit) |
| MaxMinInteger.WholeDemands | src/admission/index.ts:449-453 | for whole demands: exact total, no tenant above its demand, each at min(demand, guaranteed share) or more |
| MaxMinInteger.FractionalDemandOvershoots | src/admission/index.ts:449-450 | a demand of one half under a limit of one is handed a whole credit |
| MaxMinInteger.GuaranteesFit | src/admission/index.ts:394-406 | the guaranteed shares together fit into the limit |
| Reservation.Regret | src/admission/index.ts:861-866 | for every run of costs and every fixed u in range, the learner's pinball loss exceeds u's by at most (D^2/(2 eta) + eta G^2) sqrt(T) |
| Reservation.Potential | src/admission/index.ts:921-928 | the invariant behind it, after every observation: regret so far against the room the distance to u leaves |
| Reservation.RegretAtOptimalStep | src/admission/index.ts:864-866 | at eta = D/G the bound is (3/2) D G sqrt(T) |
| Reservation.DefaultStepRegret | src/admission/index.ts:911-912 | the default step meets it whenever its floor of one millionth is not active, for all costs |
| ReservationFloor.DefaultStepExactWhen | src/admission/index.ts:864-866 | with equal costs, the default step meets the documented bound on every run exactly when the range is a point or at least one millionth of the cost wide |
| ReservationFloor.LongStepBreaks | src/admission/index.ts:911-932 | the failing side: whenever the first step is longer than the range, whatever the range and the start, some run of costs at its two ends exceeds (3/2) D G sqrt(T) |
| Reservation.FloorBreaksBound | src/admission/index.ts:911-912 | a short such run: where the floored step is four times D/G or more, sixteen opposed costs give a regret of 8 D G, above (3/2) D G * 4 |
| Reservation.Validate | src/admission/index.ts:893-908 | options are refused exactly when a cost, bound or step is out of range, and the error names one that is |
| Reservation.OptionsMean | src/admission/index.ts:893-919 | the loss learned is holdCost per unit over and overrunCost per unit under, the range runs from minReservation or 0 to maxReservation, and the step scale is stepScale or the range over the larger cost, but never below one millionth |
| Reservation.LearnedReservation.Observe | src/admission/index.ts:921-928 | one observation lowers the reservation by holdCost after an over-reservation and raises it by overrunCost after an overrun or an exact hit, times the step scale over the root, within the range; it keeps the regret bound against every u |
| TokenBudget.Meter.DebitSync | src/admission/index.ts:731-767 | the single-gateway meter answers and counts exactly as the shared debit from the same state |
| TokenBudget.Meter.Remaining | src/admission/index.ts:781-785 | reading what is left may roll the window but changes no later answer while the clock does not go back |
| Calendar.NextDateCounts | src/algorithms/calendar.ts:26-34 | the reference day number: successive Gregorian dates, under the leap-year rule, differ by exactly one day in every year |
| Calendar.DayNumberInjective | src/algorithms/calendar.ts:27-34 | and no two valid dates share a day number |
| Calendar.DaysFromCivilExactWhen | src/algorithms/calendar.ts:27-34 | daysFromCivil equals it exactly from 0000-03-01 on and in the last year of each earlier era, and is one day short otherwise |
| Calendar.EarlyDateDiffers | src/algorithms/calendar.ts:27-35 | 28 February of the year -1 is put a day early |
| Calendar.CivilRoundTrip | src/algorithms/calendar.ts:36-48 | every day number from -719468 on has a valid date, which daysFromCivil maps back to it |
| Calendar.CivilFromDaysExactWhen | src/algorithms/calendar.ts:36-48 | civilFromDays names the right day exactly from there on and on the last day of each earlier era, and the following one otherwise; what it then names is a real date exactly when that following day is not a 1 March, else the day after the last of February |
| Calendar.EarlyDayDiffers | src/algorithms/calendar.ts:38-48 | day -719470 is 0000-02-28, and civilFromDays names 0000-02-29 |
| Calendar.EarlyDayImpossible | src/algorithms/calendar.ts:38-48 | day -719835 is 28 February of the year -1, and civilFromDays names its 29 February, which does not exist |
| Calendar.DaysRoundTrip | src/algorithms/calendar.ts:27-48 | every valid date from 0000-03-01 on round-trips the other way |
| Calendar.CivilCounts | src/algorithms/calendar.ts:36-48 | from day -719468 on, n day numbers later is n dates later |
| Calendar.Epoch | src/algorithms/calendar.ts:36-48 | day n is the n-th date after 1970-01-01, counted one calendar step at a time |
| Calendar.SuccessorCounts | src/algorithms/calendar.ts:27-34 | successive dates from 0000-03-01 on get successive numbers from daysFromCivil |
| Calendar.Fmod | src/algorithms/calendar.ts:21-24 | the two truncating remainders compose to the floored one, for negative operands too |
| CalendarPeriods.PeriodsTile | src/algorithms/calendar.ts:58-86 | calendar days, weeks and months tile time: each holds its instant, every instant of a period gives the same period, and its reset is the next start |
| CalendarPeriods.WeekTiles | src/algorithms/calendar.ts:72-79 | weeks start on the chosen weekday and last seven days |
| CalendarPeriods.MonthTiles | src/algorithms/calendar.ts:81-85 | months run from a first to the next first |
| CalendarPeriods.DayPeriod | src/algorithms/calendar.ts:66-71 | a day holds its instant, starts at local midnight and lasts 86_400_000 ms |
| CalendarPeriods.WeekPeriod | src/algorithms/calendar.ts:72-79 | a week starts at local midnight of the chosen weekday and lasts seven such days |
| CalendarPeriods.MonthPeriod | src/algorithms/calendar.ts:81-85 | a month starts at local midnight of a first and lasts as many such days as that month has |
| CalendarPeriods.EpochDay | src/algorithms/calendar.ts:13-48 | at offset 0 the n-th stretch of 86_400_000 ms from instant 0 on is the n-th date after 1970-01-01, and one calendar day |
| SpaceSaving.Observe | src/admission/analytics.ts:107-124 | one update, with its eviction of the first least slot, keeps the summary's whole invariant over the longer stream |
| SpaceSaving.ObserveKeeps | src/admission/analytics.ts:93-124 | counts sum to the stream length, each count brackets the true one within its error, unmonitored keys stay below every slot, and errors stay below every count |
| SpaceSaving.MinSlot | src/admission/analytics.ts:141-147 | the scan returns the first slot of least count |
| SpaceSaving.HeavyIsMonitored | src/admission/analytics.ts:93-98 | every key more frequent than N/capacity is monitored |
| SpaceSaving.CountIsClose | src/admission/analytics.ts:93-98 | a count never under-reports and over-reports by at most N/capacity |
| SpaceSaving.StreamSummary.Note | src/admission/analytics.ts:107-124 | the mutable summary, updated in place, tracks the ghost stream since the last clear |
| SpaceSaving.StreamSummary.Clear | src/admission/analytics.ts:130-132 | clearing forgets the stream |
| Analytics.LanesPartition | src/admission/analytics.ts:151-154 | every denial belongs to exactly one lane, the one of its own binding axis, or the policy lane where it has none |
| Analytics.LaneHeavyHitters | src/admission/analytics.ts:188-195 | a key denied on a lane more often than its share is in that lane's summary |
| Analytics.AdmissionAnalytics.Roll | src/admission/analytics.ts:206-213 | a window starts at a whole multiple of windowMs and holds its instant; its events are forgotten exactly when it is left |
| Analytics.AdmissionAnalytics.Record | src/admission/analytics.ts:215-230 | after every record all counters and six summaries are those of exactly the events of the current window |
| Analytics.AdmissionAnalytics.Analyse | src/admission/analytics.ts:249-268 | the snapshot's lane counts sum to denied, allowed + denied is the number of events, the deny rate is their quotient, and each of the six top lists ranks the window's keys with close counts and misses no heavy one |
| HeavyHitters.Top | src/admission/analytics.ts:134-139 | top() lists exactly the slots, by descending count and then by key, compared letter by letter |
| HeavyHitters.TopRanks | src/admission/analytics.ts:99-140 | so the list ranks the stream's keys: no count is too low or more than a slot's share too high, and no key above its share is missing |
| Strategy.ForgettingUnseen | src/admission/fused-lua.ts:71-73 | a store that drops keys at will once their (possibly floored) TTL is over gives, on every run with non-decreasing time, the same answers as one that never forgets, for any strategy whose writes fade within their TTL |
| Gcra.GcraForgettingUnseen | src/algorithms/gcra.ts:127-138 | instance for GCRA, with TTL max(1, ceil(newTat - now)) |
| TokenBucket.BucketForgettingUnseen | src/algorithms/token-bucket.ts:78-78 | instance for the token bucket, with the full refill time as TTL |
| FixedWindow.FixedForgettingUnseen | src/algorithms/fixed-window.ts:112-114 | instance for the fixed window, with the rest of the window as TTL |
| FixedWindow.QuotaForgettingUnseen | src/algorithms/quota.ts:249-250 | instance for the quota, with the rest of the period as TTL |
| SlidingLog.LogForgettingUnseen | src/algorithms/sliding-window-log.ts:118-129 | instance for the sliding log, with the window as TTL |
| LeakyBucket.ShaperForgettingUnseen | src/algorithms/leaky-bucket.ts:155-161 | instance for the shaper, with the rest of the wait as TTL |
| Gcra.IntervalBound | src/algorithms/gcra.ts:101-139 | on every run, even when the clock jumps back, what is admitted in [a, b] is at most burst + (b - a)/T |
| Gcra.PeriodBound | src/algorithms/gcra.ts:101-139 | in the options' own units: burst and (b - a) times limit per periodMs |
| Gcra.HintExactWhen | src/algorithms/gcra.ts:108-123 | a denial's hint is exact (denied at every shorter whole wait, admitted at it) exactly for costs up to the burst |
| Gcra.PeekIsUnitCheck | src/algorithms/gcra.ts:140-153 | peek admits and hints exactly as a check of cost 1 would |
| Gcra.ReportsExactly | src/algorithms/gcra.ts:101-138 | what a decision reports is exact of the state it leaves: remaining is the most whole units that still fit at once, and from resetAt on, not before, a whole burst is admitted |
| Gcra.PeekReportsExactly | src/algorithms/gcra.ts:140-153 | and what peek reports is exact of the state as it stands |
| Gcra.KeptUntilPassed | src/algorithms/gcra.ts:127-138 | a written arrival time is kept to the first whole millisecond after it, and for one at least |
| Gcra.Script | src/algorithms/gcra.ts:35-57 | the Lua script answers, writes and expires exactly as the check, with the limit field floored by Redis |
| TokenBucket.HintExactWhen | src/algorithms/token-bucket.ts:131-144 | while the clock has not jumped back, the hint is exact exactly for costs the bucket can hold |
| TokenBucket.ReportsExactly | src/algorithms/token-bucket.ts:102-144 | remaining is the most whole units that still fit at once, and the bucket is full again from resetAt on, and not a whole number of milliseconds earlier |
| TokenBucket.RefillsExactly | src/algorithms/token-bucket.ts:107-111 | refillPerSec tokens drip in for each second the clock moves on, up to the capacity, and none while it stands or jumps back |
| TokenBucket.KeptUntilFull | src/algorithms/token-bucket.ts:78-78 | a bucket is kept for the least number of whole milliseconds an empty one takes to fill, and for one at least |
| GcraBucket.SameAnswers | src/admission/fused-lua.ts:74-151 | GCRA and the token bucket with capacity = burst and refill = 1/T answer alike on every run with non-decreasing time: same admissions, remainders and waits, and at whole instants the same reset |
| GcraBucket.StaysCoupled | src/admission/fused-lua.ts:74-151 | the invariant: the arrival time is the bucket's instant plus the time its missing tokens take |
| GcraBucket.EveryBucketIsGcra | src/admission/fused-lua.ts:74-151 | every token bucket that holds a token has a GCRA configuration that answers as it does on every run with non-decreasing time |
| TokenBucket.IntervalBound | src/algorithms/token-bucket.ts:102-129 | the token bucket, of any capacity, admits at most capacity + rate * (b - a) in every interval of such a run |
| TokenBucket.PerSecondBound | src/algorithms/token-bucket.ts:102-129 | in the options' own units: the capacity and refillPerSec for each second of the interval |
| WindowCounter.PeriodBound | src/algorithms/quota.ts:229-266 | for any tiling periods, each period admits at most the limit on every run with non-decreasing time |
| WindowCounter.AdmitsExactlyWhen | src/algorithms/quota.ts:229-266 | a request is admitted exactly when what its period admitted so far and the request make at most the limit |
| WindowCounter.ReportsExactly | src/algorithms/quota.ts:229-266 | remaining is the most whole units that still fit into the period, a whole instant lies in the period exactly before resetAt, and the count is kept to the end of the period or for a millisecond |
| WindowCounter.OtherPeriodForgotten | src/algorithms/quota.ts:236-242 | a count of any other period, earlier or later, changes no answer |
| WindowCounter.HintExactWhen | src/algorithms/quota.ts:255-265 | and a denial's hint is exact exactly for costs up to the limit |
| WindowCounter.Script | src/algorithms/fixed-window.ts:36-56 | the script admits, counts and writes as the check does; its truncated reset equals the check's rounded-up one exactly when the reset is whole or negative, and the key outlives the period by less than a millisecond |
| WindowCounter.ScriptResetDiffers | src/algorithms/fixed-window.ts:36-56 | a period that ends at 1.5 ms: the check reports 2 as the reset, the script 1 |
| FixedWindow.CellsTile | src/algorithms/fixed-window.ts:96-97 | equal windows tile all of time, from any anchor |
| FixedWindow.FixedPeriod | src/algorithms/fixed-window.ts:96-97 | a fixed window starts at a whole multiple of windowMs, lasts windowMs and holds its instant |
| FixedWindow.TwiceTheLimit | src/algorithms/fixed-window.ts:62-65 | at most twice the limit in any half-open interval of one window's length, on every run |
| FixedWindow.TwiceIsReached | src/algorithms/fixed-window.ts:62-65 | and a run reaches exactly twice the limit, for every limit and window |
| FixedWindow.FixedHintExactWhen | src/algorithms/fixed-window.ts:118-129 | the fixed window's hint is exact exactly for costs up to the limit |
| FixedWindow.FixedAdmitsExactlyWhen | src/algorithms/fixed-window.ts:94-130 | the fixed window admits exactly what its window of now, counted over the whole run, has room for |
| FixedWindow.QuotaTiles | src/algorithms/quota.ts:206-212 | quota periods tile time for the anchored cadence and all calendar cadences, months from 0000-03-01 local time on |
| FixedWindow.AnchoredPeriod | src/algorithms/quota.ts:206-209 | an anchored period starts a whole number of periods from its anchor and lasts one |
| FixedWindow.CalendarQuotaPeriod | src/algorithms/quota.ts:206-212 | a calendar quota's periods are the days, the weeks from the chosen weekday and the months of local time at the given offset in minutes |
| FixedWindow.QuotaBound | src/algorithms/quota.ts:229-266 | each quota period admits at most the limit on every run |
| FixedWindow.QuotaHintExactWhen | src/algorithms/quota.ts:255-265 | the quota's hint is exact exactly for costs up to the limit |
| FixedWindow.QuotaAdmitsExactlyWhen | src/algorithms/quota.ts:229-266 | a quota admits exactly what the period of now, counted over the whole run, has room for |
| SlidingLog.Check | src/algorithms/sliding-window-log.ts:97-159 | check with its scan and its push loop computes the modelled decision and log |
| SlidingLog.StaysSorted | src/algorithms/sliding-window-log.ts:97-131 | the stored log stays ascending, no later than the clock and no longer than the limit |
| SlidingLog.WindowBound | src/algorithms/sliding-window-log.ts:74-78 | no half-open window of windowMs, trailing or not, ever holds more than the limit of accepted units |
| SlidingLog.AdmitsExactlyWhen | src/algorithms/sliding-window-log.ts:97-131 | a request is admitted exactly when the units accepted in the window that ends at its instant leave room for it |
| SlidingLog.ReportsExactly | src/algorithms/sliding-window-log.ts:97-159 | remaining is the most whole units that still fit at once, and resetAt the first whole instant at which the oldest live stamp has left the window |
| SlidingLog.ReportedHintExactWhen | src/algorithms/sliding-window-log.ts:132-143 | the hint reported to a denied, satisfiable cost is exact just when the limit is whole, the oldest live stamp decides, or the wait for the deciding stamp rounds up to the whole window |
| SlidingLog.WholeLimitHintExactWhen | src/algorithms/sliding-window-log.ts:132-143 | with a whole limit a denial's hint is exact exactly for costs the limit can hold |
| SlidingLog.FractionalLimitHint | src/algorithms/sliding-window-log.ts:137-142 | with a limit of 2.5 a hint of a whole window is reported although a shorter wait is enough |
| SlidingLogScript.Script | src/algorithms/sliding-window-log.ts:28-72 | the script with its ZADD loop and its expiry computes the modelled reply and sorted set, or fails where Redis refuses a fractional index |
| SlidingLogScript.NameIsFresh | src/algorithms/sliding-window-log.ts:22-27 | every member name the script generates is fresh |
| SlidingLogScript.AddsStamps | src/algorithms/sliding-window-log.ts:41-43 | so the loop adds exactly one member per unit |
| SlidingLogScript.SameAnswers | src/algorithms/sliding-window-log.ts:28-159 | on every run with non-decreasing time and for every limit, the sorted-set script answers as the list form does, with fractions dropped, and fails on exactly the denials whose index is fractional |
| SlidingLogScript.SameWholeAnswers | src/algorithms/sliding-window-log.ts:28-159 | with a whole limit and window it answers every request exactly as the list form |
| LeakyBucket.HintExact | src/algorithms/leaky-bucket.ts:147-154 | a rejection's hint is the least whole wait, for every cost and every clock |
| LeakyBucket.DeparturesPaced | src/algorithms/leaky-bucket.ts:155-160 | accepted departures of every run are at least the earlier one's share of time apart |
| LeakyBucket.DeparturesKeepRate | src/algorithms/leaky-bucket.ts:116-160 | that share is 1000 * cost / ratePerSec milliseconds |
| LeakyBucket.AcceptsExactlyWhen | src/algorithms/leaky-bucket.ts:140-161 | a request is accepted exactly when the wait until the previous departure's share has passed is within maxQueueMs; it then leaves at that instant, and its delay is that wait rounded up |
| LeakyBucket.KeptUntilDeparted | src/algorithms/leaky-bucket.ts:155-161 | a stored departure is kept to the first whole millisecond after it, and for one at least |
| LeakyBucket.WaitsWithinQueue | src/algorithms/leaky-bucket.ts:147-160 | an accepted request waits no longer than the queue allows, and long enough to reach its departure |
| LeakyBucket.Shaper.ReserveSync | src/algorithms/leaky-bucket.ts:173-219 | the shared slots are read by the reused transform as if passed to it |
| LeakyBucket.Script | src/algorithms/leaky-bucket.ts:84-100 | the Lua script answers, writes and expires as the transform |
| LeakyBucket.Sleep | src/algorithms/leaky-bucket.ts:62-78 | the timers of a chunked sleep add up to exactly the delay, none beyond 2_147_483_647 ms, all but the last at it |
| Fused.RateAxis | src/admission/fused-lua.ts:74-110 | the script's rate axis answers, writes and expires as GCRA alone |
| Fused.CostAxis | src/admission/fused-lua.ts:112-151 | the script's cost axis answers, writes and expires as the token bucket alone |
| Fused.Script | src/admission/fused-lua.ts:70-171 | one call is two independent checks. The combined answer is allowed exactly when both are, its limit and remaining are the smaller of the two and its reset and wait the larger, each without its fraction as Redis returns it; the TTL floor only lengthens a key's life |
| Fused.CombineLaws | src/core/combine.ts:24-61 | the four documented laws of the combination: associative, commutative, idempotent, and with the unused axis as identity exactly for decisions whose limit and remaining are at most its 9_007_199_254_740_991 and whose reset and wait are not negative |
| Fused.CombinedHintExact | src/admission/fused-lua.ts:153-171 | a call with satisfiable costs, asked again with both keys unchanged, passes both axes exactly from the combined hint on |
| Fused.Serve | src/admission/fused-lua.ts:36-73 | over a whole run of calls, with either key dropped at will once expired, each axis answers as a limiter of its own that never forgets, up to the fractions Redis drops |
| TokenBudget.FleetBound | src/admission/distributed-budget.ts:117-149 | any gateways, any clocks, any order: window labels never go back, each is charged at most L - 1 plus the largest debit charged to it, and the stored count is exactly what the current label was charged |
| TokenBudget.LabelAdvances | src/admission/distributed-budget.ts:186-195 | a window opened after another is over always carries a later label |
| TokenBudget.PerTokenIsExact | src/admission/distributed-budget.ts:134-135 | debiting token by token never exceeds the budget |
| TokenBudget.RefusedExactlyWhenSpent | src/admission/distributed-budget.ts:198-239 | a debit is refused exactly when its window has been charged the whole budget |
| TokenBudget.WindowOf | src/admission/distributed-budget.ts:186-195 | the stored window is used until it is over, whatever the clock says, and then a fresh one that starts at a whole multiple of windowMs and holds the instant |
| TokenBudget.ReportsExactly | src/admission/distributed-budget.ts:198-230 | a debit reports the budget, what it leaves of it and the first whole instant after its window, and its write is kept until then |
| TokenBudget.RefusedUntilOver | src/admission/distributed-budget.ts:198-217 | a refused debit, asked again with the window unchanged, is admitted exactly once the window is over |
| TokenBudget.HintIsEnough | src/admission/distributed-budget.ts:198-217 | its hint is always enough, and at a whole instant the least whole wait |
| TokenBudget.PeekIsLeft | src/admission/distributed-budget.ts:242-247 | peek reports what the charges leave of the window's budget, and something is left exactly when a debit is admitted |
| TokenBudget.Script | src/admission/distributed-budget.ts:72-96 | the hash script answers and writes as the transform on every step, and keeps the key at least until the window ends |
| TokenBudget.PeekScript | src/admission/distributed-budget.ts:98-117 | the read-only script reports what the peek transform reports |
| Leasing.StepKeepsInv | spec/README.md:23-59 | every Serve, Lease and Roll keeps: admitted + credits + left = limit + carried over, and no node holds a whole batch |
| Leasing.WindowBound | spec/README.md:3-9 | for every fleet size, limit, batch and all positive costs a window admits at most Limit + N*(Batch-1); if credits expire on the roll, at most Limit, whatever N |
| Leasing.WorstAttains | spec/README.md:113-120 | a run attains the carryover bound whenever the limit holds one batch |
| Leasing.AttainedExactlyWhen | spec/README.md:113-120 | the bound is attained exactly then, or when it is zero |
| Leasing.TooSmallToLease | spec/README.md:54-54 | with a limit below one batch nothing is ever admitted |
| Leasing.UnitBound | spec/README.md:68-69 | with unit costs the bound tightens to the whole batches of the limit plus N*(Batch-1) |
| Leasing.UnitAttainedExactlyWhen | spec/README.md:113-120 | and one-token requests attain that bound exactly when the limit holds one batch or the bound is zero |
| Leasing.LeasedTier.Check | spec/README.md:35-49 | the leased check admits exactly when the node has the cost in credits or the shared budget holds both a batch and the cost; it spends credits, or else leases a batch, or the cost where that is more, and keeps the rest, or else changes nothing |
| Admission.StepKeepsInv | src/admission/unified.ts:604-673 | every step of every interleaving keeps: slots in use are exactly those of admits being evaluated or granted and of live leases, each with one owner |
| AdmissionRuns.InflightIsHeld | src/admission/unified.ts:427-447 | over whole runs, in-flight = admits holding a slot + live leases that took one over |
| AdmissionRuns.ReturnedOnce | src/admission/unified.ts:616-673 | the count in use is the number of slots not yet returned, so no slot is ever returned twice |
| AdmissionRuns.NothingLeaks | src/admission/unified.ts:624-673 | once every call has ended and no lease is left every slot has been returned |
| AdmissionRuns.ReclaimedExactlyWhenDue | server/src/service.ts:406-432 | a sweep reclaims a lease exactly when the deadline its last mint or heartbeat promised has come |
| AdmissionRuns.CallsIsolated | src/admission/unified.ts:411-425 | over every interleaving each call's decisions and answer are those of running it alone on its own request, the bid prices in force as it entered, its concurrency decision and its axis answers |
| AdmissionRuns.AllAnsweredRightly | src/admission/unified.ts:449-496 | every call is answered allow exactly when it was granted, and then every configured axis allowed it; the answer is allowed when all that spoke allow, with the least limit and remaining and the latest reset and wait of what they said |
| AdmissionService.Service.Start | src/admission/unified.ts:604-629 | admit up to its first await, for every state: a call whose concurrency did not deny is denied by the policy exactly when prices are set and its value is below rate + cost * cost + conc * hold (with a hold and a concurrency price), its slot given back; else it awaits the first configured axis, or is granted when none is |
| AdmissionService.Service.Continue | src/admission/unified.ts:626-673 | admit from one await to the next: an allowed answer goes on to the next configured axis or grants, a denial or failure ends the call and gives the slot back, and a granted call was allowed by every configured axis |
| AdmissionService.Service.MintLease | server/src/service.ts:369-390 | a granted admission becomes a lease under a fresh id that expires a TTL after now, and takes its slot over |
| AdmissionService.Service.ReleaseLease | server/src/service.ts:397-404 | release drops the lease and its slot, and is a no-op for unknown ids |
| AdmissionService.Service.Heartbeat | server/src/service.ts:406-420 | heartbeat renews exactly the live leases among the ids and reports exactly the others as reclaimed |
| AdmissionService.Service.SweepExpired | server/src/service.ts:422-432 | sweep drops exactly the expired leases |
| Warmup.ReplayBelowDual | src/admission/unified.ts:221-246 | whatever prices a sample is replayed with, the replay is a feasible plan and earns at most the fluid dual of the sample at any prices |
| Warmup.ReplaySampleRevenue | src/admission/unified.ts:231-246 | the replay loop computes that revenue |
| Warmup.ReplayAdmitsExactlyWhen | src/admission/unified.ts:231-246 | the replay admits an arrival, in full, exactly when it clears its bid and the budgets left by those admitted before it hold it |
| Warmup.Tally | src/admission/unified.ts:510-514 | the bounded table holds each observed type's count, exactly while it is not full |
| Warmup.AdaptiveState.Refine | src/admission/unified.ts:507-550 | one observed arrival: when the window fills, the learned prices are adopted exactly when some are proposed and they earn strictly more than the prior on the whole sample |
| Warmup.AdaptiveState.PriceAll | src/admission/unified.ts:580-584 | over a whole run of arrivals the prior is live until the window fills, and from its last arrival on one choice is, never changed again |
| Warmup.Learn | src/admission/unified.ts:524-534 | the re-solve proposes prices exactly when the observed mixture, each type at its share of the sample, is a valid workload, and they minimise its dual |

## Left out

- FluidLpSolve.SolveThreeBudget: states that the three-budget plan is the list-order fill, feasible and not extendable greedily, not that it earns the reported objective, because the program's plan does not always; `FluidLpThree.EarnsExactlyWhen` says when it does.
- Reservation.DefaultStepRegret: one way only when the two costs differ, because the constant of the analysis is then not attained and the worst run is not known; `DefaultStepExactWhen` goes both ways for equal costs.
- WindowCounter.HintExactWhen: for states whose count is not negative, the only ones a run produces.
- Analytics.AdmissionAnalytics.Record: the six summaries are held as values, so sharing between summary objects is not modelled.
- IEEE rounding, the `%.17g` and `%.14g` texts of numbers in Redis, EVALSHA retries, and upper range guards such as MAX_SAFE_INTEGER.
- Forecasts, the read scripts of the limiters, and peek beyond GCRA and the token budget: each is an easy consequence of the modelled state.
- The rounded `reserve()` value, `predictiveReservation` and `adaptiveThrottle`: the bound is about the continuous iterate; the others need exponentials and randomness.
- `fairShare` and `weightedFairShare`: only their global cap holds, and it is a plain counter.
- `admitSync`: the same steps with no await in between, so one of the interleavings modelled.
- The adaptive law of the concurrency guard: its ceiling at each acquire is a parameter.
- `lowWater` refill, idle return of credits and overlapping leases of one node in leased mode: a lease is one atomic step.
- The rolling quota cadence, which is the sliding-window strategy.
- Lease ids are chosen by the environment, fresh in the table; their randomness is not modelled.
- Policy configuration, adapters, stores, transport, command line and user interface.
