# Verification of the sourcing platform's cores

A Dafny model of the parts of the platform that carry real algorithms or protocols, with proofs of what
they promise. Run `dafny verify dfyconfig.toml` here to check everything. Nothing of the original program
is executed.

| files | what they model |
|---|---|
| `Replenishment`, `Allocation`, `StableSorting` | order quantities, and spreading a budget over ranked opportunities |
| `Ensemble`, `EnsembleOptimality`, `Trend` | inverse-variance forecasts and the regression slope |
| `PagePool`, `RateLimiter`, `ProxyRotation` | the browser's page pool, token bucket and proxy rotation |
| `DeadLetters`, `EventBus`, `Filters`, `Dispatches`, `BackgroundQueue` | local event delivery, dead letters, priority filters, overlapping dispatches, background publishing |
| `TaskQueue`, `LocalTaskQueue`, `SelectionQueue` | the task queue over Redis and its in-memory fallback |
| `Experiments`, `Lifecycle`, `ExperimentRuns`, `ExperimentManager` | the experiment lifecycle and its reproducibility |
| `Statistics`, `Winner`, `Ties`, `Results`, `Replays`, `VariantKeys` | statistics by variant, the winner, reports, repeating them, repeated keys |
| `Gtin` | check digits and barcode extraction |
| `Registry` | discovery of feature computers |
| `RealMath`, `Sequences`, `Wrappers` | shared mathematics |

Objects with state are classes whose methods are tied to functions on their abstract state; whole-run
properties are lemmas about those functions. Floats are reals. Clock readings, handler outcomes, page
creation, the subject hash, p-values, the square root and generated ids are inputs; the square root is any
function with `root(x) >= 0` and `root(x) * root(x) == x` for `x >= 0`.

Where the code does something other than its comments say, the model follows the code, and the difference
is a theorem:

- greedy allocation is optimal within the budget only while no money reaches an opportunity with a negative
  key (`GreedyOptimalIff`, `GreedyFundsALoser`);
- flooring variances at 1e-9 costs optimality unless all are above it or equal (`EnsembleMinimalIff`,
  `FlooredEnsembleIsNotMinimal`);
- discarding a page that is already idle closes it and leaves it in the queue, to be handed out next; as long
  as nobody does so no page is lost (`PagesConservedIff`, `IdleDiscardIsHandedOut`);
- the rate limiter admits up to twice its rate, since a sleep is credited again (`GrantBoundIsTight`,
  `WindowBoundIsTight`); it keeps the nominal bound only for times shorter than one token's
  (`NominalRateIff`);
- Redis hands out the lowest priority number first and the last arrival first, the fallback and the task
  model's own documentation the opposite (`OppositeOrders`); they agree on at most one task
  (`BackEndsAgreeIff`);
- the retry count is never stored, so retries do not run out (`RetriesForeverIff`, `HundredFailuresRetry`),
  and a retrying task is not queued again (`NeverListedAgain`);
- a completion or final failure reported for an id that is known but not running spoils the counters
  (`CompletionAddsUpIff`, `FailureAddsUpIff`, `SecondCompletionMiscounts`, `LateFailureMiscounts`);
- a cancelled task is still dequeued and run (`CancelledIsStillDequeued`, `CancelKeepsDequeues`,
  `CancelledTaskRuns`);
- widening a priority filter can take a delivery away from a later subscriber, when a handler that now runs
  unsubscribes it (`WideningKeepsIff`, `WideningCanRemove`);
- replaying dead letters on a closed bus loses them (`ReplayPublishesOnce`, `ClosedReplayLosesLetter`);
- assignments made in draft can disagree with the hash once a variant is added (`AddVariantKeepsPureIff`,
  `DraftAssignmentNeedNotBePure`);
- an update can name a control that does not exist (`UpdateKeepsControlIff`, `ControlNeedNotExist`);
- batches keep the first measurement of a subject, single records the last (`BatchAgreesWithStreamIff`,
  `BatchNeedNotAgree`);
- the same entries read in another order give another winner exactly when contenders tie on top
  (`VerdictIsFixedIff`, `FirstOfTwinsWins`); repeating a stream under a rising clock keeps the order and with
  it the whole report (`ReplayKeepsReport`);
- creation accepts two variants with one key, and the experiment cannot be stopped once that key wins
  (`KeysStayDistinctIff`, `StopReportsIff`, `RepeatedKeyBlocksStop`);
- the leading variant is the winner, not always the top scorer (`LeaderHasTopScoreIff`,
  `LeaderNeedNotHaveTopScore`);
- the merged barcode list can lose UPCs and EANs to its cap (`GtinListsAllIff`, `MergedListCanLoseCodes`).

The order evaluation and the allocation take any budget. The application never passes a negative one
(`budget` is at least 0 at app/finance/schemas.py:170, and app/finance/manager.py:106 takes the maximum with 0),
so the halves of `CapitalWithinBudget` and `NeverOverspends` on negative budgets concern direct callers only.

## Model

| member | source | states |
|---|---|---|
| `Replenishment.EoqSquared` | app/finance/engine.py:60-71 | with positive demand, holding cost and order cost the EOQ is positive and its square times the holding cost is twice annual demand times order cost |
| `Replenishment.CostFallsTowardsEoq` | app/finance/engine.py:60-71 | below the EOQ every larger lot has a strictly smaller yearly cost |
| `Replenishment.CostRisesPastEoq` | app/finance/engine.py:60-71 | any lot above the EOQ costs strictly more per year than the EOQ |
| `Replenishment.EoqMinimisesCost` | app/finance/engine.py:60-71 | the EOQ is the one lot size of least ordering plus holding cost, among all positive lot sizes |
| `Replenishment.SmallerOrdersCostMore` | app/finance/engine.py:98-113 | with stock above the reorder point, every smaller positive order would cost strictly more per year than the recommended one, whatever truncation and caps did to it |
| `Replenishment.CapitalWithinBudget` | app/finance/engine.py:98-115 | the capital of a recommended order is never negative, and is within the given budget exactly when the budget is not negative |
| `Replenishment.OrderLiftsStockIff` | app/finance/engine.py:98-113 | with stock at or below the reorder point, the order lifts stock above it exactly when the caps leave more units than the gap and the truncated order still reaches the next whole unit past the gap |
| `Replenishment.UncappedOrderLiftsStock` | app/finance/engine.py:111-113 | an order no cap touches, with an EOQ of at least one unit, always lifts stock above the reorder point |
| `Replenishment.DemandFillsPeriod` | app/finance/engine.py:27-38 | seven days' demand is that of a week, thirty that of a month, 365 that of a year; every other period, and none, is read as a day |
| `Replenishment.VarianceFillsPeriod` | app/finance/engine.py:41-47 | the daily variances of independent days add up to the variance of the period |
| `Replenishment.SafetyCoversLeadTime` | app/finance/engine.py:50-52 | the safety stock squared is the square of z daily deviations times the lead time, and none without a lead time |
| `Replenishment.DemandOverPeriod` | app/finance/engine.py:35-38 | the daily demand of an opportunity, over the days of its period, is the demand it states |
| `Replenishment.SafetyFollowsPeriod` | app/finance/engine.py:86-88 | the safety stock of an opportunity is z deviations of its demand over its lead time, whatever the period its deviation was given for |
| `Replenishment.ReorderPointLasts` | app/finance/engine.py:55-57 | stock at the reorder point lasts through the lead time and leaves the safety stock; the days until reorder are those after which the stock is down to it |
| `Replenishment.NoLotWithoutCost` | app/finance/engine.py:60-71 | no demand, or stock that costs nothing to hold, has no economic lot |
| `Replenishment.LotHasOwnOrderCost` | app/finance/engine.py:91-96 | the economic lot of an opportunity is that of its own order cost, or else of the configured one |
| `Replenishment.CapIsLargest` | app/finance/engine.py:98-109 | the cap is the largest number of units that the budget pays for and that the configuration and the opportunity allow |
| `Replenishment.NothingToBuyWith` | app/finance/engine.py:98-106 | nothing can be bought without a price or without a budget |
| `Replenishment.OrderFillsUp` | app/finance/engine.py:111-113 | unless a limit binds the order fills the stock up to one economic lot above the reorder point, or is one lot when the stock is above it, in whole units; a limit that binds is the order; never less than none |
| `Replenishment.ProfitAndPayback` | app/finance/engine.py:115-129 | profit and payback are those given; else the margin of the units ordered, and the lead time plus the days the order takes to sell |
| `Replenishment.HoldingIsPartOfYear` | app/finance/engine.py:130-135 | held for a year a lot costs the holding part of the yearly cost that the EOQ minimises; held for less, that part of it |
| `Replenishment.EfficiencyIsReturnPerDay` | app/finance/engine.py:137-142 | with capital and payback positive, efficiency times capital times payback days is the profit times (1 - risk), and no other number is; else it is 0 |
| `StableSorting.SortIsStable` | app/finance/engine.py:187-192 | the ranking is in falling key order and keeps equal keys in their original order |
| `StableSorting.StableSortUnique` | app/finance/engine.py:187-192 | falling keys with equal keys in original order leave only one possible list, so the ranking is determined |
| `StableSorting.StableSortPermutes` | app/finance/engine.py:187-192 | a ranking holds every opportunity exactly as often as the input does |
| `Allocation.AllocateOpportunities` | app/finance/engine.py:171-233 | the loop gives the k-th ranked opportunity the amount, units, fraction and return that the allocation rule names, and allocated plus reserved is the budget |
| `Allocation.RankedByReturn` | app/finance/engine.py:182-192 | under every policy but equal and conservative an opportunity stands before another only if its profit times (1 - risk) times the other's capital and payback days is at least as large as the other way round; under the conservative policy with a second factor (1 - risk); equal keys in the order asked for |
| `Allocation.EqualKeepsOrder` | app/finance/engine.py:185-186 | the equal policy leaves the opportunities as they were asked for |
| `Allocation.PolicyIsResolved` | app/finance/engine.py:184 | the policy asked for is in force; without one, or with an empty one, the configured one |
| `Allocation.AllotmentAddsUp` | app/finance/engine.py:206-223 | units times unit cost is the amount, fraction times budget is the amount, and the return is to the amount as the profit is to the capital; nothing where a divisor is 0 |
| `Allocation.GrantInOrder` | app/finance/engine.py:194-224 | the loop over `remaining` hands out exactly the recursively defined amounts, in ranked order |
| `Allocation.AmountsFeasible` | app/finance/engine.py:197-205 | every opportunity gets between nothing and the capital it requires, under every policy |
| `Allocation.GreedyTotal` | app/finance/engine.py:194-205 | the greedy policies spend min(budget, all capital required), and nothing on a negative budget |
| `Allocation.NeverOverspends` | app/finance/engine.py:194-205 | under every policy the total is at most the budget exactly when the budget is not negative |
| `Allocation.EqualPolicyIsExact` | app/finance/engine.py:199-204 | under the equal policy each opportunity gets min(what it requires, budget / n) at its place, so the cap by what remains never binds and the order does not matter |
| `Allocation.GreedyBeatsEqualSpend` | app/finance/engine.py:187-205 | no feasible plan of the same total earns more by the ranking key than greedy, whatever the signs of the keys |
| `Allocation.GreedyBeatsWithinBudget` | app/finance/engine.py:187-205 | no feasible plan within the budget earns more than greedy when greedy's money never reaches an opportunity with a negative key |
| `Allocation.GreedyOptimalIff` | app/finance/engine.py:187-205 | greedy is optimal among all plans within the budget exactly when its money never reaches an opportunity with a negative key |
| `Allocation.GreedyFundsALoser` | app/finance/engine.py:187-205 | an opportunity evaluated to a loss gets money left over from the budget, and keeping that money would earn more |
| `Allocation.GreedyPolicyIsOptimal` | app/finance/engine.py:182-205 | the same for the efficiency and conservative policies as a whole: evaluation, ranking and granting of any opportunities with any budget that is not negative |
| `Ensemble.Forecast` | app/forecasting/ensemble.py:35-65 | refuses without supporting members; else prediction and raw confidence are the only minimisers of the sums of (x - member value)^2 / max(member variance, 1e-9) over the supporting members, the confidence is the nearest number to it in [0.05, 1], and the interval is that of the pooled variance |
| `Ensemble.CombinationFitsBest` | app/forecasting/ensemble.py:44-65 | the same of the combination rule, for any number of members |
| `Ensemble.IntervalHasVariance` | app/forecasting/ensemble.py:44-48 | an interval 2 * 1.96 deviations wide is read as the variance it was made from, and never as less than 1e-9 |
| `Ensemble.CombinationRoundTrip` | app/forecasting/ensemble.py:44-65 | read as a member's forecast, a combination has its own pooled variance again, unless that is below 1e-9 |
| `Ensemble.SupportingAppends` | app/forecasting/ensemble.py:35-41 | exactly the members that support the target are asked, in their order |
| `Ensemble.Weigh` | app/forecasting/ensemble.py:44-50 | the loop gives every member its variance and the weight that the inverse-variance rule names |
| `Ensemble.MeanBetween` | app/forecasting/ensemble.py:53-55 | the weighted prediction lies between the least and the greatest member prediction |
| `Ensemble.PooledBelowEachMember` | app/forecasting/ensemble.py:44-58 | the pooled variance is at most max(member variance, 1e-9), for every member |
| `Ensemble.CombineIsSane` | app/forecasting/ensemble.py:44-65 | prediction within the members' range and at the centre of its own interval of half-width 1.96 times the root of the pooled variance, confidence in [0.05, 1] |
| `EnsembleOptimality.VarianceSplits` | app/forecasting/ensemble.py:50-58 | the variance of any weights summing to 1 is the least possible variance plus a sum of squared gaps to the ideal weights |
| `EnsembleOptimality.MinimalIffIdeal` | app/forecasting/ensemble.py:50-58 | exactly one choice of weights summing to 1 has minimal variance: the one proportional to the inverse variances, for any number of members |
| `EnsembleOptimality.EnsembleMinimalIff` | app/forecasting/ensemble.py:44-58 | the ensemble's own weights are minimum-variance exactly when every member variance is at least 1e-9 or all are equal, and the reported variance is that of those weights |
| `EnsembleOptimality.FlooredEnsembleIsNotMinimal` | app/forecasting/ensemble.py:44-58 | two members of variances 1 and 1e-10 get weights that are not of minimal variance |
| `Trend.DenominatorPositive` | app/forecasting/base.py:144-149 | with two or more points the slope's denominator is positive, so its zero guard never fires |
| `Trend.SquaredErrorSplits` | app/forecasting/base.py:139-152 | the squared error of any line is that of the fitted line plus a non-negative cost of moving slope and intercept |
| `Trend.TrendIsLeastSquares` | app/forecasting/base.py:139-152 | the slope, with the line through the means, is the unique least-squares optimum among all lines |
| `Trend.SlopeOfProgression` | app/forecasting/base.py:139-152 | on an arithmetic progression the slope is exactly the step |
| `Trend.OptimumIsUniqueIff` | app/forecasting/base.py:139-152 | on every series that is not empty no line fits better than the slope through the means, and no other fits as well exactly when there are two points or more |
| `PagePool.PagePool.constructor` | app/browser/pool.py:40-55 | an empty pool whose size is at least 1 |
| `PagePool.PagePool.RecycleIdle` | app/browser/pool.py:160-171 | keeps exactly the pages idle for at most the limit, in order, and returns for closing exactly the others, in order |
| `PagePool.PagePool.CheckoutAttempt` | app/browser/pool.py:89-116 | one pass of the checkout loop: closes what was idle too long, then reuses the longest idle page, creates one, raises, or has to wait |
| `PagePool.PagePool.Checkin` | app/browser/pool.py:124-135 | a page in use goes to the back of the idle queue; any other page changes nothing |
| `PagePool.PagePool.Discard` | app/browser/pool.py:137-141 | the page leaves the in-use set |
| `PagePool.PagePool.Clear` | app/browser/pool.py:147-153 | the pool is empty and every page it knew is returned for closing |
| `PagePool.WaitsWhenExhausted` | app/browser/pool.py:89-116 | a pass waits only when nothing is idle and all pages are in use, and then it changed nothing |
| `PagePool.StepKeepsInv` | app/browser/pool.py:77-158 | every step of the protocol (begin, resume, expire, check in, discard, clear) keeps the bound, the order and distinctness of idle pages, their separation from pages in use, and no lost wake-up |
| `PagePool.RunKeepsInv` | app/browser/pool.py:77-158 | every run of steps, in any interleaving, keeps that invariant |
| `PagePool.ReachableIsSafe` | app/browser/pool.py:77-158 | from a new pool, in every interleaving: idle plus in use is at most the size, no page is both, idle pages are distinct, and a task still asleep means the pool is exhausted |
| `PagePool.RoomServesEveryWaiter` | app/browser/pool.py:110-135 | while there is room every waiting task has been notified, may run next, and leaves with a page unless creating one raises |
| `PagePool.HandedOutPageIsYoung` | app/browser/pool.py:89-108 | a page handed out was not in use; it is new, or the longest idle of the pages idle at most the limit |
| `PagePool.NeverHeldTwice` | app/browser/pool.py:77-135 | a page handed out is not handed out again in any run until someone checks it in |
| `PagePool.StepAccountsIff` | app/browser/pool.py:77-158 | a step leaves every page issued in exactly one of idle, in use and closed, if it was so, exactly when it does not discard an idle page |
| `PagePool.PagesConservedIff` | app/browser/pool.py:77-158 | from a new pool, in every interleaving: every page issued is in exactly one of idle, in use and closed throughout, exactly when no step discards a page that is idle |
| `PagePool.ClosedForAReason` | app/browser/pool.py:89-171 | a page gets into the closed ones only by being idle longer than the limit, by a discard of it, or by a clear that finds it idle or in use |
| `PagePool.IdleDiscardIsHandedOut` | app/browser/pool.py:137-145 | a page checked out, checked in and then discarded is closed, and the next checkout hands it out |
| `PagePool.ExpiredAreOld` | app/browser/pool.py:160-171 | the pages closed by recycling are exactly those idle for longer than the limit |
| `PagePool.YoungPageComesFirst` | app/browser/pool.py:89-108 | while an idle page is young enough a pass hands out the first such page and creates none; otherwise it hands out only the page it created |
| `PagePool.ReturnedPageIsReused` | app/browser/pool.py:89-135 | a page in use that is checked in while nothing is idle is what the next pass within the limit hands out, whatever it would have created |
| `PagePool.ReturnedPageIsLast` | app/browser/pool.py:124-135 | a page checked in goes behind those already idle, with the time it came |
| `PagePool.WaitsUntilDeadline` | app/browser/pool.py:77-122 | a task begins to wait with the deadline its timeout gives and keeps it; it gives up without a page only when the deadline has come or creating one failed |
| `PagePool.OthersKeepDeadlines` | app/browser/pool.py:124-158 | checking in, discarding and clearing change no deadline and wake everyone |
| `PagePool.ExpiredTaskLeaves` | app/browser/pool.py:117-122 | a task whose wait times out leaves, and touches nothing else |
| `RateLimiter.RateLimiter.constructor` | app/browser/rate_limiter.py:32-35 | no rate unless it is positive; the burst falls back to the truncated rate and to 1 |
| `RateLimiter.RateLimiter.Acquire` | app/browser/rate_limiter.py:47-61 | one grant: credits the elapsed time up to the burst, takes a token or sleeps off the deficit, and keeps the clock reading taken before the sleep |
| `RateLimiter.BurstAtLeastOne` | app/browser/rate_limiter.py:33 | the burst is at least 1 exactly when the caller did not pass a negative one |
| `RateLimiter.BurstByDefault` | app/browser/rate_limiter.py:32-35 | a burst that is given and not 0 counts; else the burst is the largest whole number of tokens the rate yields in a second, and at least 1 |
| `RateLimiter.RefillCreditsAll` | app/browser/rate_limiter.py:51-54 | a refill credits the whole time since the last call and spills only what a full bucket cannot hold |
| `RateLimiter.SleepEarnsTheToken` | app/browser/rate_limiter.py:55-61 | a call sleeps exactly when there is no whole token, for the time that the missing part takes at the rate, and takes exactly one token |
| `RateLimiter.TokensInRange` | app/browser/rate_limiter.py:51-61 | 0 <= tokens <= burst throughout every run |
| `RateLimiter.TokensConserved` | app/browser/rate_limiter.py:51-61 | grants + tokens left + tokens spilled = initial tokens + tokens credited for elapsed time + deficits slept off |
| `RateLimiter.RunBound` | app/browser/rate_limiter.py:51-61 | from any bucket with tokens between 0 and a burst of at least 1, a run that ends after time T has at most burst + 2 * rate * T grants |
| `RateLimiter.GrantBound` | app/browser/rate_limiter.py:40-63 | in every run with a monotone clock and burst >= 1 at most burst + 2 * rate * T grants complete within T of construction |
| `RateLimiter.GrantBoundIsTight` | app/browser/rate_limiter.py:51-59 | for every rate, burst and k some run reaches that bound at the time k tokens take, because a sleep is credited again as elapsed time |
| `RateLimiter.WindowBound` | app/browser/rate_limiter.py:40-63 | in every run at most 1 + burst + 2 * rate * T grants complete in any window of length T, wherever it lies |
| `RateLimiter.WindowBoundIsTight` | app/browser/rate_limiter.py:40-63 | for every rate, burst and k some run reaches that bound in a window as long as k tokens take |
| `RateLimiter.NominalRateIff` | app/browser/rate_limiter.py:40-63 | every run of a new limiter keeps to burst + rate * T within T of construction exactly when rate * T < 1 |
| `RateLimiter.SteadyBoundWithoutReuse` | app/browser/rate_limiter.py:51-61 | a run in which no call but the last sleeps keeps to burst + rate * T whatever T is |
| `ProxyRotation.ProxyManager.constructor` | app/browser/proxy.py:38-43 | keeps the enabled proxies in order, no failures, nobody banned, the cursor at the first |
| `ProxyRotation.ProxyManager.AdvanceTo` | app/browser/proxy.py:79-84 | the search loop stops within n steps on the next unbanned index going round and leaves the cursor just behind it |
| `ProxyRotation.ProxyManager.GetProxy` | app/browser/proxy.py:65-87 | None without proxies, an error exactly when all are banned, else the next unbanned proxy in round-robin order |
| `ProxyRotation.ProxyManager.MarkFailure` | app/browser/proxy.py:94-106 | counts the failure for the normalised url and bans it at the threshold |
| `ProxyRotation.ProxyManager.MarkSuccess` | app/browser/proxy.py:108-116 | forgets the url's failures and lifts its ban |
| `ProxyRotation.ProxyManager.ResetAll` | app/browser/proxy.py:131-134 | no failures and no bans are left |
| `ProxyRotation.BannedIff` | app/browser/proxy.py:94-116 | in every reachable state a url is banned exactly when it failed at least threshold times since its last success or the last reset |
| `ProxyRotation.RotationIsFair` | app/browser/proxy.py:79-84 | with k unbanned proxies, any k calls in a row return each of them exactly once, from the cursor on and then from 0 |
| `ProxyRotation.NobodyStarves` | app/browser/proxy.py:79-84 | however bans change, of any n calls in a row throughout which one of n proxies stays unbanned, one returns it |
| `ProxyRotation.ReportsReachTheProxy` | app/browser/proxy.py:139-154 | the url read back from what the browser was given is the url of the proxy it came from, so reports reach the right counter |
| `ProxyRotation.ServedAsConfigured` | app/browser/proxy.py:143-150 | the browser is given the proxy's address and its credentials as they are, except that empty ones are left out |
| `ProxyRotation.EnabledAppends` | app/browser/proxy.py:38-40 | the rotation of two lists is that of the first and then that of the second |
| `ProxyRotation.EnabledOne` | app/browser/proxy.py:38-40 | a single proxy is in the rotation exactly when it is enabled |
| `DeadLetters.DeadLetterQueue.Put` | app/events/dlq.py:41-46 | appends, then evicts oldest first: the last cap records remain |
| `DeadLetters.DeadLetterQueue.Purge` | app/events/dlq.py:52-66 | keeps the records of other types in order and returns how many it removed |
| `DeadLetters.PurgeSplits` | app/events/dlq.py:58-66 | a purge splits the records: kept plus removed is what was there |
| `DeadLetters.PurgeRemovesItsType` | app/events/dlq.py:52-66 | a purge of a type removes exactly the records of that type, one without a type all |
| `DeadLetters.PurgeAppends` | app/events/dlq.py:52-66 | what a purge keeps and removes of a queue is what it keeps and removes of its parts, in order |
| `DeadLetters.LettersConserved` | app/events/dlq.py:41-66 | over any history of puts and purges every record put is retained, evicted or purged, each as often as it was put, and the queue never exceeds its cap |
| `DeadLetters.CountsConserved` | app/events/dlq.py:41-66 | number put = retained + evicted + purged |
| `DeadLetters.KeepsTheNewest` | app/events/dlq.py:41-46 | without a purge the queue is exactly the last min(cap, n) records in order, the older ones evicted oldest first |
| `DeadLetters.PurgedOrEvictedForAReason` | app/events/dlq.py:41-66 | a record counts as purged only if some purge was for it, and as evicted only if more were put than the queue can hold |
| `EventBus.DeliveryEndsOnce` | app/events/bus.py:246-264 | a delivery makes between 1 and max_retries + 1 calls and ends in success at the first call that returns, else in one dead letter at the first terminal error or the last allowed failure |
| `EventBus.DispatchIsExact` | app/events/bus.py:237-244 | exactly the subscribers of the snapshot that are active and match at their turn are handled, once each and in order: those not switched off by an earlier handler of the same dispatch |
| `EventBus.DispatchDelivers` | app/events/bus.py:237-264 | each handled subscriber gets the one complete delivery its own retry limit and handler determine |
| `EventBus.DispatchWritesLetters` | app/events/bus.py:237-289 | a dispatch changes the dead letter queue by exactly the letters of its failed deliveries, in order |
| `Filters.DeliveriesRespectFilters` | app/events/bus.py:67-69 | every delivery of a publish goes to an active subscription of the event's type without a filter or with one that lists the event's priority |
| `Filters.TakersAreHandled` | app/events/bus.py:237-243 | exactly the active subscriptions of the type that have no filter or one with the priority, and that no earlier handler switched off, are handled; each once |
| `Filters.ComplementaryFilters` | app/events/bus.py:67-69 | of two active subscriptions with complementary filters that nobody switches off exactly one gets the event |
| `Filters.NewSubscriptionIsServed` | app/events/bus.py:150-243 | a new subscription comes last of its type and gets every event of that type that its filter lets through, unless an earlier handler switches it off; other types keep their subscribers |
| `Filters.WideningKeepsIff` | app/events/bus.py:237-243 | wider filters take no delivery away exactly when no handler that runs only since the widening switches off a later subscriber that was served |
| `Filters.WideningKeepsDeliveries` | app/events/bus.py:237-243 | in particular when no handler unsubscribes anyone |
| `Filters.WideningCanRemove` | app/events/bus.py:237-243 | two subscribers: without its filter the first also takes a normal event and switches off the second, which had got it |
| `Filters.RunRespectsFilters` | app/events/bus.py:67-315 | over every sequence of operations no filter changes, and every delivery went to a subscription that takes the priority of its event |
| `Filters.UnsubscribedGetsNothing` | app/events/bus.py:72-81 | after unsubscribing no operation of any sequence delivers anything to that subscription, and no other subscription changes by it |
| `Filters.ClosedDeliversNothing` | app/events/bus.py:237-340 | after closing no operation of any sequence delivers anything, admits a subscription or counts as a publish |
| `EventBus.PublishedIsValid` | app/events/bus.py:181-197 | a publish keeps subscriptions valid and writes one letter per failed delivery |
| `EventBus.StepAccounted` | app/events/bus.py:150-197 | every operation (subscribe, unsubscribe, publish, purge, replay, close) keeps the account of deliveries and letters |
| `EventBus.RunAccounted` | app/events/bus.py:150-318 | every sequence of operations keeps it |
| `EventBus.QueueMatchesLedger` | app/events/dlq.py:41-66 | the queue's contents after any operations are the retained part of the ledger of all records |
| `EventBus.DeliveriesConserved` | app/events/bus.py:237-289 | over every run of a new bus: deliveries = successes + dead letters, and dead letters = retained + evicted + purged; operations one after the other |
| `Dispatches.StepKeepsInv` | app/events/bus.py:225-289 | every step of any dispatch or caller between two awaits (begin, turn, answer of a handler, end, cancellation, subscribing, unsubscribing, purge, close) keeps the account of deliveries and dead letters |
| `Dispatches.OverlapConserved` | app/events/bus.py:225-289 | in every interleaving of dispatches from a new bus a delivery begun is under way or has ended, never both and once only; it made 1 to max_retries + 1 calls and ended well, abandoned, or with one dead letter that names it; every dead letter is retained, was evicted or was purged, and the queue keeps its cap |
| `Filters.OverlapRespectsFilters` | app/events/bus.py:67-294 | in every interleaving of dispatches a delivery is begun only of an event whose priority its subscription takes |
| `Dispatches.NoneBegunOnceLeft` | app/events/bus.py:80-81 | once a subscription is switched off no step of any run begins a delivery to it, even by a dispatch whose snapshot lists it |
| `Dispatches.LeftForGood` | app/events/bus.py:80-81 | so unsubscribing ends it for every later step |
| `Dispatches.JoinedIsListed` | app/events/bus.py:150-177 | who subscribes is last in the snapshot of every later dispatch of that type, and no other subscription changes |
| `Dispatches.ClosedForGood` | app/events/bus.py:329-334 | closing begins no dispatch and admits no subscription from then on, and leaves what is under way |
| `Dispatches.AbandonedForGood` | app/events/bus.py:225-264 | a dispatch cancelled in a call abandons that delivery without a dead letter and begins no other |
| `Dispatches.NewIsOpen` | app/events/bus.py:124-146 | a new bus is open, without deliveries or dead letters |
| `Dispatches.AloneIsPublished` | app/events/bus.py:237-289 | a dispatch that nothing interrupts is one run of these steps and leaves the bus and the deliveries that `EventBus.Published` describes |
| `EventBus.ReplayPublishesOnce` | app/events/bus.py:305-313 | a replay takes every retained letter of the type off the queue and publishes each event once; on a closed bus none is published and the letters are gone |
| `EventBus.ReplayDeliversItsLetters` | app/events/bus.py:305-313 | a replay publishes the event of each retained letter of the type, newest first, each from the bus that the publish before it left and the first from the purged bus; it ends in the last of these buses, and nothing else is delivered |
| `EventBus.ReplayReachesSubscribers` | app/events/bus.py:305-313 | on an open bus each replayed letter is delivered, in order of subscription, to exactly the subscribers active and matching before the replay that no handler of this replay switched off earlier; each delivery is one full delivery of that event |
| `EventBus.DispatchSwitchesOff` | app/events/bus.py:237-262 | a dispatch changes a subscription only by switching it off, and exactly if one of the handlers it ran does so |
| `EventBus.ClosedReplayLosesLetter` | app/events/bus.py:305-313 | a bus with one letter: the replay delivers it again, on the closed bus it delivers nothing and the letter is gone |
| `EventBus.InMemoryEventBus.constructor` | app/events/bus.py:124-146 | an open bus without subscribers |
| `EventBus.InMemoryEventBus.SubscribeHandler` | app/events/bus.py:150-177 | refused when closed, else appended to its type's list with the default retry limit filled in |
| `EventBus.InMemoryEventBus.UnsubscribeHandler` | app/events/bus.py:80-81 | the subscription is inactive from then on |
| `EventBus.InMemoryEventBus.Deliver` | app/events/bus.py:246-264 | the retry loop makes exactly the calls the delivery rule names and dead-letters exactly on failure |
| `EventBus.InMemoryEventBus.TakeTurn` | app/events/bus.py:241-243 | one subscriber's turn: delivered to if active and matching at that moment, else skipped |
| `EventBus.InMemoryEventBus.Dispatch` | app/events/bus.py:237-244 | refused when closed, else the loop over the snapshot performs exactly the specified dispatch and counts one publish |
| `EventBus.InMemoryEventBus.PublishEvent` | app/events/bus.py:181-197 | a given priority replaces the event's own before the dispatch; the event's id is returned |
| `EventBus.InMemoryEventBus.ReplayDeadLetters` | app/events/bus.py:305-313 | purges first, then publishes the letters newest first, and returns their number unless the bus is closed |
| `EventBus.InMemoryEventBus.CloseBus` | app/events/bus.py:334-337 | the bus is closed |
| `SelectionQueue.FifoWithinKey` | app/events/bus.py:199-233 | over any interleaving of puts and takes, what was put with one key is what was taken with it followed by what waits with it, in order |
| `SelectionQueue.ItemsConserved` | app/events/bus.py:199-233 | nothing put is lost or taken twice |
| `SelectionQueue.DrainAfterPuts` | app/events/bus.py:199-233 | once puts stop, the remaining takes are the stable sort of what waited |
| `SelectionQueue.DrainIsStableSort` | app/agent/queue.py:156-169 | repeatedly taking the first greatest element is a stable sort |
| `BackgroundQueue.LeastIsFirstMax` | app/events/bus.py:199-212 | in the order of publication, the least (priority, number) tuple is the first of the most urgent entries |
| `BackgroundQueue.MostUrgentIsHandedOut` | app/events/bus.py:225-233 | no waiting event has a lower priority number than the one handed out, and among those with the same number it was queued first |
| `BackgroundQueue.RunsInOrder` | app/events/bus.py:209-212 | in every reachable state sequence numbers never repeat and entries of one priority are handed out in the order they were published |
| `BackgroundQueue.EachGetIsLeast` | app/events/bus.py:199-233 | after any puts and gets the next get hands out the unique least (priority, number), and no two waiting entries agree in both, so events are never compared |
| `BackgroundQueue.WorkersDrainInOrder` | app/events/bus.py:225-233 | once publishing stops the workers receive the rest as a stable sort by priority, in strict tuple order, and in the end every published entry exactly once |
| `BackgroundQueue.BackgroundBus.constructor` | app/events/bus.py:139-146 | an open bus whose workers are not started |
| `BackgroundQueue.BackgroundBus.StartBackground` | app/events/bus.py:214-223 | refused when closed; starting twice starts no more workers |
| `BackgroundQueue.BackgroundBus.PublishAsync` | app/events/bus.py:199-212 | refused before the workers are started; else the event, with its priority overridden, is queued under the next number, on a closed bus too |
| `BackgroundQueue.BackgroundBus.Get` | app/events/bus.py:225-233 | a worker removes exactly the least tuple; nothing is taken from an empty queue or without workers |
| `BackgroundQueue.BackgroundBus.Close` | app/events/bus.py:334-343 | the bus is closed and its workers are gone; started bit, queue and numbering stay |
| `TaskQueue.RedisTaskQueue.constructor` | app/agent/queue.py:44-46 | all lists, sets and counters are empty |
| `TaskQueue.RedisTaskQueue.Enqueue` | app/agent/queue.py:69-91 | stores the task, pushes its id at the head of its level's list, marks it pending, counts it |
| `TaskQueue.RedisTaskQueue.Dequeue` | app/agent/queue.py:120-154 | pops the head of the lowest-numbered non-empty list and moves the id from pending to running, or returns None |
| `TaskQueue.RedisTaskQueue.Complete` | app/agent/queue.py:180-190 | a known task is marked successful, leaves the running set and is counted; an unknown id changes nothing |
| `TaskQueue.RedisTaskQueue.Fail` | app/agent/queue.py:206-244 | retrying writes only the two retry keys; failing for good stores the status, leaves the running set and is counted |
| `TaskQueue.RedisTaskQueue.Cancel` | app/agent/queue.py:281-294 | only a pending task is cancelled; its id leaves the pending set but not its list |
| `TaskQueue.RedisTaskQueue.Clear` | app/agent/queue.py:296-305 | with pending ids: their data, the pending set and all lists are deleted; without any, nothing is |
| `TaskQueue.StepKeepsInv` | app/agent/queue.py:69-305 | every allowed operation keeps each id in exactly one place, its stored status in agreement with that place, and the counters exact |
| `TaskQueue.RunKeepsInv` | app/agent/queue.py:69-305 | so does every run of allowed operations |
| `TaskQueue.TasksConserved` | app/agent/queue.py:69-305 | in every reachable state enqueued = waiting in lists + running + completed + failed + dropped, no id waits twice or waits and runs, and pending ids are among those waiting |
| `TaskQueue.StoredDataTellStory` | app/agent/queue.py:69-294 | over every allowed run from an empty store the stored status, worker, attempts, result and error of a task are what its callers asked for, reported, or were told last |
| `TaskQueue.ClearForgetsPending` | app/agent/queue.py:296-308 | a clear forgets exactly the pending tasks and returns how many; if there are any no list holds anything any more, otherwise nothing changes |
| `TaskQueue.CompletionAddsUpIff` | app/agent/queue.py:180-190 | completing an id keeps that equation exactly when the id is running or unknown |
| `TaskQueue.FailureAddsUpIff` | app/agent/queue.py:206-244 | a failure report keeps it exactly when the id is running or unknown or the report leads to a retry |
| `TaskQueue.SecondCompletionMiscounts` | app/agent/queue.py:180-190 | a task enqueued, dequeued and completed adds up; completing it a second time breaks the equation |
| `TaskQueue.LateFailureMiscounts` | app/agent/queue.py:206-244 | nor does it add up when a final failure is reported after the completion; a failure to be retried leaves it |
| `TaskQueue.NeverListedAgain` | app/agent/queue.py:120-154 | an id that left the lists never stands in one again |
| `TaskQueue.RetriesForeverIff` | app/agent/queue.py:218-242 | none of any number of failure reports that want a retry is final exactly when the stored count plus one is below the limit |
| `TaskQueue.HundredFailuresRetry` | app/agent/queue.py:218-242 | a hundred failures of a task with three retries, none final; the first failure of a task with one retry is |
| `TaskQueue.RetriesNeverRunOut` | app/agent/queue.py:218-237 | because the increased count is not stored with the task, a task that may be retried once is retried however often it fails, always as the same attempt with the same delay, and stays in the running set |
| `TaskQueue.StoredCountFrozen` | app/agent/queue.py:206-244 | no run of allowed operations changes the stored count or limit of a task that has neither failed for good nor been deleted |
| `TaskQueue.StaysOver` | app/agent/queue.py:206-244 | a task that failed for good, or whose data was deleted, stays so |
| `TaskQueue.CancelledIsStillDequeued` | app/agent/queue.py:281-294 | cancelling never changes what the next dequeue returns: a cancelled task comes out running |
| `TaskQueue.CancelCommutesWithDequeue` | app/agent/queue.py:281-294 | cancelling before or after a dequeue returns the same task and leaves the same store |
| `TaskQueue.CancelKeepsDequeues` | app/agent/queue.py:281-294 | cancelling changes nothing that any number of later dequeues return |
| `TaskQueue.CancelledTaskRuns` | app/agent/queue.py:281-294 | the only task is cancelled, and the next dequeue returns it running |
| `TaskQueue.CancelSaysSo` | app/agent/queue.py:281-294 | a cancellation answers whether it changed anything, which it does exactly for a pending task |
| `TaskQueue.PopsTheFirst` | app/agent/queue.py:126-135 | the blocking pop takes the first id of the lists read in order of level |
| `TaskQueue.DrainOrder` | app/agent/queue.py:120-154 | draining hands out exactly the waiting ids: lowest-numbered list first, each list from its head |
| `LocalTaskQueue.LocalQueue.constructor` | app/agent/queue.py:44-46 | the fallback queue is empty |
| `LocalTaskQueue.LocalQueue.EnqueueLocal` | app/agent/queue.py:93-98 | appends the task, with a generated id if it has none |
| `LocalTaskQueue.LocalQueue.DequeueLocal` | app/agent/queue.py:156-169 | the index scan takes out the first task of the highest priority number, marked running |
| `LocalTaskQueue.LocalQueue.ClearLocal` | app/agent/queue.py:306-308 | empties the queue and returns how many it held |
| `LocalTaskQueue.LocalDrain` | app/agent/queue.py:156-169 | the fallback drains as a stable sort of the arrivals: highest priority number first, first in first out among equals, every task once |
| `LocalTaskQueue.ListsAreStacks` | app/agent/queue.py:81-83 | after any arrivals each Redis list holds its level's ids, last arrival at the head |
| `LocalTaskQueue.OppositeOrders` | app/agent/queue.py:120-169 | Redis and the fallback serve the same arrivals in exactly opposite orders |
| `LocalTaskQueue.BackEndsAgreeIff` | app/agent/queue.py:120-169 | with distinct ids the two serve the same order exactly when there is at most one task |
| `Experiments.UpsertLookup` | app/experiments/repository.py:167-189 | updating a subject's row or inserting one changes that subject's lookup and no other |
| `Experiments.CreatedIsInv` | app/experiments/manager.py:111-164 | a created experiment is a draft that satisfies the invariant |
| `Experiments.CreatedHasControl` | app/experiments/manager.py:131-163 | a created experiment has the control variant it names, and at most one variant over the limit |
| `Lifecycle.CreatedAsAsked` | app/experiments/manager.py:111-164 | a new experiment has the configuration asked for and the variants asked for, a control first and the others in order, and one more exactly when the control named is not among them; refused exactly when creation is switched off, there are too many variants, or two of them carry the key of the control named |
| `Lifecycle.ControlComesFirst` | app/experiments/manager.py:136-140 | the first variant marked as control is moved to the front, the others keep their order |
| `Lifecycle.AddedIff` | app/experiments/manager.py:166-194 | a variant is added exactly in draft, below the limit, under a key that is not taken, and not as a second control; it comes last, and names the control if it is marked as one |
| `Lifecycle.LastUpdateWins` | app/experiments/manager.py:196-208 | after any number of updates in draft each of the four fields holds the value given last, and nothing else changes |
| `Lifecycle.UpdateRefusedIff` | app/experiments/manager.py:196-201 | an update is refused exactly outside draft |
| `Lifecycle.StatusMoves` | app/experiments/manager.py:210-258 | the status moves only from draft or running to running and from running to stopped; times and code version are those of the last start and of the stop |
| `Lifecycle.SnapshotIsFaithful` | app/experiments/manager.py:218-239 | in every state outside draft the snapshot tells the configuration and the variants, entry by entry |
| `Experiments.UpdateKeepsControlIff` | app/experiments/manager.py:196-208 | an update keeps the control present exactly when it names no control or an existing variant; the key is not checked |
| `Experiments.ControlNeedNotExist` | app/experiments/manager.py:196-247 | an update to a key nobody created is accepted and the experiment starts with that control |
| `Experiments.AddVariantKeeps` | app/experiments/manager.py:166-194 | adding a variant keeps the invariant |
| `Experiments.AssignKeeps` | app/experiments/manager.py:262-278 | assigning keeps the invariant, gives the subject a variant, and changes no other assignment and no existing one |
| `Experiments.RecordKeeps` | app/experiments/manager.py:280-322 | recording keeps the invariant |
| `Experiments.StepKeepsInv` | app/experiments/manager.py:166-322 | every operation keeps it: one assignment and one observation per subject, the observation of the assigned variant, none in draft, and outside draft the snapshot equals the live configuration and variants |
| `Experiments.StepIsForward` | app/experiments/manager.py:166-322 | no operation moves the status back, changes or removes an assignment, or changes the subject or variant of an observation; outside draft configuration and variants are fixed |
| `Experiments.RunKeepsInv` | app/experiments/manager.py:166-322 | both hold over every run of operations |
| `Experiments.ReachableIsInv` | app/experiments/manager.py:111-322 | both hold for every experiment the manager creates and then works on in any way; in particular it is never archived |
| `Experiments.AddVariantKeepsPureIff` | app/experiments/manager.py:262-278 | a variant added in draft leaves assignments a function of seed and subject exactly when no assigned subject hashes elsewhere in the longer list |
| `Experiments.DraftAssignmentNeedNotBePure` | app/experiments/manager.py:262-278 | a subject assigned in draft and a second variant added: the assignment is no longer the hashed one |
| `Experiments.StepKeepsPure` | app/experiments/manager.py:262-278 | every other operation leaves them so |
| `Experiments.StartedStaysPure` | app/experiments/engine.py:244-255 | from a started experiment with such assignments every run keeps them so |
| `ExperimentRuns.FinalAssignment` | app/experiments/manager.py:262-278 | whatever is done to a started experiment: an assigned subject keeps its variant, a touched one gets the variant its hash picks, no other is assigned |
| `ExperimentRuns.SeedDecides` | app/experiments/manager.py:262-278 | a subject without a variant that is touched by anything ends with the variant at the position that the hash of the experiment's seed and the subject leaves modulo the number of variants |
| `ExperimentRuns.EveryPositionIsReached` | app/experiments/engine.py:244-255 | every position is reached by some hash |
| `ExperimentRuns.SameSeedSamePosition` | app/experiments/engine.py:244-255 | experiments with one seed and equally many variants give a subject the same position, whatever else differs |
| `ExperimentRuns.SeedsAreToldApart` | app/experiments/engine.py:244-255 | for two seeds and two variants or more some hash gives different positions |
| `ExperimentRuns.OrderDoesNotMatter` | app/experiments/manager.py:262-322 | two runs of a started experiment that touch the same subjects end with the same assignments |
| `ExperimentRuns.LastWins` | app/experiments/manager.py:280-322 | after a stream of records each subject holds its last measurement, and others hold what they held |
| `ExperimentRuns.NoNewRows` | app/experiments/manager.py:297-322 | recording subjects that have a row already adds no row and no assignment |
| `ExperimentRuns.ReplayIsIdempotent` | app/experiments/manager.py:280-322 | recording a whole stream twice leaves what recording it once leaves, except the times of the observations |
| `ExperimentRuns.BatchAgreesWithStreamIff` | app/experiments/manager.py:324-338 | a batch keeps each subject's first measurement, a stream of records the last; the two agree exactly when every subject's first and last agree |
| `ExperimentRuns.BatchNeedNotAgree` | app/experiments/manager.py:324-338 | one subject measured twice: the batch stores the first measurement, the stream the second |
| `ExperimentRuns.BatchRefusedIff` | app/experiments/manager.py:324-338 | on a started experiment a batch is refused exactly when it is over the limit, and otherwise the first measurement of each subject is stored |
| `ExperimentManager.ExperimentManager.constructor` | app/experiments/manager.py:88-92 | a manager without experiments |
| `ExperimentManager.ExperimentManager.CreateExperiment` | app/experiments/manager.py:111-164 | control variant first, the control key taken from it if none is given, a control added if the named one is missing; refused when disabled or over the limit |
| `ExperimentManager.ExperimentManager.AddVariant` | app/experiments/manager.py:166-194 | only in draft, within the limit, no second control, no key twice |
| `ExperimentManager.ExperimentManager.UpdateExperiment` | app/experiments/manager.py:196-208 | only in draft; only the given fields change |
| `ExperimentManager.ExperimentManager.Start` | app/experiments/manager.py:210-247 | from draft or running, with at least one variant: running, with a snapshot of the live configuration |
| `ExperimentManager.ExperimentManager.Stop` | app/experiments/manager.py:249-258 | only from running; the experiment is stopped and a report on its verdict stored and returned; if the report fails nothing is stored |
| `ExperimentManager.ExperimentManager.MakeReport` | app/experiments/manager.py:415-473 | a report on the verdict for an experiment in any status, stored after the earlier ones |
| `ExperimentManager.ExperimentManager.LatestReport` | app/experiments/manager.py:475-479 | what the last successful stop or report on the experiment returned, unless it was deleted since; an error if there was none |
| `ExperimentManager.LatestIsLastMade` | app/experiments/manager.py:475-479 | over any history of reports made and experiments deleted, the last report stored is the one made last |
| `ExperimentManager.ReportsAreKept` | app/experiments/manager.py:415-473 | every report made for an experiment since it was last deleted is stored, in order, and no other |
| `ExperimentManager.ExperimentManager.Assign` | app/experiments/manager.py:262-278 | returns the stored variant of the subject, or stores and returns the one its hash picks |
| `ExperimentManager.ExperimentManager.Record` | app/experiments/manager.py:280-322 | only running or stopped; assigns first if need be, then updates the subject's row in place or inserts it |
| `ExperimentManager.ExperimentManager.WriteObservation` | app/experiments/manager.py:297-321 | the update-or-insert of one observation row |
| `ExperimentManager.ExperimentManager.RecordMany` | app/experiments/manager.py:324-338 | the loop with its set of seen subjects records exactly the first measurement of each subject, and refuses over-long batches whole |
| `ExperimentManager.ExperimentManager.DeleteExperiment` | app/experiments/manager.py:528-529 | the experiment and its reports are gone; whether it existed is returned |
| `Statistics.ConfusionMetrics` | app/experiments/engine.py:263-277 | the loop counts the four kinds of pair over the shorter list |
| `Statistics.CountersAreExact` | app/experiments/engine.py:263-277 | each counter counts its own kind of pair and together they count every pair once |
| `Statistics.F1Between` | app/experiments/engine.py:278-281 | precision, recall and accuracy lie in [0, 1] and F1 between precision and recall |
| `Statistics.SharesOfPairs` | app/experiments/engine.py:278-283 | precision times the number predicted is the true positives, recall times the number true is the true positives, accuracy times all pairs is the pairs predicted rightly; each is 0 where there is nothing to divide by |
| `Statistics.F1CountsTwice` | app/experiments/engine.py:283 | F1 times (2 tp + fp + fn) is 2 tp |
| `Statistics.SpreadByMoments` | app/experiments/engine.py:301-310 | the mean balances the values; the variance times n - 1 is the sum of the squares less that of the mean, and 0 below two values |
| `Statistics.SummaryOfOne` | app/experiments/engine.py:326-351 | the summary of one observation, field by field |
| `Statistics.GivenNext` | app/experiments/engine.py:329-335 | one more observation adds its value, if it has one, at the end of the values summarised, field by field |
| `Statistics.GroupByVariant` | app/experiments/engine.py:323-325 | the dictionary of groups holds each variant's observations in order, its keys in order of appearance |
| `Statistics.VariantStats` | app/experiments/engine.py:313-351 | one entry per variant seen, summarising exactly that variant's observations |
| `Statistics.StatsPartition` | app/experiments/engine.py:323-351 | keys are distinct, every observation is in its own key's group and no other, and the group sizes add up |
| `Statistics.ConfusionCountsObservations` | app/experiments/engine.py:335-337 | when every observation carries both labels or neither, the counters count observations |
| `Statistics.CountersOfLabels` | app/experiments/engine.py:334-336 | there are counters exactly when both labels occur; they count the pairs of the first, second and so on of each label as long as there are both |
| `Statistics.LabelsNext` | app/experiments/engine.py:329-335 | each list of labels passes over the observations without its own label; successes count one by one |
| `Winner.UpliftFollowsScore` | app/experiments/engine.py:359-430 | against one control, a higher uplift is the same as a higher score, for every metric |
| `Winner.UpliftRebuildsScore` | app/experiments/engine.py:359-421 | the control's score and the uplift give the variant's score back: as a part of it for conversion where the control converts at all, else as a difference |
| `Winner.ScoreMeans` | app/experiments/engine.py:424-430 | the score is the share of successes, the mean of the metric's own values, or the metric's own share of the label pairs, and 0 without pairs |
| `Winner.ComparedBy` | app/experiments/engine.py:359-421 | which test a variant is compared by: means and variances for values, shares for the rest, the variant's figures before the control's; none where a sample is too small, and none for F1 |
| `Winner.LabelsComparedBy` | app/experiments/engine.py:375-389 | labelled metrics compare the true positives among those predicted, or among the true ones, or those predicted rightly among all observations |
| `Winner.CandidateIff` | app/experiments/engine.py:359-463 | a candidate is a variant other than the control that can be compared, scores higher, and has a p-value below alpha unless the metric is F1 |
| `Winner.ContestIsAsked` | app/experiments/engine.py:446-451 | the contest is against the entry that carries the control's key, if one does |
| `Winner.TopScorer` | app/experiments/engine.py:450-452 | the first variant of the highest score |
| `Winner.CompareAll` | app/experiments/engine.py:455-473 | the loop collects the comparison of every variant that has one; a best candidate exists exactly when some variant is significantly better than the control, and is the first that none beats by (uplift, score) |
| `Winner.ComparisonsAreExact` | app/experiments/engine.py:455-461 | the comparisons are keyed by exactly the variants that are not the control and can be tested, each with its own comparison |
| `Winner.DetermineWinner` | app/experiments/engine.py:433-477 | the verdict names that candidate as winner and leader, else no winner and the top scorer as leader, and lists the comparisons |
| `Winner.WinnerIsBest` | app/experiments/engine.py:433-477 | a winner is named exactly when a variant is significantly better than the control; it is not the control, outscores it, tops all significant variants, and has p below alpha except for F1, which always reports confidence 0 |
| `Winner.WinnerConfidence` | app/experiments/engine.py:433-477 | with p-values in [0, 1] a confidence is reported exactly for a winner, lies in [0, 1], and is above 1 - alpha unless the metric is F1 |
| `Winner.LeaderHasTopScoreIff` | app/experiments/engine.py:445-477 | the leading variant has the top score exactly when no variant is significantly better than the control or one that is has the top score |
| `Winner.LeaderNeedNotHaveTopScore` | app/experiments/engine.py:445-477 | a concrete case in which the leading variant does not have the top score |
| `Winner.OrderOnlyBreaksTies` | app/experiments/engine.py:463-477 | over the same entries in any order both verdicts name a winner or neither does, with the same score |
| `Results.LoadStats` | app/experiments/manager.py:563-577 | the statistics are those of the newest 100000 observations, under the keys of their variants |
| `Results.GenerateReport` | app/experiments/manager.py:415-473 | the report is that of a verdict on those statistics: winner, label, confidence, impacts against the control and confusion numbers |
| `Results.ReportTellsVerdict` | app/experiments/manager.py:415-473 | every report tells the verdict on the statistics of the loaded observations: winner, its label, confidence, the differences of winner or leader from the control, and its confusion numbers |
| `Results.LoadsNewest` | app/experiments/manager.py:563-567 | up to 100000 observations are loaded, newest first, each as often as it is stored |
| `Results.ViewNamesVariant` | app/experiments/manager.py:567-575 | an observation is counted under the key of its variant with its own measures |
| `Results.MissingVariantIsUnknown` | app/experiments/manager.py:572 | and under "?" when its variant is gone |
| `Results.ReportSpeaksOf` | app/experiments/manager.py:415-473 | the report tells the verdict, how far the winner, or else the leader, is from the control in mean profit and mean return, and its precision, recall and errors |
| `Results.ReportWithoutControl` | app/experiments/manager.py:424-435 | without a control among the entries it tells the verdict alone |
| `Results.LabelNamesWinner` | app/experiments/manager.py:557-561 | a winner is called by the label of the one variant that has its key |
| `Results.UnknownKeyNamesItself` | app/experiments/manager.py:557-561 | and by its key if none has |
| `Results.WinnerHasImpact` | app/experiments/manager.py:424-435 | a winner decided on profit is reported with a positive profit impact, one decided on return with a positive return impact |
| `Results.EntryPermutes` | app/experiments/engine.py:313-351 | the summary of a group does not depend on the order of its observations |
| `Results.StatsPermute` | app/experiments/engine.py:313-351 | the same observations in any order give the same entries |
| `Ties.VerdictIsShared` | app/experiments/engine.py:433-477 | over the same entries in any order both verdicts name a winner or neither does, both a leader or neither, and the leaders have the same score, with a control or without; the verdicts are equal when no two contenders tie on top |
| `Ties.ListedFirstWins` | app/experiments/engine.py:433-477 | a contender with the top score that is read first gets the verdict |
| `Ties.VerdictIsFixedIff` | app/experiments/engine.py:433-477 | all orders of reading the entries lead to the same verdict exactly when no two contenders share the top score; contenders are the significantly better variants, or all variants if there are none |
| `Ties.FirstOfTwinsWins` | app/experiments/engine.py:433-477 | two tested variants with the same mean profit listed both ways: the winner is another |
| `Replays.ResultsIgnoreTimes` | app/experiments/manager.py:415-473 | experiments that differ only in the times of their observations, and so in the order of loading them, have the same outcome up to ties, and the same verdict and report without a tie on top |
| `Replays.ReplayKeepsResults` | app/experiments/manager.py:280-338 | whatever the clock does, recording a whole stream again changes neither whether there is a winner nor the score of the leading variant, and without a tie on top neither verdict nor report |
| `Replays.ReportIsUnique` | app/experiments/manager.py:415-473 | the observations as loaded, the variants and the configuration leave one possible report |
| `Replays.LastTimeWins` | app/experiments/manager.py:280-322 | after a stream of records each of its subjects holds the time of its last measurement, others the time they held |
| `Replays.LoadsAlike` | app/experiments/manager.py:563-577 | rows alike but for their times, recorded in the same order, are loaded alike |
| `Replays.ReplayKeepsViews` | app/experiments/manager.py:280-338 | when both clocks order the measurements alike, recording a whole stream again leaves the loaded observations as they were, in their order |
| `Replays.ReplayKeepsReport` | app/experiments/engine.py:3-5 | the same winner, confidence, impact and report every time: under a rising clock recording a whole stream again leaves the report as it was, for any labels, number of rows and ties |
| `VariantKeys.CreatedDiffersIff` | app/experiments/manager.py:131-163 | a new experiment has distinct variant keys exactly when the request had |
| `VariantKeys.KeysStayDistinctIff` | app/experiments/manager.py:111-194 | so in every state the experiment can reach |
| `VariantKeys.StopReportsIff` | app/experiments/manager.py:249-258 | stopping a running experiment yields a report exactly when the winner, if there is one with a key that is not empty, shares its key with no other variant |
| `VariantKeys.DistinctKeysAlwaysReport` | app/experiments/manager.py:415-473 | with distinct keys requested no report on the experiment fails, in any state it can reach |
| `VariantKeys.RepeatedKeyBlocksStop` | app/experiments/manager.py:249-258 | an experiment created with one key twice, started and measured for two subjects cannot be stopped |
| `Gtin.GtinChecksumValid` | app/documents/fields.py:29-44 | accepts exactly the strings of at least eight digits whose alternately weighted sum, check digit included, is a multiple of 10 |
| `Gtin.CheckDigitAdds` | app/documents/fields.py:36-44 | completing the body's sum to a multiple of 10 is the same as the whole code's weighted sum being one |
| `Gtin.SubstitutionIsRejected` | app/documents/fields.py:29-44 | changing any one digit of a valid code makes it invalid, at any length |
| `Gtin.TranspositionIsRejectedIff` | app/documents/fields.py:29-44 | swapping two neighbours of a valid code is rejected exactly when they differ by a number that is not a multiple of 5 |
| `Gtin.JumpTranspositionPasses` | app/documents/fields.py:29-44 | swapping two digits an even distance apart is never noticed |
| `Gtin.CheckDigitIsUnique` | app/documents/fields.py:29-44 | every body of at least seven digits has exactly one valid check digit |
| `Gtin.ZeroPaddingKeepsValidity` | app/documents/fields.py:29-44 | leading zeros change neither way whether a code is valid |
| `Gtin.EightDigitsAtLeast` | app/documents/fields.py:29-35 | eight digits with the right sum are a code, seven digits with the right sum are none |
| `Gtin.Dedupe` | app/documents/fields.py:293-305 | the stripped values in order, each once up to case and none blank, cut at the cap |
| `Gtin.DistinctByKeyIsExact` | app/documents/fields.py:293-305 | without a cap no two results agree up to case, every result is a stripped value, and every value that is not blank is there up to case |
| `Gtin.StripTakesSpaceOff` | app/documents/fields.py:293-305 | stripping takes the white space off both ends and nothing else |
| `Gtin.WhatIsSpace` | app/documents/fields.py:293-305 | blanks, tabs and line breaks are white space; letters and digits are not |
| `Gtin.LowerJoinsCases` | app/documents/fields.py:293-305 | two characters agree in lower case exactly when they are one letter in two cases or the same |
| `Gtin.ExtractCodes` | app/documents/fields.py:47-53 | the scan yields the first twelve distinct valid codes among the maximal digit runs of that length, in order |
| `Gtin.CodesAreExact` | app/documents/fields.py:47-53 | every code found is such a run with a right check digit, found once, and all are found when there are fewer than twelve |
| `Gtin.WholeRunsOnly` | app/documents/fields.py:47-53 | a run of digits longer or shorter than the code holds no code |
| `Gtin.ExtractBarcodes` | app/documents/fields.py:56-70 | the three lists: 12 digits, 13 digits, and all lengths merged and cut at twelve |
| `Gtin.GtinListsAllIff` | app/documents/fields.py:56-70 | the merged list holds every UPC and EAN exactly when the three lists together have at most twelve codes or there is neither a UPC nor an EAN |
| `Gtin.MergedListCanLoseCodes` | app/documents/fields.py:56-70 | a text with twelve EANs and one UPC: the merged list does not hold them all |
| `Gtin.UpcPadsToEanAndGtin` | app/documents/fields.py:56-70 | every extracted UPC zero-pads to a valid EAN-13 and a valid GTIN-14 |
| `Registry.IterComputers` | app/features/registry.py:16-28 | on any finite class graph the worklist stops and yields exactly the concrete classes below the root, each once |
| `Registry.ChainStaysInside` | app/features/registry.py:20-26 | a set closed under subclasses holds everything reachable |
| `Registry.ByKeyIsLast` | app/features/registry.py:38 | a key is registered exactly when a class found carries it and it is not empty, with the last such class |
| `Registry.RegistryIsUniqueIff` | app/features/registry.py:31-39 | the dictionary is the same for every order in which the concrete classes could be discovered exactly when no two of them share a key |
| `Registry.FeatureRegistry.Get` | app/features/registry.py:31-39 | the first call registers exactly the keyed concrete classes, a shared key with the class found last in some listing of them; later calls return the same dictionary |
| `Registry.FeatureRegistry.GetFeatureComputer` | app/features/registry.py:45-47 | looks the key up in that dictionary |

## Left out

- Floating point: rounding errors, and `round(...)` on reported amounts, scores and statistics; theorems are on the unrounded values.
- Replenishment: period names are an enumeration, so their lower-casing is not modelled; the reasoning text and `best_day_to_buy`, which is always 1.
- Replenishment.OrderLiftsStockIff: assumes an order cost that is not negative, since Python's root of a negative number is complex.
- Replenishment.UncappedOrderLiftsStock: assumes the same.
- RateLimiter.GrantBound: assumes burst >= 1, which holds unless a negative burst is passed (`BurstAtLeastOne`); the random jitter returned to the caller is not modelled.
- PagePool: pages are identities, and closing one is counting it among the closed; contexts and cancellation of a task inside `checkout` are not modelled. A step runs from taking the lock to giving it away, the only place inside the lock where it is given away being the wait.
- ProxyRotation: only the round-robin mode; random, weighted and sticky choice, and proxies listed twice under one url being counted by `enabled_count`, are not modelled. Thresholds are at least 1, as the configuration demands.
- DeadLetters: a negative capacity, and the error text and time of a record.
- EventBus: brokers, backoff delays, and the handler's own work. Operations follow one another; unsubscribing during a delivery is modelled as taking effect when that delivery ends. `Dispatches` lifts both, and lets handlers publish.
- EventBus.DeliveriesConserved: speaks of operations one after the other, as does all of `EventBus`; overlapping ones are the subject of `Dispatches.OverlapConserved`.
- Dispatches: a dead letter is written in the step in which its last call failed, although a contended lock can put the writing off; which task runs next, and a replay's own loop, are any choice of steps.
- EventBus.InMemoryEventBus.Deliver: a subscription is a row of a table, named by its index, in place of a shared mutable object.
- BackgroundQueue: the binary heap inside the queue; what it hands out is taken to be the least tuple. An event a worker holds while it is cancelled is not followed further.
- TaskQueue: Redis itself, expiry of keys, interleaving inside one operation, timestamps, and whatever would pick up the retry keys. `StepKeepsInv` and the theorems built on it assume fresh ids, tasks that come in pending, and reports on running or unknown ids only.
- LocalTaskQueue: the fallback's operations that do nothing (complete, fail, cancel).
- Experiments: SQL, listing, simulation, name validation, and the default metric of a type (the metric given is the resolved one). An operation that raises is taken to leave the stored rows as they were. Rows are listed in order of insertion.
- ExperimentManager.ExperimentManager.Stop: the report holds the decided values; its rendered text, its snapshot of parameters and its id are not modelled.
- Winner: `erf`, the incomplete beta function and SHA-256; p-values and hashes are functions given as input.
- Statistics.ConfusionCountsObservations: needs both labels or neither on every observation; a label missing on one side is modelled as the code treats it.
- Filters.WideningKeepsDeliveries: assumes handlers that unsubscribe nobody; without that, `WideningKeepsIff` gives the exact condition.
- Replays.ReplayKeepsResults: needs both labels or neither on every stored row and at most as many rows as are read back, since it lets the order of reading change at will; `ReplayKeepsReport` needs neither.
- Replays.ReplayKeepsReport: the clock rises strictly from measurement to measurement; rows with equal times are read in order of insertion, where the database leaves their order open.
- RateLimiter.SteadyBoundWithoutReuse: goes one way; the exact condition, before any call, is `NominalRateIff`.
- Gtin: digits other than '0' to '9', white space and case outside ASCII, and the scans for weights, dimensions and keyword contexts.
- Registry: Python's class machinery; the graph of subclasses, abstract classes and keys is an input.
- Configuration, wiring, logging, telemetry, language models, and the individual feature formulas: plumbing and single-branch bounds.
