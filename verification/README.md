# Capital rotation engine: a verified model

Market Cycle Trader runs a daily strategy that holds one asset, or an optimised portfolio, and
rotates capital by model utilities. Around its learned models the engine is ordinary code: fee-aware
sizing, cash accounting, walk-forward scheduling, a linear programme, replay buffers, caches,
resumable jobs and an access store. This project models that code in Dafny and proves what it is
relied on for. `dafny verify dfyconfig.toml` checks everything.

## Files

| file | component | main theorem |
|---|---|---|
| RiskOverlay.dfy | closed-form position weight | every decision is the best weight for its market, book and costs; exact error of the low-curvature branch |
| BuySizing.dfy, BenchmarkSizing.dfy | fees and BUY sizing | 25 rounds of a possibly oscillating iteration always end affordable; exactly when the benchmark's 20 do |
| Ledger.dfy | single-position simulator | every log alternates matched legs, is executed at the next session's opens and accounts for every cent |
| Rebalance.dfy, RebalanceLaws.dfy | multi-asset simulator | the overspending guard is unreachable; no purchase of a run reaches into the reserve; exactly what a session sells and buys |
| LpEncoding.dfy, LpProperties.dfy, LpTail.dfy, Linear.dfy | allocation programmes | the matrices mean the constraints; feasible vectors answer for their losses; the CVaR rows are exact; tangent error |
| WalkForward.dfy | folds and labels | partition, total dispatch, no label from the future |
| NStep.dfy, Replay.dfy, Training.dfy | n-step accumulator, ring buffer, training loop | exactly-once emission; every row that is sampled in training has a Bellman target |
| RotationPolicy.dfy | research, live and cash-gate policies | every decision characterised in both directions; minimum holding; hysteresis over runs |
| UtilityCache.dfy, LiveUtilities.dfy | batched and live utilities | the cache agrees with the per-date function; exactly when live equals research |
| RiskScore.dfy | calibration score | incremental, batch and trace scores agree and are log growth less the two penalties |
| CommonSession.dfy | latest common session | the leapfrog finds the greatest common session |
| Clustering.dfy | resumable analysis | interrupted and resumed runs end like uninterrupted ones |
| SplitNormalize.dfy | split adjustment | order independence, conservation, exact ratios |
| RankSignal.dfy | cross-sectional signal | range, order, antisymmetry, zero sum |
| AccessStore.dfy, AccessService.dfy, AccessInterleaving.dfy | invitations and sessions | each link claimed at most once; session limits hold; ended sessions are refused for ever |
| Common.dfy | shared values | |

Arithmetic is over exact reals, dates are session indexes or days, and a utility is minus infinity
or a real. Model predictions, exp and log, random starts, market returns and provider answers are
parameters of which only the stated laws are used.

## Where the code falls short

Each of these is pinned down by a concrete input, an exact condition, or both:

- The overlay's fallback for an invalid target position cannot be reached: the base target indexes
  the symbol list first and raises (compound_risk_overlay.py:69-71 before 130-139). Optimize returns
  an error exactly then (OptimizeIsPortfolio).
- The overlay's low-curvature branch is not exact; LowCurvatureExact says when it is, and
  LowCurvatureErrorInUse that 1.25e-13 is attained under an allowed configuration. For the same reason
  more risk can mean a larger weight across the curvature threshold, in exactly one case
  (OptimumFallsWithRisk, RiskierHoldsMore).
- The equal-weight benchmark sizes with 20 rounds, an even number, and can spend more than it has
  (EvenRoundsOverspend). It does not exactly when the iteration has settled by then
  (EvenRoundsAffordableIff), which with fractional shares means that its last two quantities pay the
  same fee (SettledIffSameFee), and which the first three fees decide before the loop when the first
  two are at most a cent apart (FirstFeesDecide).
- The cash gate's protected base skips dates on which no asset has a utility (capital_rotation.py:652-653),
  so it leaves the legacy run exactly when such a date finds that run invested (ShadowIsLegacyRun).
- A resumed clustering run does not look at the observations its checkpoints came from; it is right
  exactly when the checkpoints still agree (ResumeIsRightIff, StaleResultIsKept).
- A sign-in that read a session limit before it was lowered can exceed the new one
  (OpenKeepsLimitIff, StaleLimitOvershoots).
- A sign-in that overlaps the making of a new link can open its session after the old ones were ended
  and before the new link is stored; it is accepted again once the same account uses the new link,
  unless that sign-in replaces it (LateSessionAcceptedIff, LateSessionSurvives).
- Making a new link does not look at the status again when it stores the link: a revocation that falls
  in between is overwritten (LateLinkAdmitsIff, RevocationIsOverwritten).
- With and without the utility cache a symbol without a frame is treated differently: the batch
  leaves it at minus infinity, the per-date function raises (CachedAnswer). The engines take their
  symbols from the frames (research_challengers.py:194, live_lightgbm_signal.py:67), so this is a
  difference between the functions and not one of their runs.
- Research asks for a tradable next session before it uses a prediction, the live policy does not and
  cannot; VectorsAgreeIff says exactly when the two see the same utilities.

## Model

| member | source | states |
|---|---|---|
| `RiskOverlay.OptimumIsClosedForm` | src/market_cycle_trader_api/engine/compound_risk_overlay.py:212-232 | Above the curvature threshold the candidate search returns the projection of the current weight onto the band between the two stationary points, clipped to the cap. |
| `RiskOverlay.OptimumGrowth` | src/market_cycle_trader_api/engine/compound_risk_overlay.py:203-232 | Above the curvature threshold the objective at every other weight in [0, max] is lower by at least half the curvature times the squared distance: testing five candidates is enough for a global maximum. |
| `RiskOverlay.OptimumIsUniqueMaximum` | src/market_cycle_trader_api/engine/compound_risk_overlay.py:203-232 | Above the curvature threshold a weight is a global maximiser exactly when it is the one returned. |
| `RiskOverlay.OptimumFallsWithRisk` | src/market_cycle_trader_api/engine/compound_risk_overlay.py:203-232 | With everything else equal a larger normalised risk gives no larger weight, on either side of the curvature threshold, if and only if it is not the case that the smaller risk is at or below the threshold and keeps the held weight because the cap alone is worse, while the larger risk is above it and its buying slope at the held weight is positive. |
| `RiskOverlay.RiskierHoldsMore` | src/market_cycle_trader_api/engine/compound_risk_overlay.py:203-232 | That case occurs: with a configuration the request schema allows and an empty book, nothing is bought at one risk and something at a risk one per cent higher. |
| `RiskOverlay.LowCurvatureOptimum` | src/market_cycle_trader_api/engine/compound_risk_overlay.py:222-232 | At or below the curvature threshold the weight is the held one if it is below the cap and the cap is worse, and the cap otherwise. |
| `RiskOverlay.NoTradeBand` | src/market_cycle_trader_api/engine/compound_risk_overlay.py:222-232 | Above the curvature threshold the current weight is kept exactly when it is below the cap and between the two stationary points (the upper one is irrelevant at the cap). |
| `RiskOverlay.LowCurvatureError` | src/market_cycle_trader_api/engine/compound_risk_overlay.py:222-232 | At or below the curvature threshold, where no stationary point is tried, the result is within 1.25e-13 of the maximum. |
| `RiskOverlay.LowCurvatureErrorIsReached` | src/market_cycle_trader_api/engine/compound_risk_overlay.py:206-232 | A concrete problem in which that bound is attained. |
| `RiskOverlay.LowCurvatureErrorInUse` | src/market_cycle_trader_api/engine/compound_risk_overlay.py:203-232 | The optimiser builds that problem for a configuration the request schema allows, with enough history, an empty book and finite positive risks. |
| `RiskOverlay.LowCurvatureExact` | src/market_cycle_trader_api/engine/compound_risk_overlay.py:223-232 | The low-curvature branch is exact if and only if the buying stationary point is not strictly between the current weight and the cap. |
| `RiskOverlay.OptimizedProblemIsValid` | src/market_cycle_trader_api/engine/compound_risk_overlay.py:203-210 | Every problem the optimiser builds from a current book and valid risk estimates meets the conditions of the theorems above. |
| `RiskOverlay.OptimizeIsPortfolio` | src/market_cycle_trader_api/engine/compound_risk_overlay.py:34-260 | Every branch returns weights and cash that are non-negative, sum to one and hold at most the target asset; the only failure is an index error, raised exactly for a target past the last symbol. |
| `RiskOverlay.OptimizeIsBest` | src/market_cycle_trader_api/engine/compound_risk_overlay.py:124-260 | With a bar, at least 126 and 252 scenarios and a valid risk the returned weight of the target lies in [0, cap] and no other weight there is worth as much by reward, squared risk ratio, turnover of all risky weights and trading costs of that market, book and configuration (none is worth over 1.25e-13 more where the curvature is at or below the threshold); otherwise the target is held in full with a fallback status. Cash weight, turnover and status are those of the weight. |
| `RiskOverlay.HistoryNeeded` | src/market_cycle_trader_api/engine/compound_risk_overlay.py:152-171 | For every configured lookback enough history means 126 scenarios for the current risk and 252 for the reference. |
| `RiskOverlay.ReportedTurnover` | src/market_cycle_trader_api/engine/compound_risk_overlay.py:234-237 | The reported risky turnover is the weight of the other risky holdings plus the change in the target. |
| `RiskOverlay.SafeCurrentWeightsArePortfolio` | src/market_cycle_trader_api/engine/optimized_allocation.py:298-308 | Whatever the book holds, the cleaned current weights are a portfolio: non-negative, one per asset and cash, summing to one. |
| `RiskOverlay.SafeCurrentWeightsAreShares` | src/market_cycle_trader_api/engine/optimized_allocation.py:298-308 | Each cleaned weight is its part of what the book holds, negative and missing entries counting as nothing; an empty book is all cash. |
| `BuySizing.FeeIsLeastCover` | src/market_cycle_trader_api/engine/compound_rotation_backtest.py:76-79 | A fee is the least whole number of cents that covers its value up to the tolerance, and zero for no value. |
| `BuySizing.FeesBySide` | src/market_cycle_trader_api/engine/compound_rotation_backtest.py:82-113 | A fee is the sum of commission on the value and CAT on the shares, on both sides, and of SEC on the value and TAF on the shares up to its cap on sales only; each is the least number of whole cents that covers its base up to the tolerance, and none on nothing. |
| `BuySizing.SlipIsAdverse` | src/market_cycle_trader_api/engine/compound_rotation_backtest.py:116-118 | Slippage raises a purchase price and lowers a sale price by the same amount, so many basis points of the price. |
| `BuySizing.BuyScheduleIsStepFee` | src/market_cycle_trader_api/engine/compound_rotation_backtest.py:76-113 | The BUY fee is a non-decreasing whole number of cents that vanishes at quantity zero and below. |
| `BuySizing.NextAntitone` | src/market_cycle_trader_api/engine/capital_rotation.py:1166-1170 | One sizing round reverses order: larger quantities cost more fees and leave room for fewer shares. |
| `BuySizing.LowerIterateCovers` | src/market_cycle_trader_api/engine/capital_rotation.py:1166-1175 | An iterate that does not exceed the one it came from is affordable. |
| `BuySizing.ImagesAreApart` | src/market_cycle_trader_api/engine/capital_rotation.py:1168-1174 | Because fees move by whole cents, the tolerance never stops the loop at an iterate that is not affordable. |
| `BuySizing.OddRoundsFrom` | src/market_cycle_trader_api/engine/capital_rotation.py:1166-1174 | From any starting point above its image, an odd number of rounds ends at an affordable quantity that is no smaller than the first round gives. |
| `BuySizing.OddRoundsAffordable` | src/market_cycle_trader_api/engine/capital_rotation.py:1165-1176 | For every cash of zero or more and price up to 1e8, an odd number of rounds ends affordable and leaves at most the fee on all the cash (and, for whole shares, less than one share price more). |
| `BuySizing.NoCashBuysNothing` | src/market_cycle_trader_api/engine/capital_rotation.py:1165-1176 | Without cash the result is zero shares. |
| `BuySizing.SizeInRounds` | src/market_cycle_trader_api/engine/capital_rotation.py:1165-1176 | The loop, with its early exit, computes the specified quantity for any number of rounds, and the fees on it. |
| `BuySizing.BuyOrderAffordable` | src/market_cycle_trader_api/engine/capital_rotation.py:1163-1176 | The 25-round order at any execution price is non-negative, whole when fractions are not allowed, and affordable up to price 1e8. |
| `BuySizing.ExecuteBuy` | src/market_cycle_trader_api/engine/capital_rotation.py:1163-1176 | The order is sized in 25 rounds at the slipped price; quantity times price plus fee is at most the cash. |
| `BenchmarkSizing.UpperIterateCoversIff` | src/market_cycle_trader_api/engine/capital_rotation.py:1206-1212 | A round's result that is not below what it came from is affordable if and only if a further round leaves it unchanged. |
| `BenchmarkSizing.EvenRoundsAffordableIff` | src/market_cycle_trader_api/engine/capital_rotation.py:1204-1212 | For every order and every even number of rounds the result is affordable if and only if the plain iteration has settled by then, or the cash buys less than the tolerance. |
| `BenchmarkSizing.SettledIffSameFee` | src/market_cycle_trader_api/engine/capital_rotation.py:1204-1212 | The iteration has settled whenever its last two quantities pay the same fee; with fractional shares exactly then. |
| `BenchmarkSizing.WholeSharesSettleWithDifferentFees` | src/market_cycle_trader_api/engine/capital_rotation.py:1208-1209 | With whole shares not only then: a concrete order that settles although its last two quantities pay different fees. |
| `BenchmarkSizing.OneCentGapDecides` | src/market_cycle_trader_api/engine/capital_rotation.py:1204-1212 | From the first even iterate whose fee is at most a cent above the next one's, every later even number of rounds is affordable if and only if the two iterates after it pay the same fee. |
| `BenchmarkSizing.FirstFeesDecide` | src/market_cycle_trader_api/engine/capital_rotation.py:1203-1212 | If the fees of the first two quantities are at most a cent apart, every even number of rounds is affordable if and only if the second and the third pay the same fee: a test before the loop. |
| `BenchmarkSizing.SmallCommissionGap` | src/market_cycle_trader_api/engine/compound_rotation_backtest.py:82-113 | That gap is at most a cent for every order of fractional shares without a CAT fee whose commission on its own fee is at most a cent. |
| `BenchmarkSizing.OscillatesForEver` | src/market_cycle_trader_api/engine/capital_rotation.py:1205-1212 | A concrete order whose iterates alternate between two quantities for every number of rounds. |
| `BenchmarkSizing.EvenRoundsOverspend` | src/market_cycle_trader_api/engine/capital_rotation.py:1203-1214 | That order costs more than the cash for every positive even number of rounds. |
| `BenchmarkSizing.BenchmarkResidual` | src/market_cycle_trader_api/engine/capital_rotation.py:1202-1214 | The benchmark's purchase in 20 rounds and its residual, which is never negative exactly under the condition of EvenRoundsAffordableIff. |
| `Ledger.LedgerIdentity` | src/market_cycle_trader_api/engine/capital_rotation.py:2182-2263 | For every log of matched legs, cash plus the cost of an open leg is the initial capital plus realised profit less BUY fees. |
| `Ledger.AcceptedLogAlternates` | src/market_cycle_trader_api/engine/capital_rotation.py:2182-2257 | What the matching automaton accepts: BUY at even and sale at odd places, same asset and quantity in each pair, a final sale only at the end, an open leg exactly for an odd length. |
| `Ledger.RoundTripNeverGains` | src/market_cycle_trader_api/engine/capital_rotation.py:2182-2224 | A purchase sold again at the same raw price loses at least both fees: the realised result, which leaves out the BUY fee, is at most minus the sale's fee. |
| `Ledger.Close` | src/market_cycle_trader_api/engine/capital_rotation.py:2182-2202 | A sale is priced, charged and booked as specified and closes the open leg for the automaton. |
| `Ledger.Open` | src/market_cycle_trader_api/engine/capital_rotation.py:2203-2224 | A purchase is sized on all the cash, never turns it negative, and opens a leg. |
| `Ledger.Rotate` | src/market_cycle_trader_api/engine/capital_rotation.py:2182-2226 | Leaving and entering at one open gives the specified state and keeps log, totals and position consistent. |
| `Ledger.Advance` | src/market_cycle_trader_api/engine/capital_rotation.py:1933-2242 | One session: the specified state, one row answering the policy, a holding count, the rotation count, and the accounts still consistent. |
| `Ledger.Liquidate` | src/market_cycle_trader_api/engine/capital_rotation.py:2245-2263 | The bookkeeping sale closes the leg, and the last equity becomes the cash. |
| `Ledger.Simulate` | src/market_cycle_trader_api/engine/capital_rotation.py:1908-2263 | A whole run equals its step-by-step specification, and its outcome alone shows it: row by row, where the position changes, the log holds the sale of the old asset and then the purchase of the new one at the slipped opens of the session after the decision, and nothing else but a final sale at the slipped last close; every row is marked at its session's closes; every trade pays the fees of its side and a purchase uses up the cash. The log is accepted and implies the cash, fees and turnover; rows follow the policy; ending capital is initial plus realised profit less BUY fees. |
| `Ledger.ExecutedAdvances` | src/market_cycle_trader_api/engine/capital_rotation.py:1933-2242 | One more row with the trades of its change of position and its mark carries that reading on. |
| `Rebalance.SellDown` | src/market_cycle_trader_api/engine/capital_rotation.py:1579-1619 | Sells exactly the specified book down in place; cash and shares stay those the log implies; holdings stay non-negative and whole where required. |
| `Rebalance.InsertNeedInOrder` | src/market_cycle_trader_api/engine/capital_rotation.py:1628-1628 | Inserting a need keeps the purchases ordered by size, ties by symbol. |
| `Rebalance.BuyNeeds` | src/market_cycle_trader_api/engine/capital_rotation.py:1621-1628 | The needs are exactly the assets below target by more than the threshold, with their shortfalls, in that order. |
| `Rebalance.BuyUp` | src/market_cycle_trader_api/engine/capital_rotation.py:1630-1658 | Buys exactly the specified book up in place; the overspending guard never fires; no purchase reaches into the reserve. |
| `Rebalance.EquityIsValue` | src/market_cycle_trader_api/engine/capital_rotation.py:1563-1570 | The equity of a session is the cash plus every holding at its open. |
| `Rebalance.Session` | src/market_cycle_trader_api/engine/capital_rotation.py:1563-1658 | A session fails exactly when the account has no equity; otherwise it gives the specified book, every trade is at the slipped open with the fees of its side, and every purchase leaves the cash weight's part of the cash plus the holdings at the opens. |
| `RebalanceLaws.SessionLaws` | src/market_cycle_trader_api/engine/capital_rotation.py:1573-1658 | What a session does, read off the books: each holding above its weight of the account by more than the larger of a cent and 1e-7 of it is sold down by exactly the excess (whole shares: as many as fit), no other one is sold; then the assets short by more than that are bought in order of their shortfall, each with the smaller of its shortfall and the cash above the reserve; one stays unbought only if the cash is at or below the reserve or the sized quantity is zero; nothing else is bought. |
| `Rebalance.Sessions` | src/market_cycle_trader_api/engine/capital_rotation.py:1554-1658 | After any number of sessions the book is the specified one; session d rebalanced to allocation d at the opens of session d + 1, priced there, and its purchases left the cash weight's part of that equity. |
| `Rebalance.Liquidate` | src/market_cycle_trader_api/engine/capital_rotation.py:1722-1751 | Everything held is sold as specified, nothing remains. |
| `Rebalance.Simulate` | src/market_cycle_trader_api/engine/capital_rotation.py:1491-1758 | A run never raises the sizing error, equals its specification, leaves the cash weight's part of every session's equity untouched by purchases, sells everything at the slipped last closes, and ends with the cash its log implies. |
| `RotationPolicy.RankedIsInOrder` | src/market_cycle_trader_api/engine/capital_rotation.py:745-752 | Ranked positions are in order of utility, ties by symbol. |
| `RotationPolicy.EntryCandidateIsBest` | src/market_cycle_trader_api/engine/capital_rotation.py:1075-1081 | The entry candidate is the highest ranked asset with a utility whose cash edge reaches the threshold, and is missing exactly when there is none. |
| `RotationPolicy.LiveEqualsResearch` | src/market_cycle_trader_api/engine/live_policy.py:60-150 | Given the same utilities the live policy returns the target and score of the research policy, in legacy and in risk-off mode. |
| `RotationPolicy.RiskOffDecision` | src/market_cycle_trader_api/engine/capital_rotation.py:1075-1137 | Risk-off: entries are the best that may be entered; an investable position is left only after the minimum holding and for the margin; cash only when nothing may be entered. |
| `RotationPolicy.RiskOffDecides` | src/market_cycle_trader_api/engine/capital_rotation.py:1075-1137 | Risk-off in both directions: from cash or a position that is not investable the target is the best entry, or cash when there is none; an investable position is given up for the best entry if and only if the minimum holding is reached and its utility is gone or the entry's is higher by both margins. |
| `RotationPolicy.HoldingCountsSessions` | src/market_cycle_trader_api/engine/capital_rotation.py:2201-2228 | In a run the holding count is exactly the number of last decisions that answered the present asset: so many did, and the one before, if any, did not. |
| `RotationPolicy.LegacyRunHoldsLongEnough` | src/market_cycle_trader_api/engine/capital_rotation.py:1036-1047 | In a legacy run a position with a finite utility is left only after it answered that many decisions in a row. |
| `RotationPolicy.LegacyRotationGains` | src/market_cycle_trader_api/engine/capital_rotation.py:1048-1067 | A new asset has the best utility above the threshold; entries reach the entry threshold; rotations gain the larger margin; cash is chosen only when no asset beats the threshold and zero. |
| `RotationPolicy.LegacyDecides` | src/market_cycle_trader_api/engine/capital_rotation.py:1036-1073 | Legacy in both directions, for the first best position: a finite position is kept below the minimum holding; cash if nothing beats the threshold; from cash the best asset if and only if it reaches the entry threshold; with a position the best asset if and only if it is the present one, the present one has no utility, or it is higher by both margins. |
| `RotationPolicy.CashGatePolicy.Answer` | src/market_cycle_trader_api/engine/capital_rotation.py:673-697 | One decision of the gate: the base state moves whatever the gate says, the action is the base action or cash. |
| `RotationPolicy.GatedActionIsCashOrBase` | src/market_cycle_trader_api/engine/capital_rotation.py:996-1010 | After any run the actual position is cash or the base position. |
| `RotationPolicy.GateDecides` | src/market_cycle_trader_api/engine/capital_rotation.py:652-697 | The gate in both directions: on a date with a utility the run takes what the base takes if and only if the best score reaches the exit threshold while invested or the entry threshold in cash, and cash otherwise; on a date without any it takes cash and the base stays. |
| `RotationPolicy.ShadowIsLegacyRun` | src/market_cycle_trader_api/engine/capital_rotation.py:652-697 | The protected base follows the legacy run for every gate if and only if no date without any utility finds the legacy run invested. |
| `RotationPolicy.ShadowOutlivesLegacy` | src/market_cycle_trader_api/engine/capital_rotation.py:652-653 | A two-date run in which it does not: the early return leaves the base position in place while legacy goes to cash. |
| `RotationPolicy.AcceptingGateIsLegacy` | src/market_cycle_trader_api/engine/capital_rotation.py:996-1010 | On such dates a gate that always accepts leaves the run equal to the legacy run. |
| `RotationPolicy.GateHysteresis` | src/market_cycle_trader_api/engine/absolute_utility_cash_gate.py:42-45 | Over any stretch of a run: from cash it stays in cash until a best score reaches the entry threshold, whatever the exit threshold is; once invested it holds what the base holds until the best score falls below the exit threshold or the base is in cash, whatever the entry threshold is. |
| `RotationPolicy.NoFlapping` | src/market_cycle_trader_api/engine/capital_rotation.py:996-1010 | Over any stretch in which every best score lies between the two thresholds a run ends in cash if and only if it began in cash or the base was in cash on the way: the gate itself changes nothing there, enters never and leaves at most once. |
| `UtilityCache.RowUtilityAt` | src/market_cycle_trader_api/engine/capital_rotation.py:527-551 | For unique dates a utility is the prediction at the date's row, and present exactly when that row has features and the next session a positive open and close. |
| `UtilityCache.PerDate` | src/market_cycle_trader_api/engine/capital_rotation.py:510-552 | The per-date loop computes every entry, and fails exactly when a symbol has no frame. |
| `UtilityCache.PickedWhereSet` | src/market_cycle_trader_api/engine/capital_rotation.py:460-491 | Indexing by a mask keeps exactly the masked entries, in order. |
| `UtilityCache.ValidRowsAreUsable` | src/market_cycle_trader_api/engine/capital_rotation.py:459-492 | Every row the batch predicts for has a usable bar. |
| `UtilityCache.UsableRowsAreValid` | src/market_cycle_trader_api/engine/capital_rotation.py:459-492 | Every date with a usable bar is in the batch. |
| `UtilityCache.FillColumn` | src/market_cycle_trader_api/engine/capital_rotation.py:453-492 | Scattering the batch prediction fills one column with the per-date utilities and leaves the others. |
| `UtilityCache.PrecomputeModelUtilities` | src/market_cycle_trader_api/engine/capital_rotation.py:435-507 | The cache holds exactly the dates, each with the per-date utility vector. |
| `UtilityCache.ModelUtilities` | src/market_cycle_trader_api/engine/capital_rotation.py:510-552 | With a cache of such rows the answer is the utility vector, cached or not. |
| `UtilityCache.CachedAnswer` | src/market_cycle_trader_api/engine/capital_rotation.py:435-552 | Answers with and without the precomputed cache are equal unless the date is cached and a symbol has no frame, which only the per-date function refuses. |
| `LiveUtilities.LiveModelUtilities` | src/market_cycle_trader_api/engine/live_policy.py:14-37 | The live loop computes the prediction at the date's row when its features are usable, whether or not a next session can be traded, and fails exactly when a symbol has no frame. |
| `LiveUtilities.CellsAgreeIff` | src/market_cycle_trader_api/engine/live_policy.py:24-37 | Live and researched utility of one symbol are equal if and only if it has no prediction or a tradable next session. |
| `LiveUtilities.VectorsAgreeIff` | src/market_cycle_trader_api/engine/live_policy.py:14-37 | The two vectors of a date are equal if and only if every symbol with a prediction has a tradable next session. |
| `LiveUtilities.LiveActsAsResearch` | src/market_cycle_trader_api/engine/live_policy.py:60-150 | On every date where that holds for utilities and cash edges the live policy takes the researched target with the researched score. |
| `LiveUtilities.LastSessionIsBlank` | src/market_cycle_trader_api/engine/capital_rotation.py:527-551 | On the last session of the frames research has no asset to offer, while live offers every predicted one. |
| `CommonSession.LatestCachedSession` | src/market_cycle_trader_api/engine/market_data.py:307-324 | The session of the latest bar bounds every session on or before the day that has a bar, also for bars on other days. |
| `CommonSession.LatestOfAll` | src/market_cycle_trader_api/engine/market_data.py:347-356 | The smallest of the candidate and the latest sessions still bounds every common session; a failure means there is none on or before the candidate. |
| `CommonSession.LatestCommonCachedSession` | src/market_cycle_trader_api/engine/market_data.py:327-365 | The leapfrog terminates with the greatest session on or before the target that every cached asset has, and fails exactly when none lies in the window or the window starts outside the calendar. |
| `RiskScore.RewardIsTerm` | src/market_cycle_trader_api/engine/capital_rotation.py:402-423 | One incremental reward is the next term of the batch score, with the wealth and running peak of the longer curve. |
| `RiskScore.PolicyGrowth` | src/market_cycle_trader_api/engine/capital_rotation.py:1141-1161 | The replay loop returns the batch score of the wealth curve it walks, minus infinity below two dates. |
| `RiskScore.CalibrationTrace` | src/market_cycle_trader_api/engine/research_challengers.py:86-172 | The audit trace returns the same score, and every row holds that step's position, reward, running score, wealth and peak. |
| `RiskScore.TraceIsReplay` | src/market_cycle_trader_api/engine/research_challengers.py:86-172 | The rows of the trace are a replay: from cash and wealth one, each takes the policy's answer, earns the market's return of that transition and goes on where the one before ended. |
| `RiskScore.IncreasesCoverDrawdown` | src/market_cycle_trader_api/engine/capital_rotation.py:412-423 | The drawdown increases sum to at least the largest drawdown. |
| `RiskScore.ScoreIsBelowGrowth` | src/market_cycle_trader_api/engine/capital_rotation.py:412-423 | The score is at most total log growth less the drawdown penalty times the maximum drawdown. |
| `RiskScore.ScoreDecomposes` | src/market_cycle_trader_api/engine/capital_rotation.py:412-423 | The score is exactly the log of the final wealth less the downside penalty times the summed losses less the drawdown penalty times the summed drawdown increases. |
| `RiskScore.DrawdownIsFall` | src/market_cycle_trader_api/engine/capital_rotation.py:417-418 | A drawdown is one less the ratio of the curve to its running maximum. |
| `RiskScore.SelectMargin` | src/market_cycle_trader_api/engine/live_lightgbm_signal.py:129-158 | The candidate loop returns the first margin with the best replay score, and refuses an empty list. |
| `LpEncoding.ScenarioRow` | src/market_cycle_trader_api/engine/optimized_allocation.py:487-493 | A scenario row times a vector is minus the return of its weights in the scenario, less alpha and the slack; it is at most zero exactly when the scenario constraint holds. |
| `LpEncoding.CvarRow` | src/market_cycle_trader_api/engine/optimized_allocation.py:495-500 | The CVaR row times a point is alpha plus the scaled slacks less the CVaR variable; it is at most zero exactly when the CVaR constraint holds. |
| `LpEncoding.TangentRow` | src/market_cycle_trader_api/engine/optimized_allocation.py:502-509 | A tangent row times a point is the tangent slope times CVaR less the penalty; it is at most the offset exactly when the tangent constraint holds. |
| `LpEncoding.LinkRow` | src/market_cycle_trader_api/engine/concentrated_allocation.py:201-208 | A link row times a point is a secondary weight less its closeness times the primary weight; it is at most zero exactly when the link holds. |
| `LpEncoding.TurnoverPair` | src/market_cycle_trader_api/engine/optimized_allocation.py:511-523 | The two turnover rows bound the change of a weight from above and below by its turnover variable. |
| `LpEncoding.Bounds` | src/market_cycle_trader_api/engine/optimized_allocation.py:525-533 | The bounds hold exactly for non-negative weights under their eligibility caps, cash in [0, 1], free alpha and non-negative remaining variables. |
| `LpEncoding.BudgetRow` | src/market_cycle_trader_api/engine/optimized_allocation.py:481-483 | The equality row is the sum of all weights and cash. |
| `LpEncoding.Costs` | src/market_cycle_trader_api/engine/optimized_allocation.py:474-479 | The cost vector times a point is the intended objective. |
| `LpEncoding.BuildLp` | src/market_cycle_trader_api/engine/concentrated_allocation.py:124-232 | The matrices, right-hand sides and bounds written by index arithmetic are satisfied by a vector exactly when the point it stands for satisfies every intended constraint, and the cost is the objective. |
| `LpProperties.ProgramMeans` | src/market_cycle_trader_api/engine/optimized_allocation.py:474-533 | On the entries of the vector: feasible means weights within their caps that sum to one with cash, every slack at least the loss beyond alpha, the CVaR entry at least alpha plus the scaled slacks, the penalty above all tangents, linked weights below closeness times the primary one, and turnover at least the change; the cost is the stated sum. |
| `LpProperties.LossesAreCovered` | src/market_cycle_trader_api/engine/optimized_allocation.py:487-500 | If in a tail of scenarios or more the weights of a feasible vector lost at least so much of the account, its CVaR entry is at least that. |
| `LpProperties.ReadWrite` | src/market_cycle_trader_api/engine/optimized_allocation.py:443-452 | Reading back a written point gives the point. |
| `LpProperties.WriteRead` | src/market_cycle_trader_api/engine/optimized_allocation.py:443-452 | Writing what was read from a vector gives the vector: with ReadWrite, the index layout is a bijection. |
| `LpProperties.AllCashIsAllowed` | src/market_cycle_trader_api/engine/optimized_allocation.py:481-533 | The all-cash point is always feasible. |
| `LpProperties.ObjectiveBounded` | src/market_cycle_trader_api/engine/optimized_allocation.py:474-533 | The objective is bounded below on all feasible points. |
| `LpProperties.TurnoverIsExact` | src/market_cycle_trader_api/engine/optimized_allocation.py:511-523 | Replacing the turnover variables by the true changes keeps a point feasible and does not raise its cost. |
| `LpProperties.SecondaryBelowPrimary` | src/market_cycle_trader_api/engine/concentrated_allocation.py:201-208 | At a feasible point a secondary weight is at most the primary one. |
| `LpProperties.CvarDominatesTails` | src/market_cycle_trader_api/engine/optimized_allocation.py:487-500 | At a feasible point the CVaR variable is at least the mean loss of every scenario set of at least (1 - confidence) N scenarios. |
| `LpTail.CvarIsAttained` | src/market_cycle_trader_api/engine/optimized_allocation.py:487-500 | For every confidence and number of scenarios, whole tail or not: with the weights of any feasible point some feasible point has as its CVaR variable the larger of zero and the mean loss of the tail, the worst scenarios with the least of them counted for the part that lies in the tail. |
| `LpTail.CvarIsLeast` | src/market_cycle_trader_api/engine/optimized_allocation.py:487-500 | No feasible point with these weights has a smaller one: the encoding is exact. |
| `LpTail.CvarDominatesTail` | src/market_cycle_trader_api/engine/optimized_allocation.py:487-500 | The CVaR variable of every feasible point is at least that mean, for any set of scenarios that is the tail rounded up and any one of them counted in part. |
| `LpTail.WholeTail` | src/market_cycle_trader_api/engine/optimized_allocation.py:495-497 | For a tail of whole scenarios that mean is the mean loss of the worst scenarios. |
| `LpProperties.TangentsAreBelow` | src/market_cycle_trader_api/engine/optimized_allocation.py:502-509 | No tangent exceeds the quadratic penalty, so the quadratic value is always allowed. |
| `LpProperties.TangentsAreClose` | src/market_cycle_trader_api/engine/optimized_allocation.py:502-509 | Up to the risk ceiling the penalty is at least the quadratic less the curve factor times the square of half a grid step, in units of the reference risk. |
| `WalkForward.EqualRanges` | src/market_cycle_trader_api/engine/capital_rotation.py:2376-2392 | A requested fold count gives contiguous ranges that cover the test rows with sizes differing by at most one. |
| `WalkForward.SteppedRanges` | src/market_cycle_trader_api/engine/capital_rotation.py:2395-2407 | Fixed-length ranges are contiguous, cover the test rows and are long enough, the short tail joined to the last. |
| `WalkForward.FoldsFromRanges` | src/market_cycle_trader_api/engine/capital_rotation.py:2409-2440 | Each range becomes the fold with the specified index arithmetic. |
| `WalkForward.BuildFolds` | src/market_cycle_trader_api/engine/capital_rotation.py:2357-2440 | Folds are built exactly when the history is long enough; they are contiguous, disjoint, at least the minimum size and cover [first test start, rows). |
| `WalkForward.FoldWindows` | src/market_cycle_trader_api/engine/capital_rotation.py:2409-2440 | Every fold has at least the minimum of training rows (the first exactly), a gap, the calibration days, the same gap and its test range; the gap is the larger of the purge days and the longest horizon. |
| `WalkForward.Dispatch` | src/market_cycle_trader_api/engine/research_challengers.py:197-207 | The dispatch table maps each served decision to its fold, and nothing else. |
| `WalkForward.ServedOnce` | src/market_cycle_trader_api/engine/research_challengers.py:197-207 | Every decision from before the first test row to before the last is served by exactly one fold. |
| `WalkForward.AnalysisWindowIsExact` | src/market_cycle_trader_api/engine/capital_rotation.py:2443-2499 | The analysis window contains exactly the executable sessions in the requested dates, and fails exactly when there are none. |
| `WalkForward.ScheduledLookupSucceeds` | src/market_cycle_trader_api/engine/capital_rotation.py:2501-2509 | Every decision the simulators make in the window has a fold: the KeyError is unreachable. |
| `WalkForward.LabelLocal` | src/market_cycle_trader_api/engine/capital_rotation.py:183-240 | A row's label reads bars only up to the largest horizon after it. |
| `WalkForward.HorizonUtilityMeans` | src/market_cycle_trader_api/engine/capital_rotation.py:200-217 | The utility of a horizon is the log return from the next open to the horizon's close with costs, less the penalties on the deepest low below the entry and on the largest fall of entry and closes. |
| `WalkForward.LabelMeans` | src/market_cycle_trader_api/engine/capital_rotation.py:183-232 | A label is the weighted sum of its horizons' utilities plus the movement weight times the log upside to the highest high and the persistence weight times half the share of closes above the entry and half the share of rising steps. |
| `WalkForward.DrawdownIsWorstFall` | src/market_cycle_trader_api/engine/capital_rotation.py:207-210 | The running-peak drawdown is the largest fall from any price of the path to any later one. |
| `WalkForward.TrainingIgnoresFuture` | src/market_cycle_trader_api/engine/capital_rotation.py:2409-2419 | No calibration label reads a bar of the calibration window, and no final label one after any decision the fold serves. |
| `WalkForward.LiveLabelsAreRealised` | src/market_cycle_trader_api/engine/live_lightgbm_signal.py:71-98 | In the live fold every training label depends only on sessions that have happened. |
| `NStep.RunIsDeclarative` | src/market_cycle_trader_api/engine/research_challengers.py:1888-1925 | After any steps of any episodes, the k-th emission is the k-th step's discounted window, cut at the episode end, with discount gamma to the window length; what is pending is shorter than n. |
| `NStep.EpisodeEndFlushes` | src/market_cycle_trader_api/engine/research_challengers.py:1917-1925 | At an episode end everything has been emitted, each step once and in order. |
| `NStep.WindowTelescopes` | src/market_cycle_trader_api/engine/research_challengers.py:1894-1915 | For a value function that satisfies the one-step Bellman equation the discounted window plus the discounted bootstrap is the value of the first state. |
| `NStep.BellmanTarget` | src/market_cycle_trader_api/engine/research_challengers.py:2286-2288 | Hence every emitted n-step target equals the value of its first state. |
| `NStep.NStepAccumulator.EmitOne` | src/market_cycle_trader_api/engine/research_challengers.py:1894-1915 | Emits the window at the head of the pending list and drops its first step. |
| `NStep.NStepAccumulator.Append` | src/market_cycle_trader_api/engine/research_challengers.py:1917-1925 | The loop emits as specified and leaves the specified pending steps. |
| `Replay.ReplayBuffer.Put` | src/market_cycle_trader_api/engine/research_challengers.py:1865-1874 | Writes one row of all columns and no other. |
| `Replay.ReplayBuffer.Add` | src/market_cycle_trader_api/engine/research_challengers.py:1865-1874 | The ring keeps the last capacity transitions of the history at the slots given by position and size. |
| `Replay.ReplayBuffer.Sample` | src/market_cycle_trader_api/engine/research_challengers.py:1876-1885 | Sampled rows are among the transitions still stored. |
| `Training.RunTraining` | src/market_cycle_trader_api/engine/research_challengers.py:2185-2342 | The training loop always has a next date, stays in its episode, ends it at its last date and restarts after it; every step starts from the state, position and holding the one before it left; the buffer is given exactly the n-step emissions of that run, in order; every batch consists of such rows. |
| `Training.TrainingActions` | src/market_cycle_trader_api/engine/research_challengers.py:2218-2241 | Each step takes the choice unless the position is in its minimum holding, and hands position and holding on; an episode starts in cash. |
| `Training.EpisodesAreFull` | src/market_cycle_trader_api/engine/research_challengers.py:2185-2190 | With at least 22 dates every episode has exactly the episode days, or all dates but two if that is less: none is cut by the end of the history. |
| `Training.Record` | src/market_cycle_trader_api/engine/research_challengers.py:2239-2240 | One step: what the accumulator emits is added, and both are where the longer run leaves them. |
| `Training.NothingPending` | src/market_cycle_trader_api/engine/research_challengers.py:2339-2339 | Clearing the accumulator at the end of an episode discards nothing. |
| `Training.TrainingTargets` | src/market_cycle_trader_api/engine/research_challengers.py:2239-2288 | Every row the buffer is given, hence every sampled row, has the state and action of a step of the run, and its target, reward plus discount times one minus done times the next value, is the value of that state. |
| `Clustering.BuildAnalysis` | src/market_cycle_trader_api/asset_state_clustering/analysis.py:460-503 | Resuming from right checkpoints and finishing the pending symbols in any order gives the results of an uninterrupted analysis and their count. |
| `Clustering.StepKeepsInv` | src/market_cycle_trader_api/asset_state_clustering/service.py:163-377 | Every step of the protocol keeps checkpoints right, counts equal and documents consistent. |
| `Clustering.FinishedIsUninterrupted` | src/market_cycle_trader_api/asset_state_clustering/service.py:305-340 | A completed document of any run, however often interrupted, holds the results of an uninterrupted analysis of the same observations, and is the last document. |
| `Clustering.CountIsStored` | src/market_cycle_trader_api/asset_state_clustering/service.py:236-303 | The completed count is the number of results in memory, and of those in the store once a checkpoint is written; between checkpoints so is the progress. |
| `Clustering.HeartbeatSparesTerminal` | src/market_cycle_trader_api/asset_state_clustering/service.py:253-262 | A heartbeat, however late, changes at most the progress of a running document. |
| `Clustering.TerminalStep` | src/market_cycle_trader_api/asset_state_clustering/service.py:341-374 | Only a new start changes a stopped or failed document, nothing a completed one. |
| `Clustering.CompletedIsFinal` | src/market_cycle_trader_api/asset_state_clustering/service.py:175-176 | A completed document never changes again in any continuation. |
| `Clustering.EveryOrderFinishes` | src/market_cycle_trader_api/asset_state_clustering/analysis.py:471-503 | From wherever a worker waits, the pending symbols may finish in any order and the run completes with the uninterrupted result. |
| `Clustering.ResumeIsRightIff` | src/market_cycle_trader_api/asset_state_clustering/service.py:178-192 | A resumed run is right for the current observations if and only if every checkpoint of an observed symbol already agrees with them; the compatibility test looks only at version and settings. |
| `Clustering.StaleResultIsKept` | src/market_cycle_trader_api/asset_state_clustering/service.py:180-192 | A concrete run that resumes after the observations changed and completes with an old result. |
| `SplitNormalize.SplitNormalize` | src/market_cycle_trader_api/engine/research_market_data.py:341-410 | Each bar gets its raw prices times the product of old / new over all valid splits after it and its raw volume times the product of new / old; the applied list is the splits in order of ex-date, less those that touched no bar. |
| `SplitNormalize.SortedIsStable` | src/market_cycle_trader_api/engine/research_market_data.py:366-366 | The splits are ordered by ex-date, and those of one ex-date keep the order they were given in. |
| `SplitNormalize.ApplySplit` | src/market_cycle_trader_api/engine/research_market_data.py:368-394 | One split rescales in place exactly the bars before its ex-date. |
| `SplitNormalize.OrderDoesNotMatter` | src/market_cycle_trader_api/engine/research_market_data.py:358-366 | The products are the same for every order of the actions. |
| `SplitNormalize.OnlySplitsCount` | src/market_cycle_trader_api/engine/research_market_data.py:358-365 | Filtering the incomplete actions first changes nothing. |
| `SplitNormalize.TurnoverIsKept` | src/market_cycle_trader_api/engine/research_market_data.py:380-394 | On every bar each of the four prices times the volume is the same before and after; missing numbers stay missing. |
| `SplitNormalize.RatioBetweenBars` | src/market_cycle_trader_api/engine/research_market_data.py:380-394 | The ratio of two bars' prices is the raw ratio times new / old of the splits with an ex-date between them, hence unchanged when there is none. |
| `SplitNormalize.ReturnIsHolders` | src/market_cycle_trader_api/engine/research_market_data.py:368-394 | A normalised return is that of a holder whose old shares become new ones at every split in between; a bar after all splits keeps its raw price. |
| `RankSignal.NetIsRank` | src/market_cycle_trader_api/engine/optimized_allocation.py:28-29 | The average rank is the net count of smaller over larger values. |
| `RankSignal.SignalInRange` | src/market_cycle_trader_api/engine/optimized_allocation.py:17-30 | The signal lies in [-1, 1], and is 1 for a single finite value. |
| `RankSignal.SignalKeepsOrder` | src/market_cycle_trader_api/engine/optimized_allocation.py:17-30 | Two finite entries are ordered and tied by the signal exactly as by their utilities. |
| `RankSignal.SignalOfNegated` | src/market_cycle_trader_api/engine/optimized_allocation.py:17-30 | Negating all utilities negates the signal. |
| `RankSignal.SignalSumsToZero` | src/market_cycle_trader_api/engine/optimized_allocation.py:17-30 | The finite signals sum to zero. |
| `AccessStore.Store.CreateInvitation` | src/market_cycle_trader_api/auth/access_store.py:48-51 | Stores one invitation under its identifier. |
| `AccessStore.Store.ClaimInvitation` | src/market_cycle_trader_api/auth/access_store.py:116-135 | The compare-and-set of a claim, with its whole effect on the store. |
| `AccessStore.Store.CreateLimitedSession` | src/market_cycle_trader_api/auth/access_store.py:141-161 | Revokes the specified sessions, adds the new one and reports how many were removed. |
| `AccessStore.Store.CountActiveSessions` | src/market_cycle_trader_api/auth/access_store.py:163-169 | The number of active sessions of the invitation. |
| `AccessStore.Store.TrimActiveSessions` | src/market_cycle_trader_api/auth/access_store.py:171-186 | Revokes the specified sessions and reports how many. |
| `AccessStore.Store.TerminateSessions` | src/market_cycle_trader_api/auth/access_store.py:202-209 | Revokes every session of the invitation and counts those that were open. |
| `AccessStore.Store.TouchSession` | src/market_cycle_trader_api/auth/access_store.py:193-200 | Moves the activity times of an open session, and of no other. |
| `AccessStore.Store.RevokeSession` | src/market_cycle_trader_api/auth/access_store.py:211-217 | Revokes one session if it exists. |
| `AccessStore.Store.UpdateInvitation` | src/market_cycle_trader_api/auth/access_store.py:109-114 | Changes one invitation if it exists. |
| `AccessStore.Store.DeleteInvitation` | src/market_cycle_trader_api/auth/access_store.py:137-139 | Removes one invitation and says whether it was there. |
| `AccessStore.CreateLimitedCounts` | src/market_cycle_trader_api/auth/access_store.py:141-161 | A new session leaves the smaller of the active count and limit - 1 older active ones; other invitations keep theirs. |
| `AccessStore.CreateLimitedEvictsOldest` | src/market_cycle_trader_api/auth/access_store.py:149-159 | Whatever a new session replaces was created no later than whatever it leaves. |
| `AccessStore.TrimCounts` | src/market_cycle_trader_api/auth/access_store.py:171-186 | Trimming leaves the smaller of the active count and the limit; other invitations keep theirs. |
| `AccessStore.TrimEvictsOldest` | src/market_cycle_trader_api/auth/access_store.py:173-185 | Whatever trimming revokes was created no later than whatever it keeps. |
| `AccessStore.ClaimNeedsCurrentToken` | src/market_cycle_trader_api/auth/access_store.py:116-135 | Directly after a successful claim no token claims the invitation. |
| `AccessService.LinkClaimedAtMostOnce` | src/market_cycle_trader_api/auth/access_service.py:612-670 | Over every interleaving of operations the claimed tokens were sent out as links and none is claimed twice. |
| `AccessService.SecondClaimantFails` | src/market_cycle_trader_api/auth/access_service.py:638-670 | Of two claimants that both looked the link up, whatever happens in between, the second fails. |
| `AccessService.RegeneratedLinkIsDead` | src/market_cycle_trader_api/auth/access_service.py:280-329 | A regenerated link replaces the old one, which can no longer be claimed; the new one can until it expires. |
| `AccessService.SignInOpensIff` | src/market_cycle_trader_api/auth/access_service.py:548-692 | A sign-in opens a session exactly for the invited account before expiry, with the current link while pending or as the claiming account afterwards; the session has the invitation's role, ends with the invitation or after the role's lifetime, whichever is earlier, and idles out after the role's idle time. |
| `AccessService.ValidateAcceptsIff` | src/market_cycle_trader_api/auth/access_service.py:694-739 | A session is accepted exactly when it is open, unexpired and not idle too long, and its invitation is still claimed by the same account with the same role. |
| `AccessService.AcceptedIsTouched` | src/market_cycle_trader_api/auth/access_service.py:694-739 | An accepted session is active now and may idle for its role's idle time from now, not beyond its end; nothing else changes. |
| `AccessService.InviteTakesEffect` | src/market_cycle_trader_api/auth/access_service.py:185-220 | A new invitation has the role and limit asked for and admits exactly the invited account with the new link until it expires. |
| `AccessService.UpdateTakesEffect` | src/market_cycle_trader_api/auth/access_service.py:225-278 | An update is refused exactly for a missing, revoked or legacy access or an invalid limit, and otherwise sets expiry and limit as given and leaves the rest. |
| `AccessService.RemovalTakesEffect` | src/market_cycle_trader_api/auth/access_service.py:331-395 | A revoked access is revoked; a deleted one is gone, and exactly those still usable cannot be deleted. |
| `AccessInterleaving.ClaimedUntilNewLink` | src/market_cycle_trader_api/auth/access_service.py:612-670 | After a successful claim no token claims the invitation, whatever steps follow, until a new link is made for it. |
| `AccessInterleaving.RevokedIsRefused` | src/market_cycle_trader_api/auth/access_service.py:694-739 | A revoked session stays revoked through any steps and is refused at any time. |
| `AccessInterleaving.EndedSessionIsRefused` | src/market_cycle_trader_api/auth/access_service.py:356-369 | Once the sessions of an invitation are ended, each of them is refused at any time, whatever steps follow. |
| `AccessInterleaving.OldSessionsEnd` | src/market_cycle_trader_api/auth/access_service.py:280-395 | Revoking or deleting an access, ending its sessions and making a new link, unless refused, each revoke every session of the invitation, and whatever steps of whatever operations follow, none of them is accepted again. |
| `AccessInterleaving.WithdrawnUntilNewLink` | src/market_cycle_trader_api/auth/access_service.py:331-354 | A withdrawn access signs nobody in and none of its sessions is accepted, whatever steps follow, until a new link is stored for it. |
| `AccessInterleaving.LateLinkAdmitsIff` | src/market_cycle_trader_api/auth/access_service.py:280-317 | If a new link was decided before an access was withdrawn and is stored after it, with anything in between, the access admits an account if and only if that operation was not refused, the access still exists and invites the account, the token is the new one and it has not expired; decided after the withdrawal it is refused. |
| `AccessInterleaving.RevocationIsOverwritten` | src/market_cycle_trader_api/auth/access_service.py:296-317 | A run from the empty store in which this happens. |
| `AccessInterleaving.LateSessionAcceptedIff` | src/market_cycle_trader_api/auth/access_service.py:280-329 | With anything between the two steps of making a new link: a session of the invitation is accepted after the invited account signed in with the new link if and only if it is the account's, unexpired, not revoked and not replaced by that sign-in; and if it is not revoked it was opened between the two steps. |
| `AccessInterleaving.OnlySessionIsReplacedIff` | src/market_cycle_trader_api/auth/access_store.py:149-159 | The only active session of an invitation is replaced by the next sign-in exactly under a limit of one. |
| `AccessInterleaving.LateSessionSurvives` | src/market_cycle_trader_api/auth/access_service.py:280-329 | A run from the empty store in which a sign-in that read the old invitation opens its session in between and is accepted again after the new link is claimed. |
| `AccessService.OpKeepsLimit` | src/market_cycle_trader_api/auth/access_service.py:185-395 | Every operation on its own keeps every invitation within its session limit. |
| `AccessService.SessionsStayWithinLimit` | src/market_cycle_trader_api/auth/access_service.py:245-260 | After any operations in non-decreasing time and at any later time no invitation has more active sessions than its limit. |
| `AccessService.OpenKeepsLimitIff` | src/market_cycle_trader_api/auth/access_service.py:584-588 | A sign-in that read an earlier limit keeps the present one if and only if the limit it read is not larger or a place is free. |
| `AccessInterleaving.StaleLimitOvershoots` | src/market_cycle_trader_api/auth/access_service.py:584-588 | A run from the empty store (invitation, sign-in, a second sign-in that reads the limit, a lowered limit, the steps of that second sign-in) that ends with one session too many. |
| `AccessService.Service.CreateInvitation` | src/market_cycle_trader_api/auth/access_service.py:185-220 | The method stores a pending invitation with an unseen token. |
| `AccessService.Service.CreateGoogleSession` | src/market_cycle_trader_api/auth/access_service.py:612-692 | The method does exactly the store steps of a sign-in and tells whether a session was opened. |
| `AccessService.Service.UpdateAccess` | src/market_cycle_trader_api/auth/access_service.py:225-278 | The method updates the invitation and enforces a new limit at once. |
| `AccessService.Service.RegenerateAccessLink` | src/market_cycle_trader_api/auth/access_service.py:280-329 | The method ends the sessions and stores a new link, in that order, unless the access may not have one. |
| `AccessService.Service.RevokeInvitation` | src/market_cycle_trader_api/auth/access_service.py:331-354 | The method withdraws the invitation and then ends its sessions. |
| `AccessService.Service.TerminateAccessSessions` | src/market_cycle_trader_api/auth/access_service.py:356-369 | The method ends the sessions and counts those that were open. |
| `AccessService.Service.DeleteAccess` | src/market_cycle_trader_api/auth/access_service.py:371-395 | The method ends the sessions and then removes the invitation. |
| `AccessService.Service.ValidateAccessSession` | src/market_cycle_trader_api/auth/access_service.py:694-739 | The method accepts exactly the sessions of ValidateAcceptsIff, moves the activity of an accepted one and closes an expired one. |
| `AccessService.Service.SignOutSession` | src/market_cycle_trader_api/auth/access_service.py:747-748 | The method closes one session. |

## Left out

- Floating-point rounding, NaN propagation through arithmetic, float32 storage in the replay buffer and hash or HMAC collisions: reals and injective digests are used.
- LightGBM, scikit-learn, PyTorch and the LP solver: predictions and solutions are foreign; what the repository builds around them is modelled.
- Mongo, Alpaca, HTTP, environment, exports, logs and diagnostics dictionaries: input and output only.
- The opportunity gates, emerging-trend, alternative-action and fragile-incumbent policies, and the soft horizon consensus policy: they decide by the same comparisons on library-computed features.
- Candidate strengths and closeness of the concentrated allocation (medians and exponentials) and the CVaR quantile estimates: inputs of the programme.
- market_history_drift, the chunked download, _forward_returns and _cluster_profile_vectorized: easy members beside those proved.
- MongoAccessStore: it repeats the in-memory store over a database; its finer atomicity is not part of this model.
- The primary administrator document, role allow-lists, direct sign-in's choice among claimed invitations, and access logs of the service.
- Clustering is a state machine over atomic steps instead of threads, with the sections under the progress lock as single steps. One worker at a time: two processes working on one analysis are not part of this model, late heartbeats of earlier ones are. A disabled analysis and fewer than four features return or fail before any step.
- Row order of frames: WalkForward takes an asset's rows as consecutive sessions; a frame with gaps can place a label's last bar on a later session.
- RotationPolicy.LiveEqualsResearch: selective mode is not covered, where the two treat a missing opportunity differently.
- Rebalance.Simulate: the policy's answers are given as a sequence, so current weights at the close are not computed; total fees and turnover are those of the log, whose returned table is sorted again by timestamp, action and asset. Fractional shares stand for the negation of the whole-share flag.
- Ledger.Simulate: per-trade diagnostics and the regime and benchmark columns are not carried; the policy's score is not part of a row. The alternation is proved of the list of records as it is booked; the table that is returned is sorted again by timestamp with an unstable sort (capital_rotation.py:2264-2271), which may change the order of the two trades of one open.
- Training.RunTraining: the network, its gradient steps and early stopping; choices and rewards are arbitrary functions of the step, which covers the carried wealth and peak, and a run may have any number of steps.
- RiskScore.PolicyGrowth: a transition without a finite log return, which the source turns into an undefined score, is not part of this model.
- UtilityCache.PrecomputeModelUtilities: frames have unique dates, as the batched index lookup demands, and a predictor is row-wise; cells that are not numbers are missing.
- SplitNormalize.SplitNormalize: ex-dates are days; the text by which the source sorts them is only an order, which does not matter.
- Clustering.FinishedIsUninterrupted: timings inside the results are left out, and the settings hash stands for the settings.
