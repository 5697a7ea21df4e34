# Funding-rate arbitrage backtester — a Dafny model

This project models the computational core of a backtester for a delta-neutral
funding-rate trade. The trade is long a stock on one venue (IBKR, margin financed) and
short the matching perpetual on another (Hyperliquid, collecting funding).
The model covers:

- the hourly simulation `FundingStrategy.run` with its pre-trade leverage guards,
  rebalancing band, 12 bps execution cost, tiered IBKR interest, funding income,
  maintenance guards and failure rows;
- the performance summaries `get_metrics` and `get_spread_stats`;
- the optimizer's leverage × split grid search;
- the asset ranker;
- the risk, spread and statistics calculators;
- the data-preparation helpers;
- the configuration constants and helpers of `config.py`.

Modules:

| file | module | models |
|---|---|---|
| base.dfy | `Wrappers`, `Floats`, `Series`, `Frames` | Option; pandas NaN (`Float`); sums, means, maxima, tails, percentage changes; uninterpreted floating statistics (`Numerics`); frames as column sets plus rows |
| config.dfy | `Config` | `config.py` constants, `validate_leverage`, `validate_split`, `safe_divide` |
| strategy.dfy, strategy_lemmas.dfy | `Strategy`, `StrategyLemmas` | `src/strategy.py` |
| metrics.dfy | `Metrics` | `get_metrics`, `get_spread_stats` |
| optimization.dfy | `Optimization` | `src/optimization_engine.py` |
| ranker.dfy | `Ranker` | `src/asset_ranker.py` |
| data_prep.dfy | `DataPrep` | `src/utils/data_prep.py` |
| streaks.dfy | `Streaks` | the streak statistics, written identically in data_prep.py and stats_calculator.py, and the losing-streak count of `get_spread_stats` |
| risk.dfy | `Risk` | `src/calculators/risk_calculator.py` |
| spread.dfy | `Spread` | `src/calculators/spread_calculator.py` |
| stats.dfy | `Stats` | `src/calculators/stats_calculator.py` |

## Modelling conventions

- **Numbers.** Money and rates are `real`. A pandas NaN is `Floats.NaN`, used only where
  NaN changes the result: the NaN-skipping `max` of the grid search, the NaN cells of the
  stress test, and the rolling correlations.
- **Floating statistics.** Powers, square roots, standard deviations, autocorrelations,
  rolling correlations and the daily resampled equity volatility are fields of a
  `Series.Numerics` record of functions. They are passed as a parameter and left
  uninterpreted. `mean` is exact on reals and is defined.
- **Strategy and run.** `FundingStrategy` never changes after construction, so it is a
  datatype. `run` is a method with a `for` loop over the hours and its `break`s. It is proved equal to the
  recursive specification `Strategy.Simulate`, about which the strategy lemmas are stated.
- **Other loops.** The grid search, the ranker and the stress test keep their loops as
  methods. Each is proved equal to a specification function.
- **Positional arguments.** The optimizer and the stress test call
  `FundingStrategy(capital, lev, split, benchmark_rate)` positionally. The leverage binds to
  `hl_split_pct`, the split to `benchmark_rate` and the benchmark to `safety_factor`.
  The model keeps these bindings as written (`OptimizationEngine.Strategy`,
  `StressTest.Strategy`). `Optimization.GridNeverLong` and `StressTest.StressNeverLong`
  prove their consequence: with any leverage of at least 1 and a non-negative benchmark,
  every simulated hour records a position of at most 0.
- **Where the repository's documentation and its code disagree, the code is followed:**
  - The asset ranker drops an asset whose fetch fails or whose data is too short, and
    records no reason for it.
  - `FundingStrategy`'s own defaults are benchmark 0.0533 and safety 0.80
    (`Strategy.DEFAULT_STRATEGY`). They are not `StrategyDefaults.BENCHMARK_RATE = 0.0364`.
  - pandas `sort_values` is not stable, so the ranking is specified as ordered by
    non-increasing APR and a permutation of the rows collected.

## Model

| member | source | states |
|---|---|---|
| Config.SafeDivide | config.py:101-126 | a non-zero denominator gives the quotient (r · d == n); a zero denominator gives the default |
| Config.SafeDivideAt | config.py:114-117 | one element of the series path: the quotient (r · d == n) when both operands are numbers and the denominator is non-zero, the default otherwise |
| Config.ValidateLeverage | config.py:93-95 | the closed interval [0.1, 10.0]; Optimization.GridPassesValidators and Risk.ScenariosPassValidator apply it to the constants |
| Config.ValidateSplit | config.py:97-99 | the closed interval [0.10, 0.90]; Optimization.GridPassesValidators applies it to the split range |
| Config.SafeDivideSeries | config.py:114-117 | the pandas Series path: one entry per element; each entry is the element-wise safe quotient |
| Config.SafeDivideSeriesMeaning | config.py:114-117 | zero-denominator and NaN entries become the default: an entry is the quotient exactly when both operands are numbers and the denominator is non-zero, and the default otherwise |
| Config.SafeDivideAgrees | config.py:101-126 | the series path and the scalar path agree on numbers |
| Strategy.MaxSafeNotional | src/strategy.py:24-42 | the safe notional is within both venue limits (20× HL, 6.6× IBKR) and equals one of them |
| Strategy.TieredInterest | src/strategy.py:44-65 | no interest on a loan of at most 0 |
| StrategyLemmas.TieredInterestClosedForm | src/strategy.py:44-65 | the hourly interest is the bracketed annual cost (bm+1.5 % to 100k, bm+1.0 % to 1M, bm+0.75 % above) over 8760 hours |
| StrategyLemmas.TieredInterestSplit | src/strategy.py:44-65 | annual interest = loan · benchmark + the bracket spread |
| StrategyLemmas.EngineMatchesConfig | src/strategy.py:19-22 | the engine's leverage caps, maintenance margin and cost equal config.py's; the bracket spreads are IBKRTiers' |
| StrategyLemmas.TieredInterestMarginal | src/strategy.py:50-63 | an extra loan amount costs between bm+0.75 % and bm+1.5 % a year |
| StrategyLemmas.TieredInterestMonotone | src/strategy.py:44-65 | interest never decreases with the loan when bm ≥ −0.75 % |
| StrategyLemmas.TieredInterestLipschitz | src/strategy.py:44-65 | interest changes by at most (abs(bm) + 1.5 %)/8760 per unit of loan |
| Strategy.PreTradeCheck | src/strategy.py:93-104 | the IBKR cap fires exactly when IBKR has equity and target > 6.6× it; the HL cap fires exactly when the IBKR cap does not, HL has equity and target > 20× it |
| Strategy.HlAllocation | src/strategy.py:84 | the HL allocation, equity times hl_split_pct; StrategyLemmas.HlAllocationPositive gives its sign |
| Strategy.IbkrAllocation | src/strategy.py:85 | the IBKR allocation, equity times (1 − hl_split_pct); StrategyLemmas.IbkrAllocationPositive gives its sign |
| Strategy.TargetNotional | src/strategy.py:88-89 | the smaller venue limit times the safety factor; StrategyLemmas.SafeSizingBounds bounds the leg leverages it produces |
| StrategyLemmas.HlAllocationPositive | src/strategy.py:84-85 | a positive split and equity give Hyperliquid positive equity |
| StrategyLemmas.IbkrAllocationPositive | src/strategy.py:84-85 | a split below 1 and positive equity give IBKR positive equity |
| StrategyLemmas.PreTradeGuardsPassIff | src/strategy.py:88-104 | with equity on both venues, the pre-trade guards pass exactly when safety_factor ≤ 1 |
| StrategyLemmas.RebalanceBand | src/strategy.py:107-111 | a rebalance happens exactly when the target is not positive or the position drifts more than 10 % from it |
| Strategy.CurrentNotional | src/strategy.py:107 | the held notional, 0 without a positive share count; used by StrategyLemmas.RebalanceBand |
| Strategy.Drift | src/strategy.py:108 | the relative distance from the target, 999 without a positive target; StrategyLemmas.RebalanceBand states its meaning |
| Strategy.Rebalances | src/strategy.py:110 | the drift exceeds 10%; StrategyLemmas.RebalanceBand and StrategyLemmas.FirstHourRebalances state when |
| Strategy.TradeCost | src/strategy.py:112-113 | 12 basis points of the traded notional; StrategyLemmas.ExecuteCost states it on the executed trade |
| Strategy.Execute | src/strategy.py:106-118 | a hold leaves the state unchanged; a rebalance sets the position to the target; at a positive price a trade never raises equity |
| StrategyLemmas.ExecuteCost | src/strategy.py:111-117 | the trade costs 12 bps of the notional traded |
| StrategyLemmas.TradedNotional | src/strategy.py:112-114 | the traded notional is the absolute difference between the target and the current position |
| StrategyLemmas.FirstHourRebalances | src/strategy.py:107-111 | with no shares held, the first hour always trades |
| Strategy.IbkrLoan | src/strategy.py:123 | the loan is the part of the position that IBKR equity does not cover, and at least 0 |
| Strategy.MaintenanceCheck | src/strategy.py:138-145 | HL liquidation exactly when HL equity < 5 % of a positive position; otherwise an IBKR margin call exactly when IBKR equity < 10 % of it |
| StrategyLemmas.SettleAccounting | src/strategy.py:120-131 | equity changes by funding income minus interest; the loan and interest rows are those of the position |
| Strategy.Settle | src/strategy.py:120-161 | financing, funding, the equity update, the maintenance guards and the row; StrategyLemmas.SettleAccounting states its accounting |
| StrategyLemmas.StepSettles | src/strategy.py:80-131 | a recorded hour is the settlement of the executed trade, after the pre-trade guards pass |
| StrategyLemmas.StepAccountingRebalance | src/strategy.py:106-131 | a rebalancing hour's equity is the old equity − cost + income − interest, and its position is the target |
| StrategyLemmas.StepAccountingHold | src/strategy.py:106-131 | a holding hour keeps its shares, and its equity changes by income − interest |
| StrategyLemmas.StepRowShape | src/strategy.py:148-173 | a failure row has 0 equity; a record row carries the new equity and a non-negative loan; both carry the hour's datetime and price |
| StrategyLemmas.BreakevenPaysInterest | src/strategy.py:148-161 | the breakeven funding rate exactly pays the hour's interest |
| StrategyLemmas.NetSpreadAprPerPosition | src/strategy.py:148-161 | the net spread APR is annualised net PnL per unit of position, in percent |
| StrategyLemmas.SafeSizingBounds | src/strategy.py:88-89 | with safety ≤ 0.9 the target is positive and within 18× HL and 5.94× IBKR equity |
| StrategyLemmas.MaintenancePassesWithin | src/strategy.py:138-145 | within those bounds and 10 % drift, no maintenance guard fires |
| StrategyLemmas.StepRecordsWhenSafe | src/strategy.py:80-161 | with safety ≤ 0.9 and positive equity, an hour always records |
| StrategyLemmas.StepFailsOnlyOnMaintenance | src/strategy.py:93-145 | with safety ≤ 1, an hour can only fail a maintenance guard |
| Strategy.FailRow | src/strategy.py:167-173 | `_fail_row`: the hour's datetime and price with zero equity, allocations, position, loan and APRs, and the reason; StrategyLemmas.StepRowShape states that a failed hour appends this shape of row |
| Strategy.RecordRow | src/strategy.py:148-161 | the recorded row: the hour's datetime and price, the settled equity, position, allocations, loan, income and interest, the funding APR, the net spread APR and the breakeven rate; StrategyLemmas.NetSpreadAprPerPosition and StrategyLemmas.BreakevenPaysInterest state what the last two mean |
| Strategy.Step | src/strategy.py:80-161 | one pass of the loop: the pre-trade guards, then execution, financing, funding, the maintenance guards and the row; StrategyLemmas.StepSettles, StepAccountingRebalance, StepAccountingHold, StepRecordsWhenSafe and StepFailsOnlyOnMaintenance state its outcomes |
| Strategy.SimFrom | src/strategy.py:79-163 | the rows appended from a given state: at most one per hour and at least one while an hour remains; StrategyLemmas.SimFromOnlyLastStops and StrategyLemmas.SimFromStopsEarly state that only the last row can be a failure or end at non-positive equity |
| Strategy.Simulate | src/strategy.py:67-165 | the table is never longer than the input, and is empty exactly when the input is |
| Strategy.Run | src/strategy.py:67-165 | the loop with its breaks computes exactly `Simulate` |
| Strategy.RunHour | src/strategy.py:80-161 | one loop iteration computes exactly `Step` |
| StrategyLemmas.SimulateShape | src/strategy.py:67-165 | row k is hour k; every row but the last records positive equity; a table cut short ends in a failure row or equity ≤ 0 |
| StrategyLemmas.SimulateSafe | src/strategy.py:67-165 | with safety ≤ 0.9 a run never fails; with safety ≤ 1 every failure is a liquidation or margin call |
| Metrics.AnnualExponent | src/strategy.py:178-179 | the annualising exponent 365/max(days, 1) is in (0, 365] |
| Metrics.AnnualExponentFloor | src/strategy.py:179 | elapsed days are floored at 1: a run of at most one day has exponent exactly 365 |
| Metrics.AnnualExponentSpan | src/strategy.py:178-179 | over at least one day, exponent · days == 365 |
| Metrics.Drawdowns | src/strategy.py:180-181 | the column (equity − cummax) / cummax, one entry per equity value; Metrics.DrawdownsRange bounds each entry |
| Metrics.MaxDrawdown | src/strategy.py:181 | the minimum of the drawdown column; Metrics.MaxDrawdownNonPositive, MaxDrawdownNegative and MaxDrawdownIsWorstDecline state what it means |
| Metrics.DrawdownsRange | src/strategy.py:180-181 | every drawdown is ≤ 0, and is 0 exactly at a running peak |
| Metrics.MaxDrawdownNonPositive | src/strategy.py:180-181 | the maximum drawdown is ≤ 0 |
| Metrics.MaxDrawdownNegative | src/strategy.py:180-181 | the maximum drawdown is < 0 exactly when equity falls somewhere |
| Metrics.MaxDrawdownIsWorstDecline | src/strategy.py:180-181 | the maximum drawdown is the worst relative decline from any earlier point, and is attained |
| Metrics.ReturnsCompoundAll | src/strategy.py:182 | compounding the hourly returns from the first equity gives back every equity |
| Metrics.Sharpe | src/strategy.py:183 | a Sharpe ratio with no volatility is 0 |
| Metrics.GetMetrics | src/strategy.py:175-184 | None exactly below 24 rows; otherwise Final is the last equity |
| Metrics.GetMetricsParts | src/strategy.py:175-184 | MaxDD is the worst drawdown (≤ 0), CAGR is annualised from capital over the span, Sharpe is that of the hourly returns |
| Metrics.Summary | src/strategy.py:176-184 | the metrics of a table long enough to have them, its final equity being the last row's; Metrics.GetMetricsParts states each field |
| Metrics.EngineMetricsDefined | src/strategy.py:67-184 | the engine's own tables of 24 or more rows can always be summarised (no division by zero equity) |
| Metrics.ZeroCapitalStops | src/strategy.py:163 | a zero capital stops the run after at most one row |
| Metrics.GetSpreadStats | src/strategy.py:186-203 | None exactly for an empty table |
| Metrics.WinRate | src/strategy.py:188-199 | the share of hours with a positive net spread; Metrics.WinRateRange puts it in [0, 1] and ties its bounds to all or no hours winning |
| Metrics.ProfitFactor | src/strategy.py:190-201 | gross profit over gross loss, 0 without losses; Metrics.ProfitFactorMeaning and Metrics.ProfitFactorZero state its meaning |
| Metrics.WinRateRange | src/strategy.py:189-199 | the win rate is in [0, 1]; it is 1 exactly when every spread is positive, and 0 exactly when none is |
| Metrics.GrossParts | src/strategy.py:191-192 | gross profit and loss are ≥ 0, positive exactly when some spread has that sign, and differ by the total spread |
| Metrics.ProfitFactorMeaning | src/strategy.py:191-201 | with some loss, factor · loss == profit, and the factor > 1 exactly when the total is positive |
| Metrics.ProfitFactorZero | src/strategy.py:191-201 | the factor is 0 exactly when the spreads never change sign |
| Metrics.SpreadLosingStreak | src/strategy.py:194-196 | the max losing streak is the longest run of negative spreads, 0 exactly when none is negative |
| Metrics.SpreadStatsRanges | src/strategy.py:186-203 | the win-rate and profit-factor properties hold for the reported statistics |
| Optimization.LegRatio | src/optimization_engine.py:32-33 | NaN exactly at zero venue equity; otherwise ratio · equity == position |
| Optimization.HlLeverages | src/optimization_engine.py:32 | one entry per row: the HL leg's ratio |
| Optimization.IbkrLeverages | src/optimization_engine.py:33 | one entry per row: the IBKR leg's ratio |
| Optimization.Sentinel | src/optimization_engine.py:50-61 | the row of a failed cell: APR 0, unsafe, leverage 999 on both legs; Optimization.CellOutcome states when a cell gets it |
| Optimization.Summarised | src/optimization_engine.py:30-49 | the row of a summarised run: CAGR in percent, the NaN-skipping maximum leg leverages, safe only strictly below 20 and 6.6; Optimization.SafeIffWithinLimits and Optimization.LegMaxSkipsZeroEquity state its safety flag and maxima |
| Optimization.OptimizationEngine.Strategy | src/optimization_engine.py:26 | the positional bindings: lev → hl_split_pct, split → benchmark_rate, benchmark → safety_factor |
| Optimization.OptimizationEngine.Cell | src/optimization_engine.py:24-61 | one cell of the grid: the summary row when the run has metrics, the sentinel otherwise; Optimization.CellOutcome states this case split |
| Optimization.OptimizationEngine.Grid | src/optimization_engine.py:22-63 | the cells in row-major order, leverage outermost; Optimization.GridShape states its length and the cell at each index |
| Optimization.OptimizationEngine.RunGridSearch | src/optimization_engine.py:11-63 | results are the 9 × 5 grid of cells, lev-major |
| Optimization.OptimizationEngine.GridSearch | src/optimization_engine.py:22-61 | the nested loops produce the grid table |
| Optimization.OptimizationEngine.SplitLoop | src/optimization_engine.py:23-61 | the inner loop produces one cell per split, in order |
| Optimization.OptimizationEngine.RunCell | src/optimization_engine.py:24-61 | one iteration's try/except computes the cell |
| Optimization.GridShape | src/optimization_engine.py:22-63 | the grid has len(levs) · len(splits) rows; row i · len(splits) + j is the cell (levs[i], splits[j]) |
| Optimization.RunGridSearchLength | src/optimization_engine.py:16-18 | the grid search returns 45 rows |
| Optimization.GridPassesValidators | config.py:93-99 | a sanity check on the constants (the optimizer never calls the validators): every grid leverage passes `validate_leverage` (0.1 to 10, inclusive) and every split passes `validate_split` (0.10 to 0.90, inclusive) |
| Optimization.CellOutcome | src/optimization_engine.py:26-61 | a run under 24 rows is the 999 sentinel; otherwise APR = CAGR · 100 and the maxima are the NaN-skipping leg maxima |
| Optimization.LegMaxSkipsZeroEquity | src/optimization_engine.py:32-37 | the leg maximum is NaN exactly when the venue equity is always 0; otherwise it is the largest ratio over non-zero equity, and is attained |
| Optimization.SafeIffWithinLimits | src/optimization_engine.py:40 | Safe exactly when both legs have a defined maximum and every ratio is below 20 (HL) and 6.6 (IBKR) |
| Optimization.GridNeverLong | src/optimization_engine.py:26 | with lev ≥ 1 as hl_split_pct, no grid run ever holds a positive position or fails |
| Ranker.AssetRanker.Visit | src/asset_ranker.py:16-33 | one pass of the loop body: the ticker's row, or nothing when the fetch or filter fails, the filtered frame is empty or has 24 rows or fewer, or it has no funding column; Ranker.AssetRanker.VisitMeaning states this both ways |
| Ranker.Qualifies | src/asset_ranker.py:21 | a non-empty frame with more than 24 rows; Ranker.AssetRanker.TwentyFourIsTooFew states the strict threshold |
| Ranker.AssetRanker.NetApr | src/asset_ranker.py:24-25 | (mean funding × 24 × 365 − benchmark) × 100; the value Ranker.AssetRanker.VisitMeaning reports for a kept ticker |
| Ranker.AssetRanker.Collected | src/asset_ranker.py:15-33 | the rows the loop appends, in visiting order; Ranker.AssetRanker.CollectedLength, CollectedMembers and CollectedSampleHours state their count, membership and sample sizes |
| Ranker.AssetRanker.CollectRows | src/asset_ranker.py:9-33 | the loop collects exactly the rows of the tickers that qualify, in order |
| Ranker.AssetRanker.VisitMeaning | src/asset_ranker.py:15-33 | a ticker yields a row exactly when fetch and filter succeed and more than 24 hours with a funding column remain; its APR is (mean funding · 8760 − benchmark) · 100 |
| Ranker.AssetRanker.TwentyFourIsTooFew | src/asset_ranker.py:21 | exactly 24 hours is skipped |
| Ranker.AssetRanker.CollectedLength | src/asset_ranker.py:15-33 | at most one row per ticker |
| Ranker.AssetRanker.CollectedMembers | src/asset_ranker.py:15-33 | a row is collected exactly when some ticker yields it |
| Ranker.AssetRanker.CollectedSampleHours | src/asset_ranker.py:21-31 | every collected row has more than 24 sample hours |
| Ranker.AssetRanker.RunRanking | src/asset_ranker.py:9-36 | the method as written: the ranking is raised on an empty result, and sorted otherwise |
| Ranker.RankingAsWritten | src/asset_ranker.py:36 | Raised exactly when nothing was collected; otherwise the rows sorted by descending APR |
| Ranker.AssetRanker.EmptyRankingRaises | src/asset_ranker.py:36 | when no ticker qualifies, nothing is collected and the ranking raises |
| Ranker.AssetRanker.RankAssets | src/asset_ranker.py:9-36 | the corrected ranking: the collected rows sorted by descending APR, and empty when none is collected |
| Ranker.AssetRanker.RankAssetsIsRanking | src/asset_ranker.py:36 | the ranking is ordered by non-increasing APR and is a permutation of the collected rows |
| Ranker.SortDesc | src/asset_ranker.py:36 | the rows ordered by non-increasing APR, as many as given; Ranker.SortDescSorted and Ranker.SortDescPermutes state that it is sorted and a permutation |
| Ranker.SortDescSorted | src/asset_ranker.py:36 | the sort orders by non-increasing APR |
| Ranker.SortDescPermutes | src/asset_ranker.py:36 | the sort is a permutation |
| DataPrep.HourOfDay | src/utils/data_prep.py:39 | the hour is in [0, 24) |
| DataPrep.DayOfWeek | src/utils/data_prep.py:40-41 | the weekday is in [0, 7) |
| DataPrep.EpochIsThursday | src/utils/data_prep.py:39-41 | the epoch is hour 0 of a Thursday (weekday 3) |
| DataPrep.NextDay | src/utils/data_prep.py:39-41 | a day later is the next weekday, at the same hour, on the next date |
| DataPrep.NextHour | src/utils/data_prep.py:39 | an hour later is the next hour of the day |
| DataPrep.Enhance | src/utils/data_prep.py:28-41 | one enhanced row per row |
| DataPrep.PrepareEnhanced | src/utils/data_prep.py:11-43 | an empty frame comes back as it is, a frame missing price, funding or datetime raises, any other is enhanced; DataPrep.PrepareEnhancedCases states this three-way split |
| DataPrep.PrepareEnhancedCases | src/utils/data_prep.py:11-43 | an empty frame is returned as given; a missing required column raises; otherwise the derived columns are added to every row |
| DataPrep.EnhanceReturns | src/utils/data_prep.py:28 | the first return is 0; every other is the percentage change from the previous price |
| DataPrep.ReturnsMeaning | src/utils/data_prep.py:28 | `pct_change().fillna(0)`: 0 first, then return · previous == change |
| DataPrep.EnhanceFields | src/utils/data_prep.py:28-41 | the columns are kept; abs_returns is abs(returns); funding_apr = funding · 876000; hour in [0, 24); the day name is DAYS_ORDER[weekday] |
| DataPrep.FilterByDate | src/utils/data_prep.py:46-62 | the rows whose date lies in the inclusive range, their order kept; DataPrep.FilterByDateMeaning and DataPrep.FilterByDateOrder state this |
| DataPrep.FilterByDateMeaning | src/utils/data_prep.py:46-62 | empty frames come back as given; no datetime column raises; otherwise a row is kept exactly when its date is in [start, end] |
| DataPrep.FilterByDateOrder | src/utils/data_prep.py:61-62 | filtering keeps the rows' order (it distributes over concatenation) |
| DataPrep.ActiveTradingData | src/utils/data_prep.py:65-79 | the weekday rows, or the frame unchanged when it is empty or has no day_of_week; DataPrep.ActiveTradingDataMeaning states this |
| DataPrep.ActiveTradingDataMeaning | src/utils/data_prep.py:65-79 | without day_of_week the frame is returned as is; otherwise a row is kept exactly when it falls on a weekday |
| DataPrep.NatStringRoundTrip | src/utils/data_prep.py:175 | the row count printed in the message reads back as the count |
| DataPrep.NatString | src/utils/data_prep.py:175 | the decimal digits `str` writes for a count, never empty; DataPrep.NatStringRoundTrip parses them back |
| DataPrep.Join | src/utils/data_prep.py:172 | the comma-and-space join of the missing list, used by DataPrep.ValidateMeaning's message |
| DataPrep.MissingColumns | src/utils/data_prep.py:168-169 | the required columns the frame lacks; DataPrep.MissingColumnsMeaning and DataPrep.MissingColumnsOrder state which and in what order |
| DataPrep.MissingColumnsMeaning | src/utils/data_prep.py:168-172 | the missing list is exactly the required columns that are absent |
| DataPrep.MissingColumnsOrder | src/utils/data_prep.py:168-169 | the missing list names the absent columns in the order datetime, price, funding |
| DataPrep.ValidateDataframe | src/utils/data_prep.py:154-177 | the verdict and its message; DataPrep.ValidateMeaning states both |
| DataPrep.ValidateMeaning | src/utils/data_prep.py:154-177 | valid exactly when non-empty, with all required columns and at least min_rows rows, and exactly when the message is empty; the checks run in the order empty, missing columns, row count; the messages are "Dataframe is empty", "Missing required columns: " followed by the comma-joined missing list, and "Insufficient data: N rows (minimum: M)" |
| Streaks.StreakIds | src/utils/data_prep.py:104 | one streak id per element; Streaks.StreakIdsCumulative states that it is the cumulative count of flag changes |
| Streaks.Groups | src/utils/data_prep.py:104-110 | the group-by over streak ids with each group's flag and size; Streaks.GroupsAreRuns proves it equal to the run decomposition |
| Streaks.Runs | src/utils/data_prep.py:104-110 | the independent reference: the maximal runs of equal flags; Streaks.RunsEncode and Streaks.RunsCover state that it encodes the series |
| Streaks.RunsEncode | src/utils/data_prep.py:104-110 | the run decomposition expands back to the series, is maximal, ends with the last flag and has at most len(series) runs |
| Streaks.RunsCover | src/utils/data_prep.py:104-110 | the run lengths add up to the series length |
| Streaks.StreakIdsCumulative | src/utils/data_prep.py:104 | `(s != s.shift()).cumsum()`: the first id is 1, and ids grow by 1 exactly at a flag change |
| Streaks.GroupsAreRuns | src/utils/data_prep.py:104-110 | grouping by streak id gives exactly the run decomposition |
| Streaks.StreakStats | src/utils/data_prep.py:82-125 | an empty series gives all zeros (lines 92-98) |
| Streaks.CurrentStreak | src/utils/data_prep.py:117-118 | the current streak is the last run's length: the trailing elements share the last flag, and the one before differs |
| Streaks.LongestWinStreak | src/utils/data_prep.py:113-121 | the longest positive run, ≥ 1 when any value is positive, 0 exactly when none is |
| Streaks.LongestLoseStreak | src/utils/data_prep.py:114-122 | the longest non-positive run, with the same pair of guarantees |
| Streaks.MeanWinStreak | src/utils/data_prep.py:113-123 | 0 without positive runs; otherwise between 1 and the longest run |
| Streaks.LongestFlaggedRun | src/strategy.py:194-196 | the largest flagged count over the streak groups is the longest flagged run, ≥ 1 when any flag is set, 0 exactly when none is |
| Risk.DrawdownSeries | src/calculators/risk_calculator.py:22-35 | one cumulative maximum, drawdown and percentage per row |
| Risk.DrawdownSeriesPeak | src/calculators/risk_calculator.py:31-32 | the running peak bounds the equity and never decreases; the drawdown is ≤ 0 and is 0 exactly at a peak |
| Risk.DrawdownPctIsRatio | src/calculators/risk_calculator.py:33 | `safe_divide`: the percentage is drawdown/peak · 100, or 0 at a zero peak |
| Risk.DrawdownPctRange | src/calculators/risk_calculator.py:33 | under a positive peak the percentage is in [−100, 0] for non-negative equity |
| Risk.DrawdownPctMatchesMetrics | src/calculators/risk_calculator.py:22-35 | the percentage column is 100 × the drawdown that get_metrics minimises |
| Risk.LegLeverages | src/calculators/risk_calculator.py:88-110 | None exactly on the engine's empty table, which has no position_usd column (the KeyError); otherwise one HL and one IBKR leverage per row |
| Risk.LegLeveragesMatchGrid | src/calculators/risk_calculator.py:103-108 | 0 at zero venue equity, otherwise the grid search's ratio |
| Risk.VolatilityLimit | src/calculators/risk_calculator.py:37-58 | the 3-sigma leverage limit; Risk.VolatilityLimitBounds states its cases and bounds |
| Risk.DailyVol | src/calculators/risk_calculator.py:52 | the standard deviation times sqrt(24), both uninterpreted; used by Risk.VolatilityLimitBounds and Risk.RiskStatusBounds |
| Risk.VolatilityLimitBounds | src/calculators/risk_calculator.py:37-58 | capped at 50; 1 for short or empty history; 20 at zero volatility; otherwise positive and 1/(3·vol) below the cap |
| Risk.ActiveReturns | src/calculators/risk_calculator.py:129 | one return per weekday row |
| Risk.GetRiskStatus | src/calculators/risk_calculator.py:112-154 | the risk status, or nothing where the source raises; Risk.RiskStatusBounds and Risk.ShortHistoryLimits state when it exists and its bounds |
| Risk.RiskStatusBounds | src/calculators/risk_calculator.py:112-154 | defined exactly when results exist and the frame has day_of_week and returns; the safe leverages are min(venue cap, vol limit), IBKR ≤ HL; max drawdown ≤ current |
| Risk.ShortHistoryLimits | src/calculators/risk_calculator.py:142-144 | under 720 active hours both safe leverages are 1 |
| Risk.StressTest.Strategy | src/calculators/risk_calculator.py:182 | the positional bindings: lev → hl_split_pct, hl_split → benchmark_rate, benchmark → safety_factor |
| Risk.FailedScenario | src/calculators/risk_calculator.py:208-218 | the row of a failed scenario: NaN leg maxima, CAGR 0, Max DD 100, Sharpe 0, volatility 0; Risk.StressTest.ScenarioOutcome states when a scenario gets it |
| Risk.StressTest.Scenario | src/calculators/risk_calculator.py:181-218 | one scenario's row from its simulation and metrics; Risk.StressTest.ScenarioOutcome and Risk.StressTest.ScenarioMetrics state its cases and values |
| Risk.StressTest.RunScenario | src/calculators/risk_calculator.py:180-218 | one iteration computes the scenario row |
| Risk.StressTest.RunStressTest | src/calculators/risk_calculator.py:156-220 | the loop computes one row per scenario leverage, in order |
| Risk.StressTest.StressRows | src/calculators/risk_calculator.py:179-218 | the loop maps the scenario function over the leverages |
| Risk.StressTest.ScenarioOutcome | src/calculators/risk_calculator.py:186-218 | the row names its leverage; a run under 24 rows is the failure row |
| Risk.StressTest.ScenarioMetrics | src/calculators/risk_calculator.py:186-204 | CAGR · 100, max drawdown · 100 (≤ 0), the Sharpe ratio and the legs' maximum leverage |
| Risk.StressTest.StressNeverLong | src/calculators/risk_calculator.py:182 | with lev ≥ 1 as hl_split_pct, no scenario ever holds a positive position |
| Risk.ScenariosPassValidator | config.py:93-95 | a sanity check on the constants (the stress test never calls the validator): every stress-test leverage passes `validate_leverage` |
| Risk.ScenarioRow | src/calculators/risk_calculator.py:186-218 | the row names its leverage; without metrics it is the failure row |
| Risk.StressTestShape | src/calculators/risk_calculator.py:177-220 | 7 rows; row k is scenario k at leverage 1.0, 1.5, …, 4.0 |
| Spread.CalculateKpiMetrics | src/calculators/spread_calculator.py:13-53 | an empty table gives all zeros; otherwise CAGR and MaxDD are in percent |
| Spread.CurrentYield | src/calculators/spread_calculator.py:36-40 | the mean of the last 24 spreads, or the last spread of a shorter table; Spread.KpiYields and Spread.MeanBetween bound it |
| Spread.NegativeFrequency | src/calculators/spread_calculator.py:42-45 | the percentage of hours with a negative spread; Spread.NegativeFrequencyRange puts it in [0, 100] |
| Spread.KpiYields | src/calculators/spread_calculator.py:34-40 | the average yield is within the spreads' range; the current yield is the last spread under 24 rows, otherwise within the last 24's range |
| Spread.KpiConstantSpread | src/calculators/spread_calculator.py:34-40 | a constant spread is both yields |
| Spread.NegativeFrequencyRange | src/calculators/spread_calculator.py:43-45 | in [0, 100]; 0 exactly when no spread is negative; 100 exactly when all are |
| Spread.MeanBetween | src/calculators/spread_calculator.py:34 | a mean lies between the minimum and maximum |
| Spread.PrepareSpreadData | src/calculators/spread_calculator.py:56-71 | None exactly on the engine's empty table, which has no net_spread_apr column (the KeyError); otherwise one positive and one negative entry per row |
| Spread.SpreadPartsSplit | src/calculators/spread_calculator.py:56-71 | the parts have the spread's sign, at most one is non-zero, they add up to the spread, and their sums are the gross profit and −gross loss |
| Spread.CalculateCapitalAllocation | src/calculators/spread_calculator.py:74-109 | None exactly for an empty table; otherwise the last row's equities |
| Spread.CapitalAllocationMeaning | src/calculators/spread_calculator.py:88-99 | shares are percent of total equity (0 when it is not positive); they add up to 100 when the two venue equities sum to the total, which engine rows generally do not (the venue split is taken before the hour's cost and PnL); a leg's leverage is position/equity (0 when equity is not positive) |
| Spread.AllocationMatchesLegLeverage | src/calculators/spread_calculator.py:94-99 | at non-negative venue equity the allocation's leverage is the leg leverage's last entry |
| Stats.RollingCorrelation | src/calculators/stats_calculator.py:18-34 | one correlation per index, that of the window ending there |
| Stats.Autocorrelation | src/calculators/stats_calculator.py:53-64 | max_lag values (none when max_lag ≤ 0); entry k is the lag-(k+1) autocorrelation |
| Stats.SeparatePositiveNegativeCorr | src/calculators/stats_calculator.py:37-50 | parts ≥ 0 and ≤ 0 with at most one non-zero; on a number they add up to it; a NaN gives 0 to both |
| Stats.Latest | src/calculators/stats_calculator.py:101-102 | the last correlation, 0 when it is NaN; used by Stats.CalculateMarketDynamics |
| Stats.Fallback | src/calculators/stats_calculator.py:83-92 | the fallback reports 24 zero autocorrelations |
| Stats.CalculateMarketDynamics | src/calculators/stats_calculator.py:67-118 | the fallback without funding or returns; a KeyError exactly when abs_returns is then missing |
| Stats.MarketDynamicsShape | src/calculators/stats_calculator.py:95-118 | 24 lags; one correlation per row; the current values are the last correlations (0 for NaN); the parts add up to the correlation |

## Left out

- numpy's inf/NaN arithmetic on divisions the source does not guard. The engine requires
  every price to be non-zero (`Strategy.NonZeroPrices`). `Series.Returns` requires every
  equity but the last to be non-zero (`Series.Divisible`), where pandas would produce inf.
- DataPrep.Enhance and DataPrep.PrepareEnhanced: require every price but the last to be
  non-zero (`Series.Divisible`), so the inf return that `pct_change` gives after a zero
  price is not modelled.
- Metrics.GetMetrics: requires capital ≠ 0 and positive equity in every row but the last
  (`Metrics.MetricsDefined`). Other tables give numpy inf/NaN. `Metrics.EngineMetricsDefined`
  shows the engine's own output always meets this.
- Floating-point statistics (`**`, `sqrt`, `std`, autocorrelation, rolling correlation, the
  daily resampled equity volatility). They are uninterpreted functions, so CAGR, Sharpe and
  the volatilities are stated only in terms of them.
- `np.arange` rounding. The grid ranges are the exact decimal sequences 1.0, 1.5, …, 5.0 and
  0.1, …, 0.5, and the grid search is also modelled for any given sequences.
- `vol_24h` and `vol_7d` in `prepare_enhanced_dataframe`: rolling standard deviations,
  uninterpreted and unused by the rest of the core.
- `calculate_rolling_vol_limit`: a rolling standard deviation clipped elementwise, unused
  by the core's other operations.
- The heatmap builders (`calculate_heatmap_data` in data_prep.py and stats_calculator.py):
  a pivot table for charts.
- Risk.RiskStatusBounds: no contract states the values of `vol_30d` and `vol_5d`, nor which
  window (the last 720 or 120 active returns, the whole series, or the default 0.05) they
  are taken over; only the body of `Risk.GetRiskStatus` selects it, and the standard
  deviation itself is uninterpreted.
- The "System Lev" string label of the stress-test rows is modelled as its leverage.
- Timestamp parsing in data_prep and the `timestamp` to `datetime` conversion at the start of
  `run` (src/strategy.py:71-72). Datetimes are UTC epoch milliseconds.
- Data fetching (`data_engine.py`), the dashboard, the charts and `main.py`: I/O and UI.
  The ranker's fetch and filter are function parameters.
- `AssetRanker`'s `capital` is kept as a field (`Ranker.AssetRanker`) and, as in the source,
  never read.
- `OptimizerConfig`, `RankerThresholds` and `ChartColors` in config.py are not read by the
  core.
- Exceptions are modelled only where the source catches them or where they end a call.
  These are the ranker's per-ticker `except`, the optimizer's and the stress test's
  `except`, and the KeyErrors of the empty ranking, of a frame missing `abs_returns`, and of
  the engine's empty, column-less result table in `get_risk_status`, `calculate_leg_leverage`
  and `prepare_spread_data`.
  Python exceptions of other kinds, such as a wrong column type, are outside the model.

## Findings

| source | as written | input that shows it | evidently intended | confidence | as-written member | corrected member |
|---|---|---|---|---|---|---|
| src/asset_ranker.py:36 | `pd.DataFrame(results).sort_values(by="Avg Net APR")` on an empty `results` raises KeyError, because an empty frame has no such column | every ticker fails to fetch or has at most 24 hours of data | an empty ranking | not executed | Ranker.AssetRanker.RunRanking (Ranker.AssetRanker.EmptyRankingRaises) | Ranker.AssetRanker.RankAssets (Ranker.AssetRanker.RankAssetsIsRanking) |
