/** `RiskCalculator` (src/calculators/risk_calculator.py): the drawdown curve, per-venue
    leverage, the volatility-based leverage limit, the dashboard's risk status and the
    leverage stress test. The calculator's limits are the `ExchangeLimits` constants. */
module Risk {
  import opened Wrappers
  import opened Floats
  import opened Series
  import opened Frames
  import opened Strategy
  import opened StrategyLemmas
  import opened Metrics
  import Config
  import DataPrep
  import Optimization

  /** The default rolling window of `calculate_volatility_limit`, 30 days of hours. */
  const VOL_WINDOW: nat := 720
  /** The 5-day window of the risk status. */
  const SHORT_WINDOW: nat := 120
  /** The limit for a series too short to measure, for zero volatility, and the cap. */
  const SHORT_SERIES_LIMIT: real := 1.0
  const ZERO_VOL_LIMIT: real := 20.0
  const LIMIT_CAP: real := 50.0
  /** The 30-day volatility reported when there are no active returns. */
  const DEFAULT_VOL: real := 0.05
  /** `np.arange(1.0, 4.5, 0.5)`, as exact decimals. */
  const SCENARIOS: seq<real> := [1.0, 1.5, 2.0, 2.5, 3.0, 3.5, 4.0]

  // ---------------------------------------------------------------------------------
  // calculate_drawdown_series
  // ---------------------------------------------------------------------------------

  /** The columns `equity`, `cum_max`, `drawdown` and `drawdown_pct`. */
  datatype DrawdownFrame = DrawdownFrame(equity: seq<real>, cumMax: seq<real>, drawdown: seq<real>, drawdownPct: seq<real>)

  function Differences(a: seq<real>, b: seq<real>): (d: seq<real>)
    requires |a| == |b|
    ensures |d| == |a| && forall i :: 0 <= i < |a| ==> d[i] == a[i] - b[i]
  {
    seq(|a|, i requires 0 <= i < |a| => a[i] - b[i])
  }

  function Scaled(a: seq<real>, c: real): (d: seq<real>)
    ensures |d| == |a| && forall i :: 0 <= i < |a| ==> d[i] == a[i] * c
  {
    seq(|a|, i requires 0 <= i < |a| => a[i] * c)
  }

  /** `calculate_drawdown_series`: the running peak, the distance below it, and that
      distance as a percentage of the peak (0 where the peak is 0). */
  function DrawdownSeries(equity: seq<real>): (d: DrawdownFrame)
    ensures |d.cumMax| == |equity| && |d.drawdown| == |equity| && |d.drawdownPct| == |equity|
  {
    var cumMax := CumMax(equity);
    var drawdown := Differences(equity, cumMax);
    DrawdownFrame(equity, cumMax, drawdown,
      Scaled(Config.SafeDivideSeries(Nums(drawdown), Nums(cumMax), 0.0), 100.0))
  }

  /** The running peak is at least the current value and never falls, and the drawdown
      is never positive. */
  lemma DrawdownSeriesPeak(equity: seq<real>)
    ensures var d := DrawdownSeries(equity);
      forall i :: 0 <= i < |equity| ==>
        d.cumMax[i] >= equity[i] && d.drawdown[i] <= 0.0 && d.drawdown[i] == equity[i] - d.cumMax[i]
        && (d.drawdown[i] == 0.0 <==> equity[i] == d.cumMax[i])
    ensures var d := DrawdownSeries(equity);
      forall i, j :: 0 <= i <= j < |equity| ==> d.cumMax[i] <= d.cumMax[j]
  {
    var d := DrawdownSeries(equity);
    forall i, j | 0 <= i <= j < |equity| ensures d.cumMax[i] <= d.cumMax[j] {
      var k :| 0 <= k <= i && equity[k] == PrefixMax(equity, i);
    }
  }

  /** Where the peak is non-zero the percentage is the drawdown over the peak times 100,
      and where it is 0 the percentage is 0. */
  lemma DrawdownPctIsRatio(equity: seq<real>)
    ensures var d := DrawdownSeries(equity);
      forall i :: 0 <= i < |equity| ==>
        (d.cumMax[i] == 0.0 ==> d.drawdownPct[i] == 0.0)
        && (d.cumMax[i] != 0.0 ==> d.drawdownPct[i] == d.drawdown[i] / d.cumMax[i] * 100.0)
  {
    forall i | 0 <= i < |equity| {
      DrawdownPctAt(equity, i);
    }
  }

  lemma DrawdownPctAt(equity: seq<real>, i: nat)
    requires i < |equity|
    ensures var d := DrawdownSeries(equity);
      (d.cumMax[i] == 0.0 ==> d.drawdownPct[i] == 0.0)
      && (d.cumMax[i] != 0.0 ==> d.drawdownPct[i] == d.drawdown[i] / d.cumMax[i] * 100.0)
  {
    var cm := CumMax(equity);
    var dd := Differences(equity, cm);
    var d := DrawdownSeries(equity);
    assert d.cumMax[i] == cm[i] && d.drawdown[i] == dd[i];
    assert d.drawdownPct[i] == Config.SafeDivideAt(Num(dd[i]), Num(cm[i]), 0.0) * 100.0;
  }

  /** Below a positive peak the percentage lies in [-100, 0] for a non-negative equity. */
  lemma DrawdownPctRange(equity: seq<real>, i: nat)
    requires i < |equity| && DrawdownSeries(equity).cumMax[i] > 0.0
    ensures var d := DrawdownSeries(equity);
      d.drawdownPct[i] <= 0.0 && (equity[i] >= 0.0 ==> d.drawdownPct[i] >= -100.0)
  {
    var d := DrawdownSeries(equity);
    DrawdownSeriesPeak(equity);
    DrawdownPctAt(equity, i);
    PctBounds(d.drawdownPct[i], d.drawdown[i], d.cumMax[i], equity[i]);
  }

  lemma PctBounds(p: real, x: real, c: real, e: real)
    requires c > 0.0 && x == e - c && e <= c && p == x / c * 100.0
    ensures p <= 0.0 && (e >= 0.0 ==> p >= -100.0)
  {
    DivCompare(x, c, 0.0);
    DivCompare(x, c, -1.0);
  }

  /** Over a positive first value the percentage is the `get_metrics` drawdown in percent. */
  lemma DrawdownPctMatchesMetrics(equity: seq<real>)
    requires |equity| > 0 && equity[0] > 0.0
    ensures forall i :: 0 <= i < |equity| ==>
      DrawdownSeries(equity).drawdownPct[i] == 100.0 * Drawdowns(equity)[i]
  {
    forall i | 0 <= i < |equity| {
      DrawdownPctMatchesAt(equity, i);
    }
  }

  lemma DrawdownPctMatchesAt(equity: seq<real>, i: nat)
    requires i < |equity| && equity[0] > 0.0
    ensures DrawdownSeries(equity).drawdownPct[i] == 100.0 * Drawdowns(equity)[i]
  {
    var d := DrawdownSeries(equity);
    DrawdownPctAt(equity, i);
    PeakPositive(equity, i);
    var c := PrefixMax(equity, i);
    assert d.cumMax[i] == c && d.drawdown[i] == equity[i] - c;
    assert Drawdowns(equity)[i] == Drawdown(equity[i], c);
    PctIsDrawdown(d.drawdownPct[i], equity[i], c);
  }

  lemma PctIsDrawdown(p: real, e: real, c: real)
    requires c != 0.0 && p == (e - c) / c * 100.0
    ensures p == 100.0 * Drawdown(e, c)
  {}

  // ---------------------------------------------------------------------------------
  // calculate_leg_leverage
  // ---------------------------------------------------------------------------------

  /** The `hl` and `ibkr` series: position over venue equity, 0 where the equity is 0. */
  datatype LegLeverage = LegLeverage(hl: seq<real>, ibkr: seq<real>)

  function Positions(rows: seq<Row>): (p: seq<real>)
    ensures |p| == |rows| && forall i :: 0 <= i < |rows| ==> p[i] == rows[i].positionUsd
  {
    seq(|rows|, i requires 0 <= i < |rows| => rows[i].positionUsd)
  }

  function HlEquities(rows: seq<Row>): (p: seq<real>)
    ensures |p| == |rows| && forall i :: 0 <= i < |rows| ==> p[i] == rows[i].hlEquity
  {
    seq(|rows|, i requires 0 <= i < |rows| => rows[i].hlEquity)
  }

  function IbkrEquities(rows: seq<Row>): (p: seq<real>)
    ensures |p| == |rows| && forall i :: 0 <= i < |rows| ==> p[i] == rows[i].ibkrEquity
  {
    seq(|rows|, i requires 0 <= i < |rows| => rows[i].ibkrEquity)
  }

  /** `calculate_leg_leverage`; `None` on the engine's empty table, which has no
      `position_usd` column, so reading it raises `KeyError`. */
  function LegLeverages(rows: seq<Row>): (l: Option<LegLeverage>)
    ensures l.None? <==> |rows| == 0
    ensures l.Some? ==> |l.value.hl| == |rows| && |l.value.ibkr| == |rows|
  {
    if |rows| == 0 then None
    else
      Some(LegLeverage(
        Config.SafeDivideSeries(Nums(Positions(rows)), Nums(HlEquities(rows)), 0.0),
        Config.SafeDivideSeries(Nums(Positions(rows)), Nums(IbkrEquities(rows)), 0.0)))
  }

  /** On a non-empty table each leg's leverage is the ratio of the grid search where that
      ratio is defined, and 0 where the grid search has NaN. */
  lemma LegLeveragesMatchGrid(rows: seq<Row>)
    ensures |rows| > 0 ==> var l := LegLeverages(rows).value;
      forall i :: 0 <= i < |rows| ==>
        (if rows[i].hlEquity == 0.0 then l.hl[i] == 0.0
         else Optimization.HlLeverages(rows)[i] == Num(l.hl[i]))
        && (if rows[i].ibkrEquity == 0.0 then l.ibkr[i] == 0.0
            else Optimization.IbkrLeverages(rows)[i] == Num(l.ibkr[i]))
  {
    if |rows| > 0 {
      var l := LegLeverages(rows).value;
      forall i | 0 <= i < |rows|
        ensures rows[i].hlEquity != 0.0 ==> Optimization.HlLeverages(rows)[i] == Num(l.hl[i])
        ensures rows[i].ibkrEquity != 0.0 ==> Optimization.IbkrLeverages(rows)[i] == Num(l.ibkr[i])
      {
        var p := rows[i].positionUsd;
        if rows[i].hlEquity != 0.0 {
          MulCancel(l.hl[i], p / rows[i].hlEquity, rows[i].hlEquity);
        }
        if rows[i].ibkrEquity != 0.0 {
          MulCancel(l.ibkr[i], p / rows[i].ibkrEquity, rows[i].ibkrEquity);
        }
      }
    }
  }

  // ---------------------------------------------------------------------------------
  // calculate_volatility_limit and get_risk_status
  // ---------------------------------------------------------------------------------

  /** `std() * sqrt(24)` of a series. */
  function DailyVol(rets: seq<real>, n: Numerics): real {
    n.std(rets) * n.sqrt(24.0)
  }

  /** `calculate_volatility_limit(returns, window)`: 1 for a series shorter than the
      window, 20 when the volatility of its last `window` returns is 0, otherwise the
      3-sigma leverage `1 / (3 * vol)` capped at 50. */
  function VolatilityLimit(rets: seq<real>, window: nat, n: Numerics): real {
    if |rets| == 0 || |rets| < window then SHORT_SERIES_LIMIT
    else
      var vol := DailyVol(Tail(rets, window), n);
      if vol == 0.0 then ZERO_VOL_LIMIT
      else Min2(Config.SafeDivide(1.0, Config.VOL_SAFETY_FACTOR * vol, ZERO_VOL_LIMIT), LIMIT_CAP)
  }

  /** The limit never exceeds 50; it is 1 for a short series, 20 at zero volatility, and for
      a positive volatility it is positive and, below the cap, exactly `1 / (3 * vol)`. */
  lemma VolatilityLimitBounds(rets: seq<real>, window: nat, n: Numerics)
    ensures VolatilityLimit(rets, window, n) <= LIMIT_CAP
    ensures |rets| == 0 || |rets| < window ==> VolatilityLimit(rets, window, n) == 1.0
    ensures var vol := DailyVol(Tail(rets, window), n);
      |rets| > 0 && |rets| >= window && vol == 0.0 ==> VolatilityLimit(rets, window, n) == 20.0
    ensures var vol, r := DailyVol(Tail(rets, window), n), VolatilityLimit(rets, window, n);
      |rets| > 0 && |rets| >= window && vol > 0.0 ==>
        0.0 < r && (r < LIMIT_CAP ==> r * (3.0 * vol) == 1.0)
  {
    var vol := DailyVol(Tail(rets, window), n);
    if |rets| > 0 && |rets| >= window && vol > 0.0 {
      var q := Config.SafeDivide(1.0, 3.0 * vol, 20.0);
      assert q * (3.0 * vol) == 1.0;
      ProductPositive(3.0, vol);
      QuotientPositive(q, 3.0 * vol);
    }
  }

  lemma QuotientPositive(q: real, d: real)
    requires d > 0.0 && q * d == 1.0
    ensures q > 0.0
  {
    if q <= 0.0 {
      MulMonotone(d, q, 0.0);
    }
  }

  /** The dashboard's risk status. */
  datatype RiskStatus = RiskStatus(
    currentDd: real, maxDd: real, vol30d: real, vol5d: real,
    volLimit: real, safeHl: real, safeIbkr: real)

  /** The `returns` column of the weekday rows. */
  function ActiveReturns(df: Frame<DataPrep.EnhancedRow>): (r: seq<real>)
    ensures |r| == |Where(df.rows, DataPrep.Weekday)|
  {
    var rows := Where(df.rows, DataPrep.Weekday);
    seq(|rows|, i requires 0 <= i < |rows| => rows[i].hourlyReturn)
  }

  /** `get_risk_status(df, res_df)`; `None` when it raises: on an empty result table
      (which has no `total_equity` column and no last row) or an enhanced frame without the
      `day_of_week` or `returns` column. */
  function GetRiskStatus(df: Frame<DataPrep.EnhancedRow>, res: seq<Row>, n: Numerics): (r: Option<RiskStatus>) {
    if |res| == 0 || "day_of_week" !in df.columns || "returns" !in df.columns then None
    else
      var pct := DrawdownSeries(Equity(res)).drawdownPct;
      var active := ActiveReturns(df);
      var vol30 :=
        if |active| > VOL_WINDOW then DailyVol(Tail(active, VOL_WINDOW), n)
        else if |active| > 0 then DailyVol(active, n)
        else DEFAULT_VOL;
      var vol5 := if |active| > SHORT_WINDOW then DailyVol(Tail(active, SHORT_WINDOW), n) else vol30;
      var limit := VolatilityLimit(active, VOL_WINDOW, n);
      Some(RiskStatus(pct[|pct| - 1], Min(pct), vol30, vol5, limit,
        Min2(Config.HYPERLIQUID_MAX_LEVERAGE, limit), Min2(Config.IBKR_MAX_LEVERAGE, limit)))
  }

  /** The status exists exactly when the inputs have what it reads; both safe limits are
      clamped to their exchange caps and to the volatility limit, the IBKR one is never above
      the HL one, and the worst drawdown is at most the current one. */
  lemma RiskStatusBounds(df: Frame<DataPrep.EnhancedRow>, res: seq<Row>, n: Numerics)
    ensures var r := GetRiskStatus(df, res, n);
      r.Some? <==> |res| > 0 && "day_of_week" in df.columns && "returns" in df.columns
    ensures var r := GetRiskStatus(df, res, n);
      r.Some? ==>
        var s := r.value;
        s.safeHl <= 20.0 && s.safeIbkr <= 6.6 && s.safeHl <= s.volLimit && s.safeIbkr <= s.volLimit
        && (s.safeHl == 20.0 || s.safeHl == s.volLimit) && (s.safeIbkr == 6.6 || s.safeIbkr == s.volLimit)
        && s.safeIbkr <= s.safeHl && s.volLimit <= 50.0 && s.maxDd <= s.currentDd
  {
    if |res| > 0 && "day_of_week" in df.columns && "returns" in df.columns {
      VolatilityLimitBounds(ActiveReturns(df), VOL_WINDOW, n);
    }
  }

  /** With fewer than 720 weekday hours both safe limits are 1. */
  lemma ShortHistoryLimits(df: Frame<DataPrep.EnhancedRow>, res: seq<Row>, n: Numerics)
    requires GetRiskStatus(df, res, n).Some? && |ActiveReturns(df)| < VOL_WINDOW
    ensures GetRiskStatus(df, res, n).value.safeHl == 1.0
    ensures GetRiskStatus(df, res, n).value.safeIbkr == 1.0
  {
  }

  // ---------------------------------------------------------------------------------
  // run_leverage_stress_test
  // ---------------------------------------------------------------------------------

  /** A result row: `System Lev` (the leverage, not its `"{lev}x"` label), `HL Max`,
      `IBKR Max`, `CAGR`, `Max DD`, `Sharpe`, `Eq Vol`. */
  datatype StressRow = StressRow(
    systemLev: real, hlMax: Float, ibkrMax: Float,
    cagr: real, maxDd: real, sharpe: real, eqVol: real)

  /** The row of a scenario whose metrics failed. */
  function FailedScenario(lev: real): StressRow {
    StressRow(lev, NaN, NaN, 0.0, 100.0, 0.0, 0.0)
  }

  function Datetimes(rows: seq<Row>): (d: seq<int>)
    ensures |d| == |rows| && forall i :: 0 <= i < |rows| ==> d[i] == rows[i].datetime
  {
    seq(|rows|, i requires 0 <= i < |rows| => rows[i].datetime)
  }

  /** The stress test's settings. */
  datatype StressTest = StressTest(capital: real, hlSplit: real, benchmark: real)
  {
    /** `strategy_class(capital, lev, hl_split, benchmark)`: positionally the leverage lands
        in `hl_split_pct`, the split in `benchmark_rate` and the benchmark in
        `safety_factor`. */
    function Strategy(lev: real): (s: FundingStrategy)
      ensures s.capital == capital && s.hlSplitPct == lev
      ensures s.benchmarkRate == hlSplit && s.safetyFactor == benchmark
    {
      FundingStrategy(capital, lev, hlSplit, benchmark)
    }

    /** The row of one scenario. */
    function Scenario(hours: seq<Hour>, n: Numerics, lev: real): StressRow
      requires NonZeroPrices(hours)
    {
      var s := Strategy(lev);
      var rows := Simulate(s, hours);
      EngineMetricsDefined(s, hours);
      ScenarioRow(lev, rows, GetMetrics(s, rows, n), n)
    }

    function ScenarioOf(hours: seq<Hour>, n: Numerics): real -> StressRow
      requires NonZeroPrices(hours)
    {
      lev => Scenario(hours, n, lev)
    }

    /** One run of the loop body. */
    method RunScenario(hours: seq<Hour>, n: Numerics, lev: real) returns (row: StressRow)
      requires NonZeroPrices(hours)
      ensures row == Scenario(hours, n, lev)
    {
      var s := Strategy(lev);
      var rows := Run(s, hours);
      EngineMetricsDefined(s, hours);
      var metrics := GetMetrics(s, rows, n);
      row := ScenarioRow(lev, rows, metrics, n);
    }

    /** `run_leverage_stress_test`: one row per scenario, in scenario order. */
    method RunStressTest(hours: seq<Hour>, n: Numerics) returns (results: seq<StressRow>)
      requires NonZeroPrices(hours)
      ensures results == MapRows(SCENARIOS, ScenarioOf(hours, n))
    {
      results := StressRows(hours, n, SCENARIOS);
    }

    /** The loop over given scenarios. */
    method StressRows(hours: seq<Hour>, n: Numerics, levs: seq<real>) returns (results: seq<StressRow>)
      requires NonZeroPrices(hours)
      ensures results == MapRows(levs, ScenarioOf(hours, n))
    {
      ghost var scenario := ScenarioOf(hours, n);
      results := [];
      for i := 0 to |levs|
        invariant results == MapRows(levs[..i], scenario)
      {
        assert levs[..i + 1][..i] == levs[..i];
        var row := RunScenario(hours, n, levs[i]);
        assert row == scenario(levs[i]);
        results := results + [row];
      }
      assert levs[..|levs|] == levs;
    }

    /** A scenario with fewer than 24 rows is the failure row; every row reports its own
        leverage. */
    lemma ScenarioOutcome(hours: seq<Hour>, n: Numerics, lev: real)
      requires NonZeroPrices(hours)
      ensures Scenario(hours, n, lev).systemLev == lev
      ensures |Simulate(Strategy(lev), hours)| < MIN_ROWS ==> Scenario(hours, n, lev) == FailedScenario(lev)
    {
      EngineMetricsDefined(Strategy(lev), hours);
    }

    /** A scenario with 24 rows or more reports its CAGR and its worst drawdown in percent
        (at most 0), the Sharpe ratio, and the largest leg leverages. */
    lemma ScenarioMetrics(hours: seq<Hour>, n: Numerics, lev: real)
      requires NonZeroPrices(hours) && |Simulate(Strategy(lev), hours)| >= MIN_ROWS
      ensures MetricsDefined(Strategy(lev), Simulate(Strategy(lev), hours))
      ensures var s := Strategy(lev);
        var rows, row := Simulate(s, hours), Scenario(hours, n, lev);
        && row.cagr == Summary(s, rows, n).cagr * 100.0
        && row.maxDd == MaxDrawdown(Equity(rows)) * 100.0 && row.maxDd <= 0.0
        && row.sharpe == Sharpe(Returns(Equity(rows)), n)
        && row.hlMax == Num(Max(LegLeverages(rows).value.hl)) && row.ibkrMax == Num(Max(LegLeverages(rows).value.ibkr))
    {
      var s := Strategy(lev);
      var rows := Simulate(s, hours);
      EngineMetricsDefined(s, hours);
      GetMetricsParts(s, rows, n);
    }

    /** As the arguments are bound, a scenario of leverage 1 or more with a non-negative
        benchmark never holds a long position. */
    lemma StressNeverLong(hours: seq<Hour>, lev: real)
      requires NonZeroPrices(hours) && lev >= 1.0 && benchmark >= 0.0 && capital >= 0.0
      ensures var rows := Simulate(Strategy(lev), hours);
        forall k :: 0 <= k < |rows| ==> rows[k].Record? && rows[k].positionUsd <= 0.0
    {
      if |hours| > 0 {
        Optimization.SimFromNeverLong(Strategy(lev), hours, State(capital, 0.0));
      }
    }
  }

  /** The row reported for leverage `lev` from its records and its metrics, if any. */
  function ScenarioRow(lev: real, rows: seq<Row>, metrics: Option<PerformanceMetrics>, n: Numerics): (row: StressRow)
    requires metrics.Some? ==> |rows| > 0
    ensures row.systemLev == lev
    ensures metrics.None? ==> row == FailedScenario(lev)
  {
    match metrics
    case None => FailedScenario(lev)
    case Some(m) =>
      var leg := LegLeverages(rows).value;
      var eqVol := n.dailyEquityVol(Datetimes(rows), Equity(rows)) * n.sqrt(365.0);
      StressRow(lev, Num(Max(leg.hl)), Num(Max(leg.ibkr)), m.cagr * 100.0, m.maxDd * 100.0, m.sharpe, eqVol * 100.0)
  }

  /** `[f(x) for x in xs]`, built from the end as the loop appends. */
  function MapRows(xs: seq<real>, f: real -> StressRow): (r: seq<StressRow>)
    ensures |r| == |xs|
  {
    if |xs| == 0 then [] else MapRows(xs[..|xs| - 1], f) + [f(xs[|xs| - 1])]
  }

  /** Row k is the scenario of leverage k. */
  lemma {:induction false} MapRowsAt(xs: seq<real>, f: real -> StressRow)
    ensures forall k :: 0 <= k < |xs| ==> MapRows(xs, f)[k] == f(xs[k])
  {
    if |xs| > 0 {
      var init := xs[..|xs| - 1];
      MapRowsAt(init, f);
      assert forall k :: 0 <= k < |init| ==> init[k] == xs[k];
    }
  }

  /** The stress test has seven rows, row k for scenario k, whether or not each run fails. */
  lemma StressTestShape(t: StressTest, hours: seq<Hour>, n: Numerics)
    requires NonZeroPrices(hours)
    ensures var rows := MapRows(SCENARIOS, t.ScenarioOf(hours, n));
      |rows| == 7
      && forall k :: 0 <= k < 7 ==> rows[k] == t.Scenario(hours, n, SCENARIOS[k]) && rows[k].systemLev == SCENARIOS[k]
  {
    MapRowsAt(SCENARIOS, t.ScenarioOf(hours, n));
    forall k | 0 <= k < 7 ensures t.Scenario(hours, n, SCENARIOS[k]).systemLev == SCENARIOS[k] {
      t.ScenarioOutcome(hours, n, SCENARIOS[k]);
    }
  }

  /** Every stress-test leverage passes config.py's leverage validator. */
  lemma ScenariosPassValidator()
    ensures forall k :: 0 <= k < |SCENARIOS| ==> Config.ValidateLeverage(SCENARIOS[k])
  {
  }
}
