/** `SpreadCalculator` (src/calculators/spread_calculator.py): the dashboard's headline
    yield figures, the split of the net spread into its positive and negative parts, and
    the final capital allocation across the two venues. */
module Spread {
  import opened Wrappers
  import opened Floats
  import opened Series
  import opened Strategy
  import opened Metrics
  import Config
  import Risk

  /** The window of the smoothed current yield, in hours. */
  const CURRENT_WINDOW: nat := 24

  // ---------------------------------------------------------------------------------
  // calculate_kpi_metrics
  // ---------------------------------------------------------------------------------

  datatype Kpis = Kpis(avgYield: real, currYield: real, cagr: real, maxDd: real, negFreq: real)

  /** The yield of the last hours: the mean of the last 24 spreads, or the last spread
      of a shorter table. */
  function CurrentYield(s: seq<real>): real
    requires |s| > 0
  {
    if |s| >= CURRENT_WINDOW then Mean(Tail(s, CURRENT_WINDOW)) else s[|s| - 1]
  }

  predicate IsNegative(x: real) { x < 0.0 }

  /** The share of hours with a negative spread, in percent. */
  function NegativeFrequency(s: seq<real>): real
    requires |s| > 0
  {
    CountWhere(s, IsNegative) as real / |s| as real * 100.0
  }

  /** `calculate_kpi_metrics`: all zeros for an empty table; otherwise the mean and the
      smoothed current net spread, CAGR and worst drawdown in percent, and the share of
      hours with a negative spread. */
  function CalculateKpiMetrics(rows: seq<Row>, metrics: PerformanceMetrics): (k: Kpis)
    ensures |rows| == 0 ==> k == Kpis(0.0, 0.0, 0.0, 0.0, 0.0)
    ensures |rows| > 0 ==> k.cagr == metrics.cagr * 100.0 && k.maxDd == metrics.maxDd * 100.0
  {
    if |rows| == 0 then Kpis(0.0, 0.0, 0.0, 0.0, 0.0)
    else
      var s := NetSpreads(rows);
      Kpis(Mean(s), CurrentYield(s), metrics.cagr * 100.0, metrics.maxDd * 100.0, NegativeFrequency(s))
  }

  /** A sum of terms within [lo, hi] lies within n * lo and n * hi. */
  lemma {:induction false} SumBetween(s: seq<real>, lo: real, hi: real)
    requires forall i :: 0 <= i < |s| ==> lo <= s[i] <= hi
    ensures |s| as real * lo <= Sum(s) <= |s| as real * hi
  {
    if |s| > 0 {
      var init := s[..|s| - 1];
      assert forall i :: 0 <= i < |init| ==> init[i] == s[i];
      SumBetween(init, lo, hi);
    }
  }

  /** The mean lies between the smallest and the largest value. */
  lemma {:induction false} MeanBetween(s: seq<real>)
    requires |s| > 0
    ensures Min(s) <= Mean(s) <= Max(s)
  {
    SumBetween(s, Min(s), Max(s));
    QuotientBetween(Sum(s), |s| as real, Min(s), Max(s));
  }

  lemma QuotientBetween(x: real, t: real, lo: real, hi: real)
    requires t > 0.0 && t * lo <= x <= t * hi
    ensures lo <= x / t <= hi
  {
    DivCompare(x, t, lo);
    DivCompare(x, t, hi);
  }

  /** The mean of a constant series is that constant. */
  lemma {:induction false} MeanConstant(s: seq<real>, c: real)
    requires |s| > 0 && forall i :: 0 <= i < |s| ==> s[i] == c
    ensures Mean(s) == c
  {
    SumBetween(s, c, c);
    QuotientBetween(Sum(s), |s| as real, c, c);
  }

  /** The average yield lies within the range of the hourly spreads, and the current yield
      within the range of the last 24 of them (it is the last spread of a shorter table). */
  lemma KpiYields(rows: seq<Row>, metrics: PerformanceMetrics)
    requires |rows| > 0
    ensures var s, k := NetSpreads(rows), CalculateKpiMetrics(rows, metrics);
      Min(s) <= k.avgYield <= Max(s)
      && (|rows| < CURRENT_WINDOW ==> k.currYield == rows[|rows| - 1].netSpreadApr)
      && (|rows| >= CURRENT_WINDOW ==>
            Min(Tail(s, CURRENT_WINDOW)) <= k.currYield <= Max(Tail(s, CURRENT_WINDOW)))
  {
    var s := NetSpreads(rows);
    MeanBetween(s);
    if |s| >= CURRENT_WINDOW {
      MeanBetween(Tail(s, CURRENT_WINDOW));
    }
  }

  /** A table whose net spread is the same every hour reports that spread as both the
      average and the current yield. */
  lemma KpiConstantSpread(rows: seq<Row>, metrics: PerformanceMetrics, c: real)
    requires |rows| > 0 && forall i :: 0 <= i < |rows| ==> rows[i].netSpreadApr == c
    ensures CalculateKpiMetrics(rows, metrics).avgYield == c
    ensures CalculateKpiMetrics(rows, metrics).currYield == c
  {
    var s := NetSpreads(rows);
    MeanConstant(s, c);
    if |s| >= CURRENT_WINDOW {
      MeanConstant(Tail(s, CURRENT_WINDOW), c);
    }
  }

  /** The negative frequency is a percentage: 0 exactly when no hour has a negative
      spread, 100 exactly when every hour has one. */
  lemma NegativeFrequencyRange(rows: seq<Row>, metrics: PerformanceMetrics)
    requires |rows| > 0
    ensures var k := CalculateKpiMetrics(rows, metrics);
      0.0 <= k.negFreq <= 100.0
      && (k.negFreq == 0.0 <==> forall i :: 0 <= i < |rows| ==> rows[i].netSpreadApr >= 0.0)
      && (k.negFreq == 100.0 <==> forall i :: 0 <= i < |rows| ==> rows[i].netSpreadApr < 0.0)
  {
    var s := NetSpreads(rows);
    var c, t := CountWhere(s, IsNegative) as real, |s| as real;
    CountWhereAll(s, IsNegative);
    FractionRange(c, t);
  }

  // ---------------------------------------------------------------------------------
  // prepare_spread_data
  // ---------------------------------------------------------------------------------

  datatype SpreadParts = SpreadParts(positive: seq<real>, negative: seq<real>)

  /** `prepare_spread_data`: the net spread where it is positive (0 elsewhere) and where
      it is negative (0 elsewhere); `None` on the engine's empty table, which has no
      `net_spread_apr` column, so reading it raises `KeyError`. */
  function PrepareSpreadData(rows: seq<Row>): (p: Option<SpreadParts>)
    ensures p.None? <==> |rows| == 0
    ensures p.Some? ==> |p.value.positive| == |rows| && |p.value.negative| == |rows|
  {
    if |rows| == 0 then None
    else
      var s := NetSpreads(rows);
      Some(SpreadParts(PositiveParts(s), NegativeParts(s)))
  }

  /** There are parts exactly when the table has rows. Then they split each hour's spread:
      the positive part is non-negative, the negative part non-positive, at most one is
      non-zero and they add up to the spread; summed over the table they are the gross
      profit and minus the gross loss. */
  lemma SpreadPartsSplit(rows: seq<Row>)
    ensures PrepareSpreadData(rows).None? <==> |rows| == 0
    ensures |rows| > 0 ==> var p := PrepareSpreadData(rows).value;
      (forall i :: 0 <= i < |rows| ==>
        p.positive[i] >= 0.0 && p.negative[i] <= 0.0
        && p.positive[i] * p.negative[i] == 0.0
        && p.positive[i] + p.negative[i] == rows[i].netSpreadApr
        && (p.positive[i] > 0.0 <==> rows[i].netSpreadApr > 0.0)
        && (p.negative[i] < 0.0 <==> rows[i].netSpreadApr < 0.0))
      && Sum(p.positive) == GrossProfit(NetSpreads(rows))
      && Sum(p.negative) == -GrossLoss(NetSpreads(rows))
  {
    var s := NetSpreads(rows);
    SumNonPositive(NegativeParts(s));
  }

  // ---------------------------------------------------------------------------------
  // calculate_capital_allocation
  // ---------------------------------------------------------------------------------

  datatype Allocation = Allocation(
    hlEquity: real, hlPct: real, hlLev: real,
    ibkrEquity: real, ibkrPct: real, ibkrLev: real,
    totalEquity: real)

  /** `(part / whole) * 100` when the whole is positive, else 0. */
  function Share(part: real, whole: real): real {
    if whole > 0.0 then part / whole * 100.0 else 0.0
  }

  /** `position / equity` when the equity is positive, else 0. */
  function Leverage(position: real, equity: real): real {
    if equity > 0.0 then position / equity else 0.0
  }

  /** `calculate_capital_allocation`: nothing for an empty table (`{}`); otherwise the
      last row's venue equities with their shares of the total and the position's
      leverage over each. */
  function CalculateCapitalAllocation(rows: seq<Row>): (a: Option<Allocation>)
    ensures a.None? <==> |rows| == 0
    ensures a.Some? ==>
      var last := rows[|rows| - 1];
      a.value.hlEquity == last.hlEquity && a.value.ibkrEquity == last.ibkrEquity
      && a.value.totalEquity == last.totalEquity
  {
    if |rows| == 0 then None
    else
      var last := rows[|rows| - 1];
      var hl, ib, total, pos := last.hlEquity, last.ibkrEquity, last.totalEquity, last.positionUsd;
      Some(Allocation(hl, Share(hl, total), Leverage(pos, hl), ib, Share(ib, total), Leverage(pos, ib), total))
  }

  /** A share recovers its part, and a leverage its position, from a positive whole. */
  lemma ShareMeaning(part: real, whole: real)
    ensures whole > 0.0 ==> Share(part, whole) * whole == part * 100.0
    ensures whole <= 0.0 ==> Share(part, whole) == 0.0
    ensures whole > 0.0 && part >= 0.0 ==> Share(part, whole) >= 0.0
    ensures whole > 0.0 && 0.0 <= part <= whole ==> Share(part, whole) <= 100.0
  {
    if whole > 0.0 {
      DivCompare(part, whole, 0.0);
      DivCompare(part, whole, 1.0);
    }
  }

  lemma LeverageMeaning(position: real, equity: real)
    ensures equity > 0.0 ==> Leverage(position, equity) * equity == position
    ensures equity <= 0.0 ==> Leverage(position, equity) == 0.0
    ensures equity > 0.0 ==> (Leverage(position, equity) <= 0.0 <==> position <= 0.0)
  {
    if equity > 0.0 {
      DivCompare(position, equity, 0.0);
    }
  }

  /** The percentages are the venue equities as shares of a positive total (0 for a
      total at or below 0), and they add up to 100 when the venues hold the whole total;
      each leg's leverage multiplied by a positive venue equity is the final position. */
  lemma CapitalAllocationMeaning(rows: seq<Row>)
    requires |rows| > 0
    ensures var a, last := CalculateCapitalAllocation(rows).value, rows[|rows| - 1];
      (last.totalEquity > 0.0 ==>
         a.hlPct * last.totalEquity == last.hlEquity * 100.0
         && a.ibkrPct * last.totalEquity == last.ibkrEquity * 100.0
         && (last.hlEquity + last.ibkrEquity == last.totalEquity ==> a.hlPct + a.ibkrPct == 100.0))
      && (last.totalEquity <= 0.0 ==> a.hlPct == 0.0 && a.ibkrPct == 0.0)
      && (last.hlEquity > 0.0 ==> a.hlLev * last.hlEquity == last.positionUsd)
      && (last.hlEquity <= 0.0 ==> a.hlLev == 0.0)
      && (last.ibkrEquity > 0.0 ==> a.ibkrLev * last.ibkrEquity == last.positionUsd)
      && (last.ibkrEquity <= 0.0 ==> a.ibkrLev == 0.0)
  {
    var last := rows[|rows| - 1];
    var hl, ib, total := last.hlEquity, last.ibkrEquity, last.totalEquity;
    ShareMeaning(hl, total);
    ShareMeaning(ib, total);
    LeverageMeaning(last.positionUsd, hl);
    LeverageMeaning(last.positionUsd, ib);
    if total > 0.0 && hl + ib == total {
      SharesAddUp(hl, ib, total);
    }
  }

  lemma SharesAddUp(a: real, b: real, total: real)
    requires total > 0.0 && a + b == total
    ensures Share(a, total) + Share(b, total) == 100.0
  {
    assert a / total + b / total == (a + b) / total;
  }

  /** The final leg leverages agree with the last entries of `calculate_leg_leverage`
      wherever the venue equity is not negative. */
  lemma AllocationMatchesLegLeverage(rows: seq<Row>)
    requires |rows| > 0
    ensures var a, l, k := CalculateCapitalAllocation(rows).value, Risk.LegLeverages(rows).value, |rows| - 1;
      (rows[k].hlEquity >= 0.0 ==> a.hlLev == l.hl[k])
      && (rows[k].ibkrEquity >= 0.0 ==> a.ibkrLev == l.ibkr[k])
  {
    var k := |rows| - 1;
    var l := Risk.LegLeverages(rows).value;
    var pos, hl, ib := Nums(Risk.Positions(rows)), Nums(Risk.HlEquities(rows)), Nums(Risk.IbkrEquities(rows));
    assert l.hl[k] == Config.SafeDivideAt(pos[k], hl[k], 0.0);
    assert l.ibkr[k] == Config.SafeDivideAt(pos[k], ib[k], 0.0);
    LeverageMeaning(rows[k].positionUsd, rows[k].hlEquity);
    LeverageMeaning(rows[k].positionUsd, rows[k].ibkrEquity);
  }
}
