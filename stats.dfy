/** `StatsCalculator` (src/calculators/stats_calculator.py): rolling correlations of the
    funding rate with the price moves, the split of a correlation series into its
    positive and negative parts, the funding rate's autocorrelation and the
    market-dynamics summary that bundles them. The streak statistics of the same class
    are the module Streaks. */
module Stats {
  import opened Wrappers
  import opened Floats
  import opened Series
  import opened Frames
  import Config
  import DataPrep

  /** The number of lags of the autocorrelation function the summary reports. */
  const ACF_LAGS: nat := 24

  // ---------------------------------------------------------------------------------
  // calculate_rolling_correlation, calculate_autocorrelation
  // ---------------------------------------------------------------------------------

  /** `series1.rolling(window).corr(series2)`: one value per index, NaN where the window
      is not yet full or a window has no variance. */
  function RollingCorrelation(a: seq<real>, b: seq<real>, window: int, n: Numerics): (r: seq<Float>)
    ensures |r| == |a|
    ensures forall i :: 0 <= i < |a| ==> r[i] == n.rollingCorr(a, b, window, i)
  {
    seq(|a|, i requires 0 <= i < |a| => n.rollingCorr(a, b, window, i))
  }

  /** `[series.autocorr(lag=lag) for lag in range(1, max_lag + 1)]`. */
  function Autocorrelation(series: seq<real>, maxLag: int, n: Numerics): (r: seq<Float>)
    ensures |r| == if maxLag > 0 then maxLag else 0
    ensures forall k :: 0 <= k < |r| ==> r[k] == n.autocorr(series, k + 1)
  {
    if maxLag <= 0 then []
    else seq(maxLag, k requires 0 <= k < maxLag => n.autocorr(series, k + 1))
  }

  // ---------------------------------------------------------------------------------
  // separate_positive_negative_corr
  // ---------------------------------------------------------------------------------

  /** `x if x > 0 else 0`: a NaN fails the comparison and becomes 0. */
  function PositiveCorr(x: Float): real {
    if x.Num? && x.v > 0.0 then x.v else 0.0
  }

  /** `x if x < 0 else 0`. */
  function NegativeCorr(x: Float): real {
    if x.Num? && x.v < 0.0 then x.v else 0.0
  }

  datatype CorrParts = CorrParts(positive: seq<real>, negative: seq<real>)

  /** `separate_positive_negative_corr`: the parts are non-negative and non-positive, at
      most one of them is non-zero, on a defined correlation they are its positive and
      negative parts and add up to it, and a NaN contributes 0 to both. */
  function SeparatePositiveNegativeCorr(corr: seq<Float>): (p: CorrParts)
    ensures |p.positive| == |corr| && |p.negative| == |corr|
    ensures forall i :: 0 <= i < |corr| ==>
      p.positive[i] >= 0.0 && p.negative[i] <= 0.0 && p.positive[i] * p.negative[i] == 0.0
    ensures forall i :: 0 <= i < |corr| && corr[i].Num? ==>
      p.positive[i] == PositivePart(corr[i].v) && p.negative[i] == NegativePart(corr[i].v)
      && p.positive[i] + p.negative[i] == corr[i].v
    ensures forall i :: 0 <= i < |corr| && corr[i].NaN? ==> p.positive[i] == 0.0 && p.negative[i] == 0.0
  {
    CorrParts(
      seq(|corr|, i requires 0 <= i < |corr| => PositiveCorr(corr[i])),
      seq(|corr|, i requires 0 <= i < |corr| => NegativeCorr(corr[i])))
  }

  // ---------------------------------------------------------------------------------
  // calculate_market_dynamics
  // ---------------------------------------------------------------------------------

  datatype Dynamics = Dynamics(
    corrVol: seq<Float>, corrPrice: seq<Float>,
    curVol: real, curPrice: real,
    volPositive: seq<real>, volNegative: seq<real>,
    autocorr: seq<Float>)

  /** The summary of a frame without funding or returns: empty series, zero current
      correlations and 24 zero autocorrelations. */
  function Fallback(): (d: Dynamics)
    ensures |d.autocorr| == ACF_LAGS && forall k :: 0 <= k < ACF_LAGS ==> d.autocorr[k] == Num(0.0)
  {
    Dynamics([], [], 0.0, 0.0, [], [], seq(ACF_LAGS, _ => Num(0.0)))
  }

  /** The latest value of a correlation series, 0 when it is NaN. */
  function Latest(corr: seq<Float>): real
    requires |corr| > 0
  {
    match corr[|corr| - 1]
    case NaN => 0.0
    case Num(v) => v
  }

  function Funding(rows: seq<DataPrep.EnhancedRow>): (f: seq<real>)
    ensures |f| == |rows| && forall i :: 0 <= i < |rows| ==> f[i] == rows[i].funding
  {
    seq(|rows|, i requires 0 <= i < |rows| => rows[i].funding)
  }

  function AbsReturns(rows: seq<DataPrep.EnhancedRow>): (f: seq<real>)
    ensures |f| == |rows| && forall i :: 0 <= i < |rows| ==> f[i] == rows[i].absReturns
  {
    seq(|rows|, i requires 0 <= i < |rows| => rows[i].absReturns)
  }

  function HourlyReturns(rows: seq<DataPrep.EnhancedRow>): (f: seq<real>)
    ensures |f| == |rows| && forall i :: 0 <= i < |rows| ==> f[i] == rows[i].hourlyReturn
  {
    seq(|rows|, i requires 0 <= i < |rows| => rows[i].hourlyReturn)
  }

  /** Whether the frame passes the guard of `calculate_market_dynamics`. */
  predicate HasDynamics(df: Frame<DataPrep.EnhancedRow>) {
    !df.Empty() && "funding" in df.columns && "returns" in df.columns
  }

  /** `calculate_market_dynamics`: the fallback for an empty frame or one without
      `funding` or `returns`; otherwise the rolling correlations of the funding rate
      with the absolute and the signed returns, their latest values, the split of the
      first, and 24 lags of the funding rate's autocorrelation. `None` is the KeyError of
      a frame that passes the guard but has no `abs_returns`. */
  function CalculateMarketDynamics(df: Frame<DataPrep.EnhancedRow>, window: int, n: Numerics): (r: Option<Dynamics>)
    ensures r.None? <==> HasDynamics(df) && "abs_returns" !in df.columns
    ensures !HasDynamics(df) ==> r == Some(Fallback())
  {
    if !HasDynamics(df) then Some(Fallback())
    else if "abs_returns" !in df.columns then None
    else
      var funding := Funding(df.rows);
      var corrVol := RollingCorrelation(funding, AbsReturns(df.rows), window, n);
      var corrPrice := RollingCorrelation(funding, HourlyReturns(df.rows), window, n);
      var split := SeparatePositiveNegativeCorr(corrVol);
      Some(Dynamics(corrVol, corrPrice, Latest(corrVol), Latest(corrPrice),
                    split.positive, split.negative, Autocorrelation(funding, ACF_LAGS as int, n)))
  }

  /** Whatever the frame, the summary holds 24 autocorrelations; a frame that has the
      columns yields one correlation per row, current values that are its last
      correlations (0 for NaN), parts of the volatility correlation that add up to it
      (to 0 where it is NaN), and the autocorrelations of lags 1 to 24 in order. */
  lemma MarketDynamicsShape(df: Frame<DataPrep.EnhancedRow>, window: int, n: Numerics)
    requires CalculateMarketDynamics(df, window, n).Some?
    ensures var d := CalculateMarketDynamics(df, window, n).value;
      |d.autocorr| == ACF_LAGS
      && (HasDynamics(df) ==>
            |d.corrVol| == |df.rows| && |d.corrPrice| == |df.rows|
            && |d.volPositive| == |df.rows| && |d.volNegative| == |df.rows|
            && var last := |df.rows| - 1;
            (d.corrVol[last].Num? ==> d.curVol == d.corrVol[last].v)
            && (d.corrVol[last].NaN? ==> d.curVol == 0.0)
            && (d.corrPrice[last].Num? ==> d.curPrice == d.corrPrice[last].v)
            && (d.corrPrice[last].NaN? ==> d.curPrice == 0.0)
            && (forall i :: 0 <= i < |df.rows| ==>
                  d.volPositive[i] + d.volNegative[i] == (if d.corrVol[i].Num? then d.corrVol[i].v else 0.0))
            && (forall k :: 0 <= k < ACF_LAGS ==> d.autocorr[k] == n.autocorr(Funding(df.rows), k + 1)))
  {
  }
}
