/** `OptimizationEngine.run_grid_search` (src/optimization_engine.py): a backtest for every
    leverage and split of a fixed grid, one summary row per cell, leverage outermost. */
module Optimization {
  import opened Floats
  import opened Series
  import opened Frames
  import opened Wrappers
  import opened Strategy
  import opened StrategyLemmas
  import opened Metrics
  import Config

  /** `np.arange(1.0, 5.5, 0.5)` and `np.arange(0.10, 0.60, 0.10)`, as exact decimals. */
  const LEV_RANGE: seq<real> := [1.0, 1.5, 2.0, 2.5, 3.0, 3.5, 4.0, 4.5, 5.0]
  const SPLIT_RANGE: seq<real> := [0.10, 0.20, 0.30, 0.40, 0.50]

  /** The safety verdict's exchange limits. */
  const HL_LIMIT: real := 20.0
  const IBKR_LIMIT: real := 6.6
  /** The maximum leverage reported for a failed cell. */
  const FAILED_LEVERAGE: real := 999.0

  /** One result row: `Leverage`, `Split`, `APR`, `Safe`, `Max_HL_Lev`, `Max_IBKR_Lev`. */
  datatype GridRow = GridRow(leverage: real, split: real, apr: real, safe: bool, maxHlLev: Float, maxIbkrLev: Float)

  /** `position / equity.replace(0, NaN)` for one row. */
  function LegRatio(position: real, equity: real): (r: Float)
    ensures r.NaN? <==> equity == 0.0
    ensures r.Num? ==> r.v * equity == position
  {
    if equity == 0.0 then NaN else Num(position / equity)
  }

  function HlLeverages(rows: seq<Row>): (l: seq<Float>)
    ensures |l| == |rows| && forall i :: 0 <= i < |rows| ==> l[i] == LegRatio(rows[i].positionUsd, rows[i].hlEquity)
  {
    seq(|rows|, i requires 0 <= i < |rows| => LegRatio(rows[i].positionUsd, rows[i].hlEquity))
  }

  function IbkrLeverages(rows: seq<Row>): (l: seq<Float>)
    ensures |l| == |rows| && forall i :: 0 <= i < |rows| ==> l[i] == LegRatio(rows[i].positionUsd, rows[i].ibkrEquity)
  {
    seq(|rows|, i requires 0 <= i < |rows| => LegRatio(rows[i].positionUsd, rows[i].ibkrEquity))
  }

  /** The row of a failed cell: no yield, unsafe, leverage 999 on both legs. */
  function Sentinel(lev: real, split: real): GridRow {
    GridRow(lev, split, 0.0, false, Num(FAILED_LEVERAGE), Num(FAILED_LEVERAGE))
  }

  /** The row of a summarised run: the CAGR in percent and the largest leverage on each
      leg, safe only strictly below both exchange limits. */
  function Summarised(lev: real, split: real, rows: seq<Row>, m: PerformanceMetrics): GridRow {
    var maxHl, maxIbkr := NanMax(HlLeverages(rows)), NanMax(IbkrLeverages(rows));
    GridRow(lev, split, m.cagr * 100.0, Below(maxHl, HL_LIMIT) && Below(maxIbkr, IBKR_LIMIT), maxHl, maxIbkr)
  }

  /** The engine's parameters. */
  datatype OptimizationEngine = OptimizationEngine(capital: real, benchmarkRate: real)
  {
    /** `FundingStrategy(self.capital, lev, split, self.benchmark_rate)`: the positional
        arguments land in `hl_split_pct`, `benchmark_rate` and `safety_factor`. */
    function Strategy(lev: real, split: real): (s: FundingStrategy)
      ensures s.capital == capital && s.hlSplitPct == lev
      ensures s.benchmarkRate == split && s.safetyFactor == benchmarkRate
    {
      FundingStrategy(capital, lev, split, benchmarkRate)
    }

    /** One cell of the grid: the summary row, or the sentinel when the run has no summary. */
    function Cell(hours: seq<Hour>, n: Numerics, lev: real, split: real): GridRow
      requires NonZeroPrices(hours)
    {
      var s := Strategy(lev, split);
      var rows := Simulate(s, hours);
      EngineMetricsDefined(s, hours);
      match GetMetrics(s, rows, n)
      case None => Sentinel(lev, split)
      case Some(m) => Summarised(lev, split, rows, m)
    }

    /** Cell as a function of leverage and split, for a given input. */
    function CellOf(hours: seq<Hour>, n: Numerics): (real, real) -> GridRow
      requires NonZeroPrices(hours)
    {
      (lev, split) => Cell(hours, n, lev, split)
    }

    /** The grid, leverage outermost. */
    function Grid(hours: seq<Hour>, n: Numerics, levs: seq<real>, splits: seq<real>): seq<GridRow>
      requires NonZeroPrices(hours)
    {
      Table(levs, splits, CellOf(hours, n))
    }

    /** `run_grid_search`: the nested loop over the leverage and split ranges. */
    method RunGridSearch(hours: seq<Hour>, n: Numerics) returns (results: seq<GridRow>)
      requires NonZeroPrices(hours)
      ensures results == Grid(hours, n, LEV_RANGE, SPLIT_RANGE)
    {
      results := GridSearch(hours, n, LEV_RANGE, SPLIT_RANGE);
    }

    /** One backtest of the grid and its summary row. */
    method RunCell(hours: seq<Hour>, n: Numerics, lev: real, split: real) returns (row: GridRow)
      requires NonZeroPrices(hours)
      ensures row == Cell(hours, n, lev, split)
    {
      var s := Strategy(lev, split);
      var r := Run(s, hours);
      EngineMetricsDefined(s, hours);
      var m := GetMetrics(s, r, n);
      if m.Some? {
        row := Summarised(lev, split, r, m.value);
      } else {
        row := Sentinel(lev, split);
      }
    }

    /** The nested loop over given ranges. */
    method GridSearch(hours: seq<Hour>, n: Numerics, levs: seq<real>, splits: seq<real>)
      returns (results: seq<GridRow>)
      requires NonZeroPrices(hours)
      ensures results == Grid(hours, n, levs, splits)
    {
      ghost var cell := CellOf(hours, n);
      results := [];
      for i := 0 to |levs|
        invariant results == Table(levs[..i], splits, cell)
      {
        assert levs[..i + 1][..i] == levs[..i];
        var rows := SplitLoop(hours, n, levs[i], splits);
        results := results + rows;
      }
      assert levs[..|levs|] == levs;
    }

    /** The inner loop: the cells of one leverage over the split range. */
    method SplitLoop(hours: seq<Hour>, n: Numerics, lev: real, splits: seq<real>)
      returns (rows: seq<GridRow>)
      requires NonZeroPrices(hours)
      ensures rows == Cells(lev, splits, CellOf(hours, n))
    {
      ghost var cell := CellOf(hours, n);
      rows := [];
      for j := 0 to |splits|
        invariant rows == Cells(lev, splits[..j], cell)
      {
        var row := RunCell(hours, n, lev, splits[j]);
        assert row == cell(lev, splits[j]);
        assert splits[..j + 1][..j] == splits[..j];
        rows := rows + [row];
      }
      assert splits[..|splits|] == splits;
    }
  }

  // ---------------------------------------------------------------------------------
  // Shape of the grid
  // ---------------------------------------------------------------------------------

  /** The cells of one leverage, in split order. */
  function Cells(lev: real, splits: seq<real>, cell: (real, real) -> GridRow): (r: seq<GridRow>)
    ensures |r| == |splits|
  {
    if |splits| == 0 then []
    else Cells(lev, splits[..|splits| - 1], cell) + [cell(lev, splits[|splits| - 1])]
  }

  /** The rows of the nested loop, leverage outermost. */
  function Table(levs: seq<real>, splits: seq<real>, cell: (real, real) -> GridRow): seq<GridRow> {
    if |levs| == 0 then []
    else Table(levs[..|levs| - 1], splits, cell) + Cells(levs[|levs| - 1], splits, cell)
  }

  lemma {:induction false} CellsIndex(lev: real, splits: seq<real>, cell: (real, real) -> GridRow)
    ensures forall j :: 0 <= j < |splits| ==> Cells(lev, splits, cell)[j] == cell(lev, splits[j])
  {
    if |splits| > 0 {
      var init := splits[..|splits| - 1];
      CellsIndex(lev, init, cell);
      assert forall j :: 0 <= j < |init| ==> init[j] == splits[j];
    }
  }

  lemma {:induction false} TableLength(levs: seq<real>, splits: seq<real>, cell: (real, real) -> GridRow)
    ensures |Table(levs, splits, cell)| == |levs| * |splits|
  {
    if |levs| > 0 {
      var m, w := |levs|, |splits|;
      TableLength(levs[..m - 1], splits, cell);
      assert (m - 1) * w + w == m * w;
    }
  }

  /** Row `i * |splits| + j` of the loop is the cell of leverage i and split j. */
  lemma {:induction false} TableAt(levs: seq<real>, splits: seq<real>, cell: (real, real) -> GridRow, i: nat, j: nat)
    requires i < |levs| && j < |splits|
    ensures i * |splits| + j < |Table(levs, splits, cell)|
    ensures Table(levs, splits, cell)[i * |splits| + j] == cell(levs[i], splits[j])
  {
    var m, w := |levs|, |splits|;
    var init := levs[..m - 1];
    var g, cs := Table(init, splits, cell), Cells(levs[m - 1], splits, cell);
    assert Table(levs, splits, cell) == g + cs;
    TableLength(init, splits, cell);
    if i < m - 1 {
      TableAt(init, splits, cell, i, j);
      assert init[i] == levs[i];
      assert (g + cs)[i * w + j] == g[i * w + j];
    } else {
      assert i * w == (m - 1) * w == |g|;
      CellsIndex(levs[m - 1], splits, cell);
      assert (g + cs)[i * w + j] == cs[j];
    }
  }

  /** The loop emits one row per leverage and split, and row `i * |splits| + j` is the
      cell of leverage i and split j. */
  lemma {:induction false} TableShape(levs: seq<real>, splits: seq<real>, cell: (real, real) -> GridRow)
    ensures |Table(levs, splits, cell)| == |levs| * |splits|
    ensures forall i, j :: 0 <= i < |levs| && 0 <= j < |splits| ==>
      i * |splits| + j < |Table(levs, splits, cell)| && Table(levs, splits, cell)[i * |splits| + j] == cell(levs[i], splits[j])
  {
    TableLength(levs, splits, cell);
    forall i, j | 0 <= i < |levs| && 0 <= j < |splits| {
      TableAt(levs, splits, cell, i, j);
    }
  }

  /** The grid has one row per leverage and split whether or not each run succeeds, and
      row `i * |splits| + j` is the cell of leverage i and split j. */
  lemma GridShape(e: OptimizationEngine, hours: seq<Hour>, n: Numerics, levs: seq<real>, splits: seq<real>)
    requires NonZeroPrices(hours)
    ensures |e.Grid(hours, n, levs, splits)| == |levs| * |splits|
    ensures forall i, j :: 0 <= i < |levs| && 0 <= j < |splits| ==>
      i * |splits| + j < |e.Grid(hours, n, levs, splits)|
      && e.Grid(hours, n, levs, splits)[i * |splits| + j] == e.Cell(hours, n, levs[i], splits[j])
  {
    TableShape(levs, splits, e.CellOf(hours, n));
  }

  /** The fixed grid has 9 * 5 = 45 rows. */
  lemma RunGridSearchLength(e: OptimizationEngine, hours: seq<Hour>, n: Numerics)
    requires NonZeroPrices(hours)
    ensures |e.Grid(hours, n, LEV_RANGE, SPLIT_RANGE)| == 45
  {
    GridShape(e, hours, n, LEV_RANGE, SPLIT_RANGE);
  }

  /** Every leverage and split of the fixed grid passes config.py's validators. */
  lemma GridPassesValidators()
    ensures forall i :: 0 <= i < |LEV_RANGE| ==> Config.ValidateLeverage(LEV_RANGE[i])
    ensures forall j :: 0 <= j < |SPLIT_RANGE| ==> Config.ValidateSplit(SPLIT_RANGE[j])
  {
  }

  // ---------------------------------------------------------------------------------
  // One cell
  // ---------------------------------------------------------------------------------

  /** A cell is the sentinel when its run has fewer than 24 rows; otherwise its APR is the
      CAGR in percent and its maxima are over the legs' leverage columns. */
  lemma CellOutcome(e: OptimizationEngine, hours: seq<Hour>, n: Numerics, lev: real, split: real)
    requires NonZeroPrices(hours)
    ensures var s := e.Strategy(lev, split);
      var rows, c := Simulate(s, hours), e.Cell(hours, n, lev, split);
      c.leverage == lev && c.split == split
      && (|rows| < MIN_ROWS ==> c == Sentinel(lev, split))
      && (|rows| >= MIN_ROWS ==>
            MetricsDefined(s, rows)
            && c.apr == Summary(s, rows, n).cagr * 100.0
            && c.maxHlLev == NanMax(HlLeverages(rows)) && c.maxIbkrLev == NanMax(IbkrLeverages(rows)))
  {
    EngineMetricsDefined(e.Strategy(lev, split), hours);
  }

  /** The largest leg leverage skips rows whose venue equity is 0: it is NaN exactly when
      every row has zero equity there, no ratio over a non-zero equity exceeds it, and one
      such ratio equals it. */
  lemma LegMaxSkipsZeroEquity(rows: seq<Row>)
    ensures var m := NanMax(HlLeverages(rows));
      (m.NaN? <==> forall i :: 0 <= i < |rows| ==> rows[i].hlEquity == 0.0)
      && (m.Num? ==> forall i :: 0 <= i < |rows| && rows[i].hlEquity != 0.0 ==>
            rows[i].positionUsd / rows[i].hlEquity <= m.v)
      && (m.Num? ==> exists i :: 0 <= i < |rows| && rows[i].hlEquity != 0.0 && m.v == rows[i].positionUsd / rows[i].hlEquity)
    ensures var m := NanMax(IbkrLeverages(rows));
      (m.NaN? <==> forall i :: 0 <= i < |rows| ==> rows[i].ibkrEquity == 0.0)
      && (m.Num? ==> forall i :: 0 <= i < |rows| && rows[i].ibkrEquity != 0.0 ==>
            rows[i].positionUsd / rows[i].ibkrEquity <= m.v)
      && (m.Num? ==> exists i :: 0 <= i < |rows| && rows[i].ibkrEquity != 0.0 && m.v == rows[i].positionUsd / rows[i].ibkrEquity)
  {
    var hl, ib := HlLeverages(rows), IbkrLeverages(rows);
    var mh, mi := NanMax(hl), NanMax(ib);
    if mh.Num? {
      var i :| 0 <= i < |hl| && hl[i] == mh;
      assert rows[i].hlEquity != 0.0;
    }
    if mi.Num? {
      var i :| 0 <= i < |ib| && ib[i] == mi;
      assert rows[i].ibkrEquity != 0.0;
    }
  }

  /** A summarised cell is safe exactly when some row has equity on each venue and every
      ratio over a non-zero venue equity is strictly below that venue's limit. */
  lemma SafeIffWithinLimits(lev: real, split: real, rows: seq<Row>, m: PerformanceMetrics)
    ensures Summarised(lev, split, rows, m).safe <==>
      (exists i :: 0 <= i < |rows| && rows[i].hlEquity != 0.0)
      && (exists i :: 0 <= i < |rows| && rows[i].ibkrEquity != 0.0)
      && (forall i :: 0 <= i < |rows| && rows[i].hlEquity != 0.0 ==> rows[i].positionUsd / rows[i].hlEquity < HL_LIMIT)
      && (forall i :: 0 <= i < |rows| && rows[i].ibkrEquity != 0.0 ==> rows[i].positionUsd / rows[i].ibkrEquity < IBKR_LIMIT)
  {
    LegMaxSkipsZeroEquity(rows);
  }

  // ---------------------------------------------------------------------------------
  // The positional binding
  // ---------------------------------------------------------------------------------

  /** With an HL split of 1 or more (every grid leverage lands there) the IBKR allocation
      is not positive, so the target is not positive and the hour ends with no long
      position, as a record (no guard can fire). */
  lemma StepNeverLong(s: FundingStrategy, h: Hour, st: State)
    requires s.hlSplitPct >= 1.0 && s.safetyFactor >= 0.0 && st.equity >= 0.0 && h.price != 0.0
    ensures Step(s, h, st).Recorded?
    ensures Step(s, h, st).row.positionUsd <= 0.0
  {
    var hl, ib := HlAllocation(s, st.equity), IbkrAllocation(s, st.equity);
    ProductNonNegative(st.equity, s.hlSplitPct);
    assert ib == -(st.equity * (s.hlSplitPct - 1.0));
    ProductNonNegative(st.equity, s.hlSplitPct - 1.0);
    var m := MaxSafeNotional(hl, ib);
    var target := TargetNotional(s, st.equity);
    assert target == m * s.safetyFactor;
    ProductNonNegative(-m, s.safetyFactor);
    assert target <= 0.0;
    assert PreTradeCheck(target, hl, ib).None?;
    var executed := Execute(target, h.price, st);
    assert PositionValue(executed.shares, h.price) == target;
  }

  /** Every row of a run with an HL split of 1 or more is a record without a long position. */
  lemma {:induction false} SimFromNeverLong(s: FundingStrategy, hours: seq<Hour>, st: State)
    requires NonZeroPrices(hours) && s.hlSplitPct >= 1.0 && s.safetyFactor >= 0.0 && st.equity >= 0.0
    ensures forall k :: 0 <= k < |SimFrom(s, hours, st)| ==>
      SimFrom(s, hours, st)[k].Record? && SimFrom(s, hours, st)[k].positionUsd <= 0.0
    decreases |hours|
  {
    if |hours| > 0 {
      SimFromCons(s, hours, st);
      var o := Step(s, hours[0], st);
      StepNeverLong(s, hours[0], st);
      if o.next.equity > 0.0 {
        SimFromNeverLong(s, hours[1..], o.next);
      }
    }
  }

  /** As the arguments are bound, every cell of the grid backtests a strategy that never
      holds a long position: the leverage lands in the HL split and is at least 1, and a
      non-negative benchmark rate lands in the safety factor. */
  lemma GridNeverLong(e: OptimizationEngine, hours: seq<Hour>, lev: real, split: real)
    requires NonZeroPrices(hours) && lev >= 1.0 && e.benchmarkRate >= 0.0 && e.capital >= 0.0
    ensures var rows := Simulate(e.Strategy(lev, split), hours);
      forall k :: 0 <= k < |rows| ==> rows[k].Record? && rows[k].positionUsd <= 0.0
  {
    if |hours| > 0 {
      SimFromNeverLong(e.Strategy(lev, split), hours, State(e.capital, 0.0));
    }
  }
}
