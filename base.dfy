/** Optional values: a pandas/Python `None` result, a dictionary that may be `{}`,
    or a call that raised and was caught. */
module Wrappers {
  datatype Option<+T> = None | Some(value: T)
}

/** Floating-point values as pandas stores them where a column may hold NaN. */
module Floats {
  datatype Float = NaN | Num(v: real)

  /** A column without NaN, as pandas stores a float series. */
  function Nums(s: seq<real>): (r: seq<Float>)
    ensures |r| == |s| && forall i :: 0 <= i < |s| ==> r[i] == Num(s[i])
  {
    seq(|s|, i requires 0 <= i < |s| => Num(s[i]))
  }

  /** A comparison `x < c` with a NaN operand is false, as in Python and numpy. */
  predicate Below(x: Float, c: real) {
    x.Num? && x.v < c
  }

  /** `Series.max()` with pandas' default `skipna=True`: the largest value that is not
      NaN, or NaN when every value is NaN (or the series is empty). */
  function NanMax(s: seq<Float>): (r: Float)
    ensures r.NaN? <==> forall i :: 0 <= i < |s| ==> s[i].NaN?
    ensures r.Num? ==> forall i :: 0 <= i < |s| && s[i].Num? ==> s[i].v <= r.v
    ensures r.Num? ==> exists i :: 0 <= i < |s| && s[i] == r
  {
    if |s| == 0 then NaN
    else
      var rest := NanMax(s[..|s| - 1]);
      var x := s[|s| - 1];
      if x.NaN? then rest
      else if rest.NaN? || rest.v < x.v then x
      else rest
  }
}

/** Sequence arithmetic used by the analytics, and the floating-point statistics that the
    model leaves uninterpreted. */
module Series {
  import opened Floats

  /** numpy / pandas routines whose floating-point results are not modelled: every use
      passes them in, so no property proved here depends on what they compute. */
  datatype Numerics = Numerics(
    pow: (real, real) -> real,                       // Python `**` on floats
    sqrt: real -> real,                              // np.sqrt
    std: seq<real> -> real,                          // Series.std() (sample standard deviation)
    autocorr: (seq<real>, int) -> Float,             // Series.autocorr(lag)
    rollingCorr: (seq<real>, seq<real>, int, int) -> Float,
                                                     // a.rolling(w).corr(b), value at index i
    dailyEquityVol: (seq<int>, seq<real>) -> real    // std of daily last-equity pct changes
  )

  function Sum(s: seq<real>): real {
    if |s| == 0 then 0.0 else Sum(s[..|s| - 1]) + s[|s| - 1]
  }

  /** `Series.mean()` of a series without NaN. */
  function Mean(s: seq<real>): real
    requires |s| > 0
  {
    Sum(s) / |s| as real
  }

  function Max(s: seq<real>): (r: real)
    requires |s| > 0
    ensures forall i :: 0 <= i < |s| ==> s[i] <= r
    ensures exists i :: 0 <= i < |s| && s[i] == r
  {
    if |s| == 1 then s[0]
    else
      var m := Max(s[..|s| - 1]);
      if s[|s| - 1] > m then s[|s| - 1] else m
  }

  function Min(s: seq<real>): (r: real)
    requires |s| > 0
    ensures forall i :: 0 <= i < |s| ==> r <= s[i]
    ensures exists i :: 0 <= i < |s| && s[i] == r
  {
    if |s| == 1 then s[0]
    else
      var m := Min(s[..|s| - 1]);
      if s[|s| - 1] < m then s[|s| - 1] else m
  }

  function Min2(a: real, b: real): real { if a <= b then a else b }
  function Max2(a: real, b: real): real { if a >= b then a else b }
  function Abs(x: real): real { if x < 0.0 then -x else x }

  /** The largest of s[0..i]. */
  function PrefixMax(s: seq<real>, i: nat): (r: real)
    requires i < |s|
    ensures forall j :: 0 <= j <= i ==> s[j] <= r
    ensures exists j :: 0 <= j <= i && s[j] == r
  {
    var p := s[..i + 1];
    assert forall j :: 0 <= j <= i ==> p[j] == s[j];
    Max(p)
  }

  /** `Series.cummax()`: element i is the largest value among the first i + 1. */
  function CumMax(s: seq<real>): (r: seq<real>)
    ensures |r| == |s|
    ensures forall i :: 0 <= i < |s| ==> r[i] == PrefixMax(s, i)
  {
    seq(|s|, i requires 0 <= i < |s| => PrefixMax(s, i))
  }

  /** `Series.tail(k)` / `iloc[-k:]`: the last k elements, or all of them. */
  function Tail<T>(s: seq<T>, k: nat): (r: seq<T>)
    ensures |r| == if |s| <= k then |s| else k
    ensures forall i :: 0 <= i < |r| ==> r[i] == s[|s| - |r| + i]
  {
    if |s| <= k then s else s[|s| - k..]
  }

  /** Number of elements satisfying p, as `(mask).sum()` counts them. */
  function CountWhere(s: seq<real>, p: real -> bool): (n: nat)
    ensures n <= |s|
  {
    if |s| == 0 then 0
    else CountWhere(s[..|s| - 1], p) + (if p(s[|s| - 1]) then 1 else 0)
  }

  /** Comparing a quotient by a positive divisor is comparing the cross product. */
  lemma DivCompare(x: real, y: real, c: real)
    requires y > 0.0
    ensures x / y > c <==> x > c * y
    ensures x / y < c <==> x < c * y
  {
    var q := x / y;
    assert x == q * y;
    if q > c { assert q * y > c * y; }
    if q < c { assert q * y < c * y; }
    if q == c { assert q * y == c * y; }
  }

  /** A product with a non-zero factor determines the other factor. */
  lemma MulCancel(u: real, v: real, p: real)
    requires p != 0.0 && u * p == v * p
    ensures u == v
  {}

  lemma MulLeCancel(u: real, v: real, p: real)
    requires p > 0.0 && u * p <= v * p
    ensures u <= v
  {}

  lemma MulMonotone(a: real, lo: real, hi: real)
    requires a >= 0.0 && lo <= hi
    ensures a * lo <= a * hi
  {}

  /** All values but the last are non-zero, so each has a relative change
      from its predecessor. */
  predicate Divisible(eq: seq<real>) {
    forall k :: 0 <= k < |eq| - 1 ==> eq[k] != 0.0
  }

  /** `pct_change().fillna(0)`: element i is the relative change from element i - 1, and
      the first element, which has no predecessor, is 0. */
  function Returns(eq: seq<real>): (ret: seq<real>)
    requires Divisible(eq)
    ensures |ret| == |eq|
  {
    seq(|eq|, i requires 0 <= i < |eq| => if i == 0 then 0.0 else eq[i] / eq[i - 1] - 1.0)
  }

  /** The lambdas `x if x > 0 else 0` and `x if x < 0 else 0`. */
  function PositivePart(x: real): real { if x > 0.0 then x else 0.0 }
  function NegativePart(x: real): real { if x < 0.0 then x else 0.0 }
}

/** The tabular inputs: hourly observations and pandas frames with their column sets. */
module Frames {
  /** One hourly observation; `datetime` is in milliseconds since the Unix epoch (UTC). */
  datatype Hour = Hour(datetime: int, price: real, funding: real)

  /** A DataFrame: the names of its columns and its rows in index order. A row type carries
      a field for every column the frame may have; `columns` says which are present. */
  datatype Frame<R> = Frame(columns: set<string>, rows: seq<R>) {
    /** `df.empty`: true when either axis has length zero. */
    predicate Empty() { |rows| == 0 || |columns| == 0 }
  }

  const MS_PER_DAY: int := 86_400_000
  const MS_PER_HOUR: int := 3_600_000

  /** `df[mask]` / `df.loc[mask]`: the rows that satisfy `keep`, in index order. */
  function Where<R>(rows: seq<R>, keep: R -> bool): (r: seq<R>)
    ensures |r| <= |rows|
  {
    if |rows| == 0 then []
    else Where(rows[..|rows| - 1], keep) + (if keep(rows[|rows| - 1]) then [rows[|rows| - 1]] else [])
  }

  /** A row is kept exactly when it is in the input and satisfies the mask. */
  lemma {:induction false} WhereMembers<R>(rows: seq<R>, keep: R -> bool, x: R)
    ensures x in Where(rows, keep) <==> x in rows && keep(x)
  {
    if |rows| > 0 {
      var init := rows[..|rows| - 1];
      WhereMembers(init, keep, x);
      assert rows == init + [rows[|rows| - 1]];
    }
  }

  /** Masking distributes over concatenation, so the kept rows keep their relative order. */
  lemma {:induction false} WhereConcat<R>(a: seq<R>, b: seq<R>, keep: R -> bool)
    ensures Where(a + b, keep) == Where(a, keep) + Where(b, keep)
    decreases |b|
  {
    if |b| > 0 {
      var bi := b[..|b| - 1];
      assert (a + b)[..|a + b| - 1] == a + bi;
      WhereConcat(a, bi, keep);
    } else {
      assert a + b == a;
    }
  }

  /** A single row is kept alone or dropped. */
  lemma WhereSingle<R>(x: R, keep: R -> bool)
    ensures Where([x], keep) == if keep(x) then [x] else []
  {
    assert [x][..0] == [];
  }

  /** With every row satisfying the mask, nothing is dropped. */
  lemma {:induction false} WhereAll<R>(rows: seq<R>, keep: R -> bool)
    requires forall i :: 0 <= i < |rows| ==> keep(rows[i])
    ensures Where(rows, keep) == rows
  {
    if |rows| > 0 {
      var init := rows[..|rows| - 1];
      WhereAll(init, keep);
      assert rows == init + [rows[|rows| - 1]];
    }
  }
}
