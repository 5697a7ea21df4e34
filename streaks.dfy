/** The run-length streak statistics that src/utils/data_prep.py and
    src/calculators/stats_calculator.py both define (the two copies are the same code):
    a series is cut into streaks where `x > 0` flips, the pandas way, by a cumulative
    sum of flag changes and a group-by on the resulting ids. `get_spread_stats` in
    src/strategy.py uses the same grouping for its longest losing streak. */
module Streaks {
  import opened Floats
  import opened Series

  /** One group of the group-by: its flag and the number of elements in it. */
  datatype Streak = Streak(positive: bool, length: nat)

  /** `(flags != flags.shift()).cumsum()`: the first element compares unequal to the
      shifted-in NaN and opens group 1; every change of flag opens the next group. */
  function StreakIds(b: seq<bool>): (ids: seq<int>)
    ensures |ids| == |b|
  {
    if |b| == 0 then []
    else
      var p := StreakIds(b[..|b| - 1]);
      p + [if |b| == 1 then 1 else p[|p| - 1] + (if b[|b| - 1] != b[|b| - 2] then 1 else 0)]
  }

  /** `groupby(...).size()` for one group id: how many elements carry it. */
  function GroupSize(ids: seq<int>, g: int): (n: nat)
    ensures n <= |ids|
  {
    if |ids| == 0 then 0
    else GroupSize(ids[..|ids| - 1], g) + (if ids[|ids| - 1] == g then 1 else 0)
  }

  /** `flags.groupby(ids).sum()` for one group id: how many of its elements are flagged. */
  function FlaggedCount(b: seq<bool>, ids: seq<int>, g: int): (n: nat)
    requires |b| == |ids|
    ensures n <= GroupSize(ids, g)
  {
    if |ids| == 0 then 0
    else FlaggedCount(b[..|b| - 1], ids[..|ids| - 1], g) + (if ids[|ids| - 1] == g && b[|b| - 1] then 1 else 0)
  }

  /** The groups in id order, as `groupby(['streak_id', 'is_positive']).size()` lists them:
      group g's flag is the flag of its members, its length the number of members. */
  function Groups(b: seq<bool>): (r: seq<Streak>)
  {
    var ids := StreakIds(b);
    var count := if |b| == 0 || ids[|b| - 1] < 0 then 0 else ids[|b| - 1];
    seq(count, g requires 0 <= g < count =>
      Streak(FlaggedCount(b, ids, g + 1) > 0, GroupSize(ids, g + 1)))
  }

  // ---------------------------------------------------------------------------------
  // The reference: run-length encoding
  // ---------------------------------------------------------------------------------

  /** The maximal runs of equal flags, in order. */
  function Runs(b: seq<bool>): (r: seq<Streak>)
  {
    if |b| == 0 then []
    else
      var p := Runs(b[..|b| - 1]);
      var x := b[|b| - 1];
      if |p| > 0 && p[|p| - 1].positive == x then p[..|p| - 1] + [Streak(x, p[|p| - 1].length + 1)]
      else p + [Streak(x, 1)]
  }

  /** The flags a run-length encoding stands for. */
  function Expand(r: seq<Streak>): (b: seq<bool>)
  {
    if |r| == 0 then []
    else Expand(r[..|r| - 1]) + Repeat(r[|r| - 1].positive, r[|r| - 1].length)
  }

  function Repeat(x: bool, n: nat): (r: seq<bool>)
    ensures |r| == n
  {
    if n == 0 then [] else Repeat(x, n - 1) + [x]
  }

  function SumLengths(r: seq<Streak>): nat {
    if |r| == 0 then 0 else SumLengths(r[..|r| - 1]) + r[|r| - 1].length
  }

  /** A run-length encoding proper: every run is non-empty and neighbours differ. */
  predicate Maximal(r: seq<Streak>) {
    (forall k :: 0 <= k < |r| ==> r[k].length >= 1)
    && (forall k :: 0 < k < |r| ==> r[k].positive != r[k - 1].positive)
  }

  lemma ExpandSnoc(p: seq<Streak>, s: Streak)
    ensures Expand(p + [s]) == Expand(p) + Repeat(s.positive, s.length)
  {
    assert (p + [s])[..|p|] == p;
  }

  lemma {:induction false} ExpandLength(r: seq<Streak>)
    ensures |Expand(r)| == SumLengths(r)
  {
    if |r| > 0 {
      ExpandLength(r[..|r| - 1]);
    }
  }

  /** Runs has at most one run per element, and its last run carries the last flag. */
  lemma {:induction false} RunsLast(b: seq<bool>)
    ensures |Runs(b)| <= |b|
    ensures |b| > 0 ==> |Runs(b)| > 0 && Runs(b)[|Runs(b)| - 1].positive == b[|b| - 1]
  {
    if |b| > 0 {
      RunsLast(b[..|b| - 1]);
    }
  }

  /** Runs are non-empty and neighbouring runs differ in flag. */
  lemma {:induction false} RunsMaximal(b: seq<bool>)
    ensures Maximal(Runs(b))
  {
    if |b| > 0 {
      var b', x := b[..|b| - 1], b[|b| - 1];
      var p := Runs(b');
      RunsMaximal(b');
      if |p| > 0 && p[|p| - 1].positive == x {
        var r := p[..|p| - 1] + [Streak(x, p[|p| - 1].length + 1)];
        assert Runs(b) == r;
        assert forall k :: 0 <= k < |p| - 1 ==> r[k] == p[k];
      } else {
        var r := p + [Streak(x, 1)];
        assert Runs(b) == r;
        assert forall k :: 0 <= k < |p| ==> r[k] == p[k];
      }
    }
  }

  /** Lengthening the last run by one appends its flag once more. */
  lemma ExpandLonger(init: seq<Streak>, x: bool, n: nat)
    ensures Expand(init + [Streak(x, n + 1)]) == Expand(init + [Streak(x, n)]) + [x]
  {
    ExpandSnoc(init, Streak(x, n));
    ExpandSnoc(init, Streak(x, n + 1));
  }

  /** Runs of a series with one more element: the last run grows or a new run opens. */
  lemma RunsSnoc(b: seq<bool>)
    requires |b| > 0
    ensures var p, x := Runs(b[..|b| - 1]), b[|b| - 1];
      if |p| > 0 && p[|p| - 1].positive == x
      then p == p[..|p| - 1] + [Streak(x, p[|p| - 1].length)]
        && Runs(b) == p[..|p| - 1] + [Streak(x, p[|p| - 1].length + 1)]
      else Runs(b) == p + [Streak(x, 1)]
  {}

  /** Expanding the runs gives back the series. */
  lemma {:induction false} RunsExpand(b: seq<bool>)
    ensures Expand(Runs(b)) == b
  {
    if |b| > 0 {
      var b', x := b[..|b| - 1], b[|b| - 1];
      var p := Runs(b');
      RunsExpand(b');
      RunsSnoc(b);
      assert b == b' + [x];
      if |p| > 0 && p[|p| - 1].positive == x {
        var init, n := p[..|p| - 1], p[|p| - 1].length;
        ExpandLonger(init, x, n);
        assert Runs(b) == init + [Streak(x, n + 1)];
        assert Expand(init + [Streak(x, n)]) == b';
      } else {
        ExpandSnoc(p, Streak(x, 1));
        assert Runs(b) == p + [Streak(x, 1)];
        assert Repeat(x, 1) == [x];
      }
    }
  }

  /** Runs is a maximal run-length encoding of its input. */
  lemma RunsEncode(b: seq<bool>)
    ensures Expand(Runs(b)) == b
    ensures Maximal(Runs(b))
    ensures |b| > 0 ==> |Runs(b)| > 0 && Runs(b)[|Runs(b)| - 1].positive == b[|b| - 1]
    ensures |Runs(b)| <= |b|
  {
    RunsExpand(b);
    RunsMaximal(b);
    RunsLast(b);
  }

  /** The run lengths add up to the length of the series. */
  lemma RunsCover(b: seq<bool>)
    ensures SumLengths(Runs(b)) == |b|
  {
    RunsEncode(b);
    ExpandLength(Runs(b));
  }

  // ---------------------------------------------------------------------------------
  // The group-by computes the runs
  // ---------------------------------------------------------------------------------

  lemma StreakIdsPrefix(b: seq<bool>)
    requires |b| > 0
    ensures StreakIds(b)[..|b| - 1] == StreakIds(b[..|b| - 1])
  {}

  /** The ids are the running count of flag changes, the first element counting as one. */
  lemma {:induction false} StreakIdsCumulative(b: seq<bool>)
    ensures |b| > 0 ==> StreakIds(b)[0] == 1
    ensures forall i :: 0 < i < |b| ==>
      StreakIds(b)[i] == StreakIds(b)[i - 1] + (if b[i] != b[i - 1] then 1 else 0)
  {
    if |b| > 1 {
      var b' := b[..|b| - 1];
      StreakIdsCumulative(b');
      StreakIdsPrefix(b);
      assert forall i :: 0 <= i < |b'| ==> b'[i] == b[i];
    }
  }

  lemma GroupSizeSnoc(ids: seq<int>, x: int, g: int)
    ensures GroupSize(ids + [x], g) == GroupSize(ids, g) + (if x == g then 1 else 0)
  {
    assert (ids + [x])[..|ids|] == ids;
  }

  lemma FlaggedCountSnoc(b: seq<bool>, ids: seq<int>, f: bool, x: int, g: int)
    requires |b| == |ids|
    ensures FlaggedCount(b + [f], ids + [x], g) == FlaggedCount(b, ids, g) + (if x == g && f then 1 else 0)
  {
    assert (ids + [x])[..|ids|] == ids;
    assert (b + [f])[..|b|] == b;
  }

  lemma {:induction false} GroupSizeAbsent(ids: seq<int>, g: int)
    requires forall i :: 0 <= i < |ids| ==> ids[i] < g
    ensures GroupSize(ids, g) == 0
  {
    if |ids| > 0 {
      GroupSizeAbsent(ids[..|ids| - 1], g);
    }
  }

  /** The id of the last element is the number of runs, and no id exceeds it. */
  lemma {:induction false} StreakIdsCountRuns(b: seq<bool>)
    ensures forall i :: 0 <= i < |b| ==> 1 <= StreakIds(b)[i] <= StreakIds(b)[|b| - 1]
    ensures |b| > 0 ==> StreakIds(b)[|b| - 1] == |Runs(b)|
  {
    if |b| > 1 {
      var b' := b[..|b| - 1];
      StreakIdsCountRuns(b');
      StreakIdsPrefix(b);
      RunsEncode(b');
    }
  }

  /** Group g (counting from 1) of `ids` has the length of run g of `r`, and all or none
      of its elements are flagged as run g is. */
  predicate GroupsMatch(b: seq<bool>, ids: seq<int>, r: seq<Streak>)
    requires |b| == |ids|
  {
    forall g :: 1 <= g <= |r| ==>
      GroupSize(ids, g) == r[g - 1].length
      && FlaggedCount(b, ids, g) == (if r[g - 1].positive then r[g - 1].length else 0)
  }

  /** The groups after an element that continues the last run: the last group and the
      last run both grow by one. */
  lemma GroupsExtend(b: seq<bool>, ids: seq<int>, p: seq<Streak>, x: bool, r: seq<Streak>)
    requires |b| == |ids| && |p| > 0 && p[|p| - 1].positive == x
    requires forall i :: 0 <= i < |ids| ==> ids[i] <= |p|
    requires GroupsMatch(b, ids, p)
    requires r == p[..|p| - 1] + [Streak(x, p[|p| - 1].length + 1)]
    ensures GroupsMatch(b + [x], ids + [|p|], r)
  {
    forall g | 1 <= g <= |r|
      ensures GroupSize(ids + [|p|], g) == r[g - 1].length
      ensures FlaggedCount(b + [x], ids + [|p|], g) == (if r[g - 1].positive then r[g - 1].length else 0)
    {
      GroupSizeSnoc(ids, |p|, g);
      FlaggedCountSnoc(b, ids, x, |p|, g);
    }
  }

  /** The groups after an element that opens a new run: a new group of one. */
  lemma GroupsOpen(b: seq<bool>, ids: seq<int>, p: seq<Streak>, x: bool, r: seq<Streak>)
    requires |b| == |ids|
    requires forall i :: 0 <= i < |ids| ==> ids[i] <= |p|
    requires GroupsMatch(b, ids, p)
    requires r == p + [Streak(x, 1)]
    ensures GroupsMatch(b + [x], ids + [|p| + 1], r)
  {
    var ids', b' := ids + [|p| + 1], b + [x];
    GroupSizeAbsent(ids, |p| + 1);
    forall g | 1 <= g <= |r|
      ensures GroupSize(ids', g) == r[g - 1].length
      ensures FlaggedCount(b', ids', g) == (if r[g - 1].positive then r[g - 1].length else 0)
    {
      GroupSizeSnoc(ids, |p| + 1, g);
      FlaggedCountSnoc(b, ids, x, |p| + 1, g);
    }
  }

  /** One more element: the groups still match the runs, whichever way the run changes. */
  lemma GroupsStep(b: seq<bool>, ids: seq<int>, p: seq<Streak>, x: bool, newId: int, r: seq<Streak>)
    requires |b| == |ids| && GroupsMatch(b, ids, p)
    requires forall i :: 0 <= i < |ids| ==> ids[i] <= |p|
    requires |p| > 0 && p[|p| - 1].positive == x ==>
      newId == |p| && r == p[..|p| - 1] + [Streak(x, p[|p| - 1].length + 1)]
    requires !(|p| > 0 && p[|p| - 1].positive == x) ==> newId == |p| + 1 && r == p + [Streak(x, 1)]
    ensures GroupsMatch(b + [x], ids + [newId], r)
  {
    if |p| > 0 && p[|p| - 1].positive == x {
      GroupsExtend(b, ids, p, x, r);
    } else {
      GroupsOpen(b, ids, p, x, r);
    }
  }

  lemma {:induction false} StreakIdsSnoc(b: seq<bool>)
    requires |b| > 0
    ensures StreakIds(b) == StreakIds(b[..|b| - 1]) + [StreakIds(b)[|b| - 1]]
    ensures |b| == 1 ==> StreakIds(b)[0] == 1
    ensures |b| > 1 ==>
      StreakIds(b)[|b| - 1] == StreakIds(b[..|b| - 1])[|b| - 2] + (if b[|b| - 1] != b[|b| - 2] then 1 else 0)
  {
    var p := StreakIds(b[..|b| - 1]);
    assert StreakIds(b) == p + [if |b| == 1 then 1 else p[|p| - 1] + (if b[|b| - 1] != b[|b| - 2] then 1 else 0)];
  }

  /** The id of a new last element is the number of runs it ends: the last run's number
      when it continues that run, the next number when it opens a run. */
  lemma {:induction false} LastIdCountsRuns(b: seq<bool>)
    requires |b| > 0
    ensures var p, x, id := Runs(b[..|b| - 1]), b[|b| - 1], StreakIds(b)[|b| - 1];
      (|p| > 0 && p[|p| - 1].positive == x ==> id == |p|)
      && (!(|p| > 0 && p[|p| - 1].positive == x) ==> id == |p| + 1)
  {
    var b' := b[..|b| - 1];
    StreakIdsSnoc(b);
    RunsLast(b');
    if |b| > 1 {
      StreakIdsCountRuns(b');
      assert b'[|b'| - 1] == b[|b| - 2];
    }
  }

  /** The group-by's groups are the runs, one by one. */
  lemma {:induction false} GroupsMatchRuns(b: seq<bool>)
    ensures GroupsMatch(b, StreakIds(b), Runs(b))
  {
    if |b| > 0 {
      var b', x := b[..|b| - 1], b[|b| - 1];
      var ids', p := StreakIds(b'), Runs(b');
      GroupsMatchRuns(b');
      StreakIdsCountRuns(b');
      LastIdCountsRuns(b);
      RunsSnoc(b);
      StreakIdsPrefix(b);
      var newId := StreakIds(b)[|b| - 1];
      assert StreakIds(b) == ids' + [newId];
      assert b == b' + [x];
      GroupsStep(b', ids', p, x, newId, Runs(b));
    }
  }

  /** The group-by yields exactly the maximal runs. */
  lemma GroupsAreRuns(b: seq<bool>)
    ensures Groups(b) == Runs(b)
  {
    GroupsMatchRuns(b);
    StreakIdsCountRuns(b);
    RunsEncode(b);
  }

  // ---------------------------------------------------------------------------------
  // The statistics
  // ---------------------------------------------------------------------------------

  /** The dictionary `calculate_streak_statistics` returns. */
  datatype StreakStatistics = StreakStatistics(
    maxWinStreak: nat, maxLoseStreak: nat, avgWinStreak: real, currentStreakLen: nat)

  /** `x > 0` on one value: false for NaN, as every comparison with NaN is. */
  predicate IsPositive(x: Float) {
    x.Num? && x.v > 0.0
  }

  /** `series > 0`, element by element. */
  function Positives(x: seq<Float>): (b: seq<bool>)
    ensures |b| == |x| && forall i :: 0 <= i < |x| ==> (b[i] <==> IsPositive(x[i]))
  {
    seq(|x|, i requires 0 <= i < |x| => IsPositive(x[i]))
  }

  /** The `length` column of the groups whose flag is `flag`, in group order. */
  function Lengths(groups: seq<Streak>, flag: bool): (r: seq<nat>)
    ensures |r| <= |groups|
  {
    if |groups| == 0 then []
    else
      var last := groups[|groups| - 1];
      Lengths(groups[..|groups| - 1], flag) + (if last.positive == flag then [last.length] else [])
  }

  function MaxNat(s: seq<nat>): (m: nat)
    requires |s| > 0
    ensures forall i :: 0 <= i < |s| ==> s[i] <= m
    ensures exists i :: 0 <= i < |s| && s[i] == m
  {
    if |s| == 1 then s[0]
    else
      var m := MaxNat(s[..|s| - 1]);
      if s[|s| - 1] > m then s[|s| - 1] else m
  }

  function SumNat(s: seq<nat>): nat {
    if |s| == 0 then 0 else SumNat(s[..|s| - 1]) + s[|s| - 1]
  }

  /** `calculate_streak_statistics`: zeros for an empty series; otherwise the longest
      winning and losing group, the mean winning group length, and the size of the last
      element's group. */
  function StreakStats(x: seq<Float>): (r: StreakStatistics)
    ensures |x| == 0 ==> r == StreakStatistics(0, 0, 0.0, 0)
  {
    if |x| == 0 then StreakStatistics(0, 0, 0.0, 0)
    else
      var b := Positives(x);
      var ids := StreakIds(b);
      var groups := Groups(b);
      var win, lose := Lengths(groups, true), Lengths(groups, false);
      StreakStatistics(
        if |win| == 0 then 0 else MaxNat(win),
        if |lose| == 0 then 0 else MaxNat(lose),
        if |win| == 0 then 0.0 else SumNat(win) as real / |win| as real,
        GroupSize(ids, ids[|x| - 1]))
  }

  /** The lengths of the runs with a flag: one per such run, none for the others. */
  lemma {:induction false} LengthsMembers(groups: seq<Streak>, flag: bool)
    ensures forall k :: 0 <= k < |groups| && groups[k].positive == flag ==> groups[k].length in Lengths(groups, flag)
    ensures forall v :: v in Lengths(groups, flag) ==>
      exists k :: 0 <= k < |groups| && groups[k].positive == flag && groups[k].length == v
  {
    if |groups| > 0 {
      var init := groups[..|groups| - 1];
      LengthsMembers(init, flag);
      assert forall k :: 0 <= k < |init| ==> init[k] == groups[k];
    }
  }

  /** A flag occurs in a series exactly when some run carries it. */
  lemma {:induction false} ExpandHas(r: seq<Streak>, f: bool)
    requires Maximal(r)
    ensures (exists i :: 0 <= i < |Expand(r)| && Expand(r)[i] == f) <==> (exists k :: 0 <= k < |r| && r[k].positive == f)
  {
    if |r| > 0 {
      var init, last := r[..|r| - 1], r[|r| - 1];
      assert forall k :: 0 <= k < |init| ==> init[k] == r[k];
      ExpandHas(init, f);
      var e := Expand(init);
      var tail := Repeat(last.positive, last.length);
      assert Expand(r) == e + tail;
      RepeatAll(last.positive, last.length);
      if exists k :: 0 <= k < |r| && r[k].positive == f {
        var k :| 0 <= k < |r| && r[k].positive == f;
        if k == |r| - 1 {
          assert Expand(r)[|e|] == f;
        } else {
          assert init[k].positive == f;
          var i :| 0 <= i < |e| && e[i] == f;
          assert Expand(r)[i] == f;
        }
      }
      if exists i :: 0 <= i < |Expand(r)| && Expand(r)[i] == f {
        var i :| 0 <= i < |Expand(r)| && Expand(r)[i] == f;
        if i >= |e| {
          assert tail[i - |e|] == f;
          assert r[|r| - 1].positive == f;
        } else {
          assert e[i] == f;
          var k :| 0 <= k < |init| && init[k].positive == f;
          assert r[k].positive == f;
        }
      }
    }
  }

  lemma {:induction false} RepeatAll(x: bool, n: nat)
    ensures forall i :: 0 <= i < n ==> Repeat(x, n)[i] == x
  {
    if n > 0 {
      RepeatAll(x, n - 1);
    }
  }

  /** A sum of values bounded by m is at most the count times m. */
  lemma {:induction false} SumBounded(s: seq<nat>, m: nat)
    requires forall i :: 0 <= i < |s| ==> s[i] <= m
    ensures SumNat(s) <= |s| * m
  {
    if |s| > 0 {
      SumBounded(s[..|s| - 1], m);
      assert (|s| - 1) * m + m == |s| * m;
    }
  }

  /** A sum of values of at least 1 is at least the count. */
  lemma {:induction false} SumAtLeastCount(s: seq<nat>)
    requires forall i :: 0 <= i < |s| ==> s[i] >= 1
    ensures SumNat(s) >= |s|
  {
    if |s| > 0 {
      SumAtLeastCount(s[..|s| - 1]);
    }
  }

  /** The longest run with a flag, as `lengths.max()` over the runs with that flag
      finds it, or 0 when there is none. */
  lemma LongestRun(r: seq<Streak>, f: bool, m: nat)
    requires Maximal(r)
    requires m == (if |Lengths(r, f)| == 0 then 0 else MaxNat(Lengths(r, f)))
    ensures forall k :: 0 <= k < |r| && r[k].positive == f ==> r[k].length <= m
    ensures (exists k :: 0 <= k < |r| && r[k].positive == f) ==>
      m >= 1 && exists k :: 0 <= k < |r| && r[k].positive == f && r[k].length == m
    ensures !(exists k :: 0 <= k < |r| && r[k].positive == f) ==> m == 0
  {
    LengthsMembers(r, f);
    var ls := Lengths(r, f);
    if |ls| > 0 {
      var j :| 0 <= j < |ls| && ls[j] == m;
      assert m in ls;
      var k :| 0 <= k < |r| && r[k].positive == f && r[k].length == m;
    }
    if exists k :: 0 <= k < |r| && r[k].positive == f {
      var k :| 0 <= k < |r| && r[k].positive == f;
      assert r[k].length in ls;
    }
  }

  /** Every run length with a flag is at least 1. */
  lemma LengthsPositive(r: seq<Streak>, f: bool)
    requires Maximal(r)
    ensures forall i :: 0 <= i < |Lengths(r, f)| ==> Lengths(r, f)[i] >= 1
  {
    var ls := Lengths(r, f);
    LengthsMembers(r, f);
    forall i | 0 <= i < |ls| ensures ls[i] >= 1 {
      assert ls[i] in ls;
    }
  }

  /** The mean of the run lengths with a flag lies between 1 and the longest of them. */
  lemma MeanRunBounds(r: seq<Streak>, f: bool)
    requires Maximal(r) && |Lengths(r, f)| > 0
    ensures 1.0 <= SumNat(Lengths(r, f)) as real / |Lengths(r, f)| as real <= MaxNat(Lengths(r, f)) as real
  {
    var ls := Lengths(r, f);
    LengthsPositive(r, f);
    SumBounded(ls, MaxNat(ls));
    SumAtLeastCount(ls);
    MeanBounds(SumNat(ls), |ls|, MaxNat(ls));
  }

  lemma MeanBounds(s: nat, n: nat, m: nat)
    requires n > 0 && n <= s <= n * m
    ensures 1.0 <= s as real / n as real <= m as real
  {
    var sr, nr, mr := s as real, n as real, m as real;
    assert sr <= nr * mr;
    DivCompare(sr, nr, mr);
    DivCompare(sr, nr, 1.0);
  }

  /** The expansion of non-empty runs ends with the last run's flag. */
  lemma ExpandEnds(r: seq<Streak>)
    requires Maximal(r) && |r| > 0
    ensures |Expand(r)| >= r[|r| - 1].length
    ensures forall i :: |Expand(r)| - r[|r| - 1].length <= i < |Expand(r)| ==> Expand(r)[i] == r[|r| - 1].positive
  {
    var last := r[|r| - 1];
    var e := Expand(r[..|r| - 1]);
    assert Expand(r) == e + Repeat(last.positive, last.length);
    RepeatAll(last.positive, last.length);
  }

  /** The element before the last run, when there is one, carries the other flag. */
  lemma ExpandBeforeLast(r: seq<Streak>)
    requires Maximal(r) && |r| > 0
    ensures |Expand(r)| > r[|r| - 1].length ==>
      Expand(r)[|Expand(r)| - r[|r| - 1].length - 1] != r[|r| - 1].positive
  {
    var init, last := r[..|r| - 1], r[|r| - 1];
    var e := Expand(init);
    assert Expand(r) == e + Repeat(last.positive, last.length);
    if |init| > 0 {
      assert forall k :: 0 <= k < |init| ==> init[k] == r[k];
      assert Maximal(init);
      ExpandEnds(init);
      assert e[|e| - 1] == init[|init| - 1].positive;
      assert Expand(r)[|e| - 1] == e[|e| - 1];
    }
  }

  /** The current streak: the last element's group is the last run, so every one of the
      last `currentStreakLen` values has the sign flag of the last value, and the value
      just before them, when there is one, has the other. */
  lemma CurrentStreak(x: seq<Float>)
    requires |x| > 0
    ensures var r, c := Runs(Positives(x)), StreakStats(x).currentStreakLen;
      |r| > 0 && c == r[|r| - 1].length && 1 <= c <= |x|
    ensures var b, c := Positives(x), StreakStats(x).currentStreakLen;
      (forall i :: |x| - c <= i < |x| ==> b[i] == b[|x| - 1])
      && (c < |x| ==> b[|x| - c - 1] != b[|x| - 1])
  {
    var b := Positives(x);
    var ids, r := StreakIds(b), Runs(b);
    GroupsMatchRuns(b);
    StreakIdsCountRuns(b);
    RunsEncode(b);
    assert GroupSize(ids, |r|) == r[|r| - 1].length;
    ExpandEnds(r);
    ExpandBeforeLast(r);
  }

  /** A flag occurs exactly when some run has the flag. */
  lemma RunsHaveFlag(b: seq<bool>, f: bool)
    ensures (exists i :: 0 <= i < |b| && b[i] == f) <==> (exists k :: 0 <= k < |Runs(b)| && Runs(b)[k].positive == f)
  {
    RunsEncode(b);
    ExpandHas(Runs(b), f);
  }

  lemma HasFlag(x: seq<Float>, f: bool)
    ensures var b, r := Positives(x), Runs(Positives(x));
      (exists i :: 0 <= i < |x| && b[i] == f) <==> (exists k :: 0 <= k < |r| && r[k].positive == f)
  {
    RunsHaveFlag(Positives(x), f);
  }

  /** The longest winning streak is the longest run of positive values: no run of them is
      longer and one is this long; it is 0 exactly when no value is positive. */
  lemma LongestWinStreak(x: seq<Float>)
    ensures var r, m := Runs(Positives(x)), StreakStats(x).maxWinStreak;
      (forall k :: 0 <= k < |r| && r[k].positive ==> r[k].length <= m)
      && ((exists i :: 0 <= i < |x| && IsPositive(x[i])) ==>
            m >= 1 && exists k :: 0 <= k < |r| && r[k].positive && r[k].length == m)
      && (m == 0 <==> forall i :: 0 <= i < |x| ==> !IsPositive(x[i]))
  {
    var b := Positives(x);
    RunsEncode(b);
    HasFlag(x, true);
    GroupsAreRuns(b);
    LongestRun(Runs(b), true, StreakStats(x).maxWinStreak);
  }

  /** The longest losing streak is the longest run of values that are not positive
      (zero, negative or NaN); it is 0 exactly when every value is positive. */
  lemma LongestLoseStreak(x: seq<Float>)
    ensures var r, m := Runs(Positives(x)), StreakStats(x).maxLoseStreak;
      (forall k :: 0 <= k < |r| && !r[k].positive ==> r[k].length <= m)
      && ((exists i :: 0 <= i < |x| && !IsPositive(x[i])) ==>
            m >= 1 && exists k :: 0 <= k < |r| && !r[k].positive && r[k].length == m)
      && (m == 0 <==> forall i :: 0 <= i < |x| ==> IsPositive(x[i]))
  {
    var b := Positives(x);
    RunsEncode(b);
    HasFlag(x, false);
    GroupsAreRuns(b);
    LongestRun(Runs(b), false, StreakStats(x).maxLoseStreak);
  }

  /** The mean winning streak is 0 when nothing is positive and otherwise lies between 1
      and the longest winning streak. */
  lemma MeanWinStreak(x: seq<Float>)
    ensures var s := StreakStats(x);
      if forall i :: 0 <= i < |x| ==> !IsPositive(x[i]) then s.avgWinStreak == 0.0
      else 1.0 <= s.avgWinStreak <= s.maxWinStreak as real
  {
    var b := Positives(x);
    var r := Runs(b);
    RunsEncode(b);
    HasFlag(x, true);
    GroupsAreRuns(b);
    LengthsMembers(r, true);
    if |x| > 0 && |Lengths(r, true)| > 0 {
      MeanRunBounds(r, true);
    }
    if exists i :: 0 <= i < |x| && IsPositive(x[i]) {
      var k :| 0 <= k < |r| && r[k].positive;
      assert r[k].length in Lengths(r, true);
    }
  }

  // ---------------------------------------------------------------------------------
  // The longest flagged group, as `get_spread_stats` computes it
  // ---------------------------------------------------------------------------------

  /** `flags.groupby(ids).sum().max()` over groups 1..n: the most flagged elements in
      any one group. */
  function FlaggedMax(b: seq<bool>, ids: seq<int>, n: nat): (m: nat)
    requires |b| == |ids|
    ensures forall g :: 1 <= g <= n ==> FlaggedCount(b, ids, g) <= m
    ensures n > 0 ==> exists g :: 1 <= g <= n && FlaggedCount(b, ids, g) == m
    ensures n == 0 ==> m == 0
  {
    if n == 0 then 0
    else
      var m := FlaggedMax(b, ids, n - 1);
      var c := FlaggedCount(b, ids, n);
      if c > m then c else m
  }

  /** `flags.groupby((flags != flags.shift()).cumsum()).sum().max()`. */
  function LongestFlaggedGroup(b: seq<bool>): nat {
    FlaggedMax(b, StreakIds(b), |Groups(b)|)
  }

  /** The longest flagged group is the longest run of flagged elements: no such run is
      longer, one is this long, and it is 0 exactly when nothing is flagged. */
  lemma {:induction false} LongestFlaggedRun(b: seq<bool>)
    ensures var r, m := Runs(b), LongestFlaggedGroup(b);
      (forall k :: 0 <= k < |r| && r[k].positive ==> r[k].length <= m)
      && ((exists i :: 0 <= i < |b| && b[i]) ==> m >= 1 && exists k :: 0 <= k < |r| && r[k].positive && r[k].length == m)
      && (m == 0 <==> forall i :: 0 <= i < |b| ==> !b[i])
  {
    var r, ids, m := Runs(b), StreakIds(b), LongestFlaggedGroup(b);
    GroupCount(b);
    GroupsMatchRuns(b);
    RunsMaximal(b);
    RunsHaveFlag(b, true);
    forall k | 0 <= k < |r| && r[k].positive ensures r[k].length <= m {
      assert FlaggedCount(b, ids, k + 1) == r[k].length;
    }
    if exists i :: 0 <= i < |b| && b[i] {
      var k :| 0 <= k < |r| && r[k].positive;
      assert r[k].length >= 1;
      var g :| 1 <= g <= |r| && FlaggedCount(b, ids, g) == m;
      assert r[g - 1].positive && r[g - 1].length == m;
    } else if |r| > 0 {
      var g :| 1 <= g <= |r| && FlaggedCount(b, ids, g) == m;
      assert !r[g - 1].positive;
    }
  }

  /** There are as many groups as runs. */
  lemma GroupCount(b: seq<bool>)
    ensures |Groups(b)| == |Runs(b)|
  {
    StreakIdsCountRuns(b);
  }
}
