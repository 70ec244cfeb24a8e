/** Feature engineering over the hourly grid: rows are consecutive hours,
    indexed from 0 (the grid carries a default integer index, so an index
    difference is a number of rows, i.e. hours). The `seizure` column is a
    0/1 flag, modelled as `seq<bool>`. */
module FeatureEngineering {
  import opened Seqs
  import Clock

  /** The seizure flag as a predicate value. */
  predicate Holds(b: bool)
  {
    b
  }

  // ---------------------------------------------------------------------------
  // Temporal features

  /** `is_weekend`: 1 on Saturday and Sunday (`dayofweek >= 5`), else 0. */
  function IsWeekend(t: int): (w: int)
    ensures w == 0 || w == 1
    ensures w == 1 <==> Clock.Weekday(t) >= 5
  {
    if Clock.Weekday(t) >= 5 then 1 else 0
  }

  /** The flag repeats every week. */
  lemma IsWeekendWeekly(t: int)
    ensures IsWeekend(t + 7 * Clock.SecondsPerDay) == IsWeekend(t)
  {
    assert Clock.DayOf(t + 7 * Clock.SecondsPerDay) == Clock.DayOf(t) + 7;
  }

  // ---------------------------------------------------------------------------
  // Seizure history

  /** `hours_since_last_seizure` on row `i`: the distance to the latest
      seizure row strictly before `i`, or -1 when there is none. */
  function SinceLast(s: seq<bool>, i: nat): (r: int)
    requires i < |s|
    ensures r == -1 <==> forall k :: 0 <= k < i ==> !s[k]
    ensures r != -1 ==> 1 <= r <= i && s[i - r] && forall k :: i - r < k < i ==> !s[k]
  {
    match LastIndexBefore(s, Holds, i)
    case None => -1
    case Some(j) => i - j
  }

  /** The loop of `_add_seizure_history_features`, which tracks the index of
      the latest seizure row seen so far. */
  method HoursSinceLastSeizure(s: seq<bool>) returns (hs: seq<int>)
    ensures |hs| == |s|
    ensures forall i :: 0 <= i < |s| ==> hs[i] == SinceLast(s, i)
  {
    hs := [];
    var last: Option<nat> := None;
    var idx := 0;
    while idx < |s|
      invariant 0 <= idx <= |s|
      invariant |hs| == idx
      invariant forall i :: 0 <= i < idx ==> hs[i] == SinceLast(s, i)
      invariant last == LastIndexBefore(s, Holds, idx)
    {
      if last.Some? {
        hs := hs + [idx - last.value];
      } else {
        hs := hs + [-1];
      }
      if s[idx] {
        last := Some(idx);
      }
      idx := idx + 1;
    }
  }

  /** Up to and including the first seizure row the column is -1; in
      particular the first seizure row does not hold 0. */
  lemma SinceLastBeforeFirst(s: seq<bool>, first: nat, i: nat)
    requires first < |s| && s[first] && forall k :: 0 <= k < first ==> !s[k]
    requires i <= first
    ensures SinceLast(s, i) == -1
  {
  }

  /** On a seizure row with an earlier seizure, the column holds the gap to
      that previous seizure, never 0. */
  lemma SinceLastOnSeizureRow(s: seq<bool>, j: nat, i: nat)
    requires j < i < |s| && s[j] && s[i] && forall k :: j < k < i ==> !s[k]
    ensures SinceLast(s, i) == i - j
  {
  }

  /** The first row of the window of size `w` ending at row `i`. */
  function WindowStart(w: nat, i: nat): nat
  {
    if i + 1 >= w then i + 1 - w else 0
  }

  /** The rows a `rolling(window=w, min_periods=1)` aggregate on row `i`
      looks at: the last `w` rows up to and including row `i`. */
  function Window<T>(s: seq<T>, w: nat, i: nat): (r: seq<T>)
    requires i < |s| && w >= 1
    ensures 1 <= |r| <= w && |r| <= i + 1
    ensures r == s[WindowStart(w, i)..i + 1]
  {
    s[WindowStart(w, i)..i + 1]
  }

  /** `seizures_past_{w}h` on row `i`: the number of seizure rows among the
      last `w` rows up to and including row `i`. */
  function RollingCount(s: seq<bool>, w: nat, i: nat): (c: nat)
    requires i < |s| && w >= 1
    ensures c == |set j | WindowStart(w, i) <= j <= i && s[j]|
    ensures c <= w && c <= i + 1
  {
    RollingCountIsCard(s, w, i);
    CountWhere(Window(s, w, i), Holds)
  }

  lemma RollingCountIsCard(s: seq<bool>, w: nat, i: nat)
    requires i < |s| && w >= 1
    ensures CountWhere(Window(s, w, i), Holds) == |set j | WindowStart(w, i) <= j <= i && s[j]|
  {
    var lo := WindowStart(w, i);
    CountSliceIsCard(s, lo, i + 1, Holds);
    var a := SlicePositions(s, lo, i + 1, Holds);
    var b := set j | lo <= j <= i && s[j];
    forall j ensures j in a <==> j in b {
      if lo <= j <= i {
        assert Holds(s[j]) <==> s[j];
      }
    }
    assert a == b;
  }

  /** The window sizes the source uses: a day, two days, three days, a week. */
  const HistoryWindows: seq<nat> := [24, 48, 72, 168]

  /** A wider window never counts fewer seizures. */
  lemma RollingCountMonotone(s: seq<bool>, w1: nat, w2: nat, i: nat)
    requires i < |s| && 1 <= w1 <= w2
    ensures RollingCount(s, w1, i) <= RollingCount(s, w2, i)
  {
    var lo1 := if i + 1 >= w1 then i + 1 - w1 else 0;
    var lo2 := if i + 1 >= w2 then i + 1 - w2 else 0;
    assert s[lo2..i + 1] == s[lo2..lo1] + s[lo1..i + 1];
    CountAppend(s[lo2..lo1], s[lo1..i + 1], Holds);
  }

  /** The row's own seizure is inside every window. */
  lemma RollingCountCountsCurrent(s: seq<bool>, w: nat, i: nat)
    requires i < |s| && w >= 1 && s[i]
    ensures RollingCount(s, w, i) >= 1
  {
    var win := Window(s, w, i);
    assert win[|win| - 1] == s[i];
    CountPositiveIff(win, Holds);
  }

  /** The `hours_since_last_seizure` column as a whole. */
  function SinceColumn(s: seq<bool>): (c: seq<int>)
    ensures |c| == |s| && forall i :: 0 <= i < |s| ==> c[i] == SinceLast(s, i)
  {
    seq(|s|, i requires 0 <= i < |s| => SinceLast(s, i))
  }

  /** `avg_time_between_seizures` on row `i`: the mean of the last 168 values
      of `hours_since_last_seizure`. */
  function AvgTimeBetween(s: seq<bool>, i: nat): real
    requires i < |s|
  {
    var win := Window(SinceColumn(s), 168, i);
    Mean(seq(|win|, k requires 0 <= k < |win| => win[k] as real))
  }

  /** The average lies between -1 and the row index, since every value of the
      column does. */
  lemma AvgTimeBetweenBounds(s: seq<bool>, i: nat)
    requires i < |s|
    ensures -1.0 <= AvgTimeBetween(s, i) <= i as real
  {
    var col := SinceColumn(s);
    var win := Window(col, 168, i);
    var xs := seq(|win|, k requires 0 <= k < |win| => win[k] as real);
    var lo := if i + 1 >= 168 then i + 1 - 168 else 0;
    forall k | 0 <= k < |xs|
      ensures -1.0 <= xs[k] <= i as real
    {
      assert win[k] == col[lo + k] == SinceLast(s, lo + k);
    }
    MeanWithin(xs, -1.0, i as real);
  }

  // ---------------------------------------------------------------------------
  // Pain features

  /** `pain_change` on row `i` (`diff()`): missing on the first row and
      whenever this or the previous row has no pain value. */
  function PainChange(pain: seq<Option<real>>, i: nat): (d: Option<real>)
    requires i < |pain|
    ensures d.Some? <==> i > 0 && pain[i].Some? && pain[i - 1].Some?
    ensures d.Some? ==> pain[i].value == pain[i - 1].value + d.value
  {
    if i > 0 && pain[i].Some? && pain[i - 1].Some? then Some(pain[i].value - pain[i - 1].value) else None
  }

  /** `pain_increasing`: 1 exactly when the change is present and positive;
      a missing change compares as false. */
  function PainIncreasing(pain: seq<Option<real>>, i: nat): (b: int)
    requires i < |pain|
    ensures b == 0 || b == 1
    ensures b == 1 <==> i > 0 && pain[i].Some? && pain[i - 1].Some? && pain[i].value > pain[i - 1].value
  {
    var d := PainChange(pain, i);
    if d.Some? && d.value > 0.0 then 1 else 0
  }

  /** `pain_rolling_max_{w}h`: the largest pain value among the last `w` rows,
      missing when none of them has one. */
  function PainRollingMax(pain: seq<Option<real>>, w: nat, i: nat): (m: Option<real>)
    requires i < |pain| && w >= 1
  {
    MaxOpt(Window(pain, w, i))
  }

  /** `pain_rolling_mean_{w}h`: the mean of the pain values among the last
      `w` rows, missing when none of them has one. */
  function PainRollingMean(pain: seq<Option<real>>, w: nat, i: nat): (m: Option<real>)
    requires i < |pain| && w >= 1
  {
    MeanOpt(Window(pain, w, i))
  }

  /** The rolling maximum is present whenever the row has a pain value, and
      is at least that value. */
  lemma PainRollingMaxCoversRow(pain: seq<Option<real>>, w: nat, i: nat)
    requires i < |pain| && w >= 1 && pain[i].Some?
    ensures PainRollingMax(pain, w, i).Some? && PainRollingMax(pain, w, i).value >= pain[i].value
    ensures PainRollingMean(pain, w, i).Some?
  {
    var win := Window(pain, w, i);
    assert win[|win| - 1] == pain[i];
  }

  // ---------------------------------------------------------------------------
  // Training targets

  /** Some seizure lies in rows `i .. i + h - 1` (the current row included). */
  predicate SeizureWithin(s: seq<bool>, h: nat, i: nat)
  {
    exists j :: i <= j < |s| && j < i + h && s[j]
  }

  /** The least `r` in `k .. h` with a seizure on row `i + r`, or `h + 1`. */
  function SearchFrom(s: seq<bool>, h: nat, i: nat, k: nat): (r: nat)
    requires 1 <= k <= h + 1
    ensures k <= r <= h + 1
    ensures r <= h ==> i + r < |s| && s[i + r]
    ensures forall j :: i + k <= j < i + r && j < |s| ==> !s[j]
    decreases h + 1 - k
  {
    if k > h || i + k >= |s| then h + 1
    else if s[i + k] then k
    else SearchFrom(s, h, i, k + 1)
  }

  /** `target_hours_to_seizure` on row `i`: the least `k` in `1 .. h` with a
      seizure on row `i + k`, or `h + 1` when there is none. */
  function HoursTo(s: seq<bool>, h: nat, i: nat): (r: nat)
    ensures 1 <= r <= h + 1
    ensures r <= h ==> i + r < |s| && s[i + r]
    ensures forall j :: i < j < i + r && j < |s| ==> !s[j]
  {
    SearchFrom(s, h, i, 1)
  }

  /** A seizure fewer than `h` rows ahead makes the classification target 1.
      (One exactly `h` rows ahead does not: the target window ends at
      `i + h - 1`.) */
  lemma HoursToBelowHorizon(s: seq<bool>, h: nat, i: nat)
    requires HoursTo(s, h, i) < h
    ensures SeizureWithin(s, h, i)
  {
    var r := HoursTo(s, h, i);
    assert i <= i + r < i + h && s[i + r];
  }

  /** Rows kept by `iloc[:-h]`: all but the last `h`; with `h == 0` the slice
      `[:-0]` is empty, so no row is kept. */
  function KeptRows(n: nat, h: nat): (k: nat)
    ensures h > 0 ==> k == if n > h then n - h else 0
    ensures k <= n
  {
    if h == 0 || n <= h then 0 else n - h
  }

  /** With a positive horizon a kept row `i` has all of rows `i .. i + h` in
      the data, so both targets of a kept row look at rows that exist. */
  lemma KeptRowsHaveFullWindow(n: nat, h: nat, i: nat)
    requires h > 0 && i < KeptRows(n, h)
    ensures i + h < n
  {
  }

  lemma KeptRowsZeroHorizon(n: nat)
    ensures KeptRows(n, 0) == 0
  {
  }

  /** Columns that are not features. */
  const Excluded: seq<string> := ["DateTime", "seizure", "seizure_duration", "target_seizure", "target_hours_to_seizure"]

  predicate IsFeature(col: string)
  {
    col !in Excluded
  }

  /** `prepare_training_data`: the classification target loop, the nested
      regression target loop with its `break`, the cut to the kept rows and
      the feature column list. */
  method PrepareTrainingData(s: seq<bool>, columns: seq<string>, h: nat)
    returns (targetSeizure: seq<int>, hoursTo: seq<int>, featureCols: seq<string>)
    ensures |targetSeizure| == |hoursTo| == KeptRows(|s|, h)
    ensures forall i :: 0 <= i < |targetSeizure| ==>
      (targetSeizure[i] == 0 || targetSeizure[i] == 1) && (targetSeizure[i] == 1 <==> SeizureWithin(s, h, i))
    ensures forall i :: 0 <= i < |hoursTo| ==> hoursTo[i] == HoursTo(s, h, i)
    ensures forall c :: c in featureCols <==> c in columns && IsFeature(c)
    ensures |featureCols| == CountWhere(columns, IsFeature)
  {
    var n := |s|;
    var target: seq<int> := [];
    var i := 0;
    while i < n
      invariant 0 <= i <= n && |target| == i
      invariant forall k :: 0 <= k < i ==> (target[k] == 0 || target[k] == 1) && (target[k] == 1 <==> SeizureWithin(s, h, k))
    {
      var future := s[i..if i + h < n then i + h else n];
      CountPositiveIff(future, Holds);
      if CountWhere(future, Holds) > 0 {
        var j :| 0 <= j < |future| && Holds(future[j]);
        assert s[i + j];
        target := target + [1];
      } else {
        assert !SeizureWithin(s, h, i) by {
          forall j | i <= j < n && j < i + h ensures !s[j] {
            assert future[j - i] == s[j];
          }
        }
        target := target + [0];
      }
      i := i + 1;
    }

    var hours: seq<int> := [];
    i := 0;
    while i < n
      invariant 0 <= i <= n && |hours| == i
      invariant forall k :: 0 <= k < i ==> hours[k] == HoursTo(s, h, k)
    {
      var v := h + 1;
      var stop := if i + h + 1 < n then i + h + 1 else n;
      var j := i + 1;
      while j < stop
        invariant i + 1 <= j <= stop
        invariant v == h + 1
        invariant forall m :: i < m < j ==> !s[m]
      {
        if s[j] {
          v := j - i;
          break;
        }
        j := j + 1;
      }
      hours := hours + [v];
      i := i + 1;
    }

    var kept := KeptRows(n, h);
    targetSeizure := target[..kept];
    hoursTo := hours[..kept];
    featureCols := Filter(columns, IsFeature);
    forall c ensures c in featureCols <==> c in columns && IsFeature(c) {
      FilterMember(columns, IsFeature, c);
    }
  }
}
