/** The training-side grid builder: the three tables loaded and sorted, the
    hourly grid over their joint span with the seizure flag, the duration of
    the hour's last seizure and the forward-filled pain, and the optional
    placement of the forecast-history features on their nearest hours. */
module Preprocessing {
  import opened Seqs
  import Clock
  import Grid
  import Feedback
  import Forecaster
  import Triggers

  // ---------------------------------------------------------------------------
  // Loading

  /** `fillna('')` on the food column. */
  function FillFood(r: Grid.RawSeizure): (f: Grid.RawSeizure)
    ensures f.time == r.time && f.duration == r.duration && f.period == r.period && f.eaten == r.eaten
    ensures f.food.Some? && (r.food.Some? ==> f.food == r.food) && (r.food.None? ==> f.food == Some(""))
  {
    Grid.RawSeizure(r.time, r.duration, r.period, r.eaten, Some(if r.food.Some? then r.food.value else ""))
  }

  /** Each raw row with its food cell filled and its flags mapped. */
  function Cleaned(raw: seq<Grid.RawSeizure>): (c: seq<Grid.SeizureRecord>)
    ensures |c| == |raw| && forall i :: 0 <= i < |raw| ==> c[i] == Grid.CleanSeizure(FillFood(raw[i]))
  {
    if raw == [] then [] else Cleaned(raw[..|raw| - 1]) + [Grid.CleanSeizure(FillFood(raw[|raw| - 1]))]
  }

  /** `load_seizures`: the shared loader after the food fill; the result is
      the filled and mapped rows, reordered by time. */
  function LoadSeizures(raw: seq<Grid.RawSeizure>): (s: seq<Grid.SeizureRecord>)
    ensures multiset(s) == multiset(Cleaned(raw))
    ensures Grid.Chronological(s)
    ensures |s| == |raw|
  {
    var filled := seq(|raw|, i requires 0 <= i < |raw| => FillFood(raw[i]));
    var s := Grid.LoadSeizures(filled);
    assert seq(|filled|, i requires 0 <= i < |filled| => Grid.CleanSeizure(filled[i])) == Cleaned(raw);
    assert |multiset(s)| == |raw|;
    s
  }

  /** Every loaded seizure comes from a raw row, with its flags mapped and
      its food cell present. */
  lemma LoadedSeizureOrigin(raw: seq<Grid.RawSeizure>, k: nat)
    requires k < |LoadSeizures(raw)|
    ensures var s := LoadSeizures(raw)[k];
      s.food.Some? &&
      exists i :: 0 <= i < |raw| && s.time == raw[i].time && s.duration == raw[i].duration &&
        s.period == Grid.MapFlag(raw[i].period) && s.eaten == Grid.MapFlag(raw[i].eaten)
  {
    var filled := seq(|raw|, i requires 0 <= i < |raw| => FillFood(raw[i]));
    var s := LoadSeizures(raw)[k];
    Grid.LoadSeizuresOrigin(filled, s);
    var i :| 0 <= i < |filled| && s == Grid.CleanSeizure(filled[i]);
  }

  /** A seizure file whose Eaten and Period columns `read_csv` reads as
      booleans (the tracker writes Python's `True` and `False`) loses both
      flags: every loaded seizure has them missing, and the trigger analysis
      counts no seizure with food. */
  lemma BoolFlagsLost(lines: seq<Grid.SeizureText>)
    requires |lines| > 0
    requires Grid.BoolColumn(Grid.EatenCells(lines)) && Grid.BoolColumn(Grid.PeriodCells(lines))
    ensures forall k :: 0 <= k < |LoadSeizures(Grid.ReadSeizures(lines))| ==>
      LoadSeizures(Grid.ReadSeizures(lines))[k].eaten.None? && LoadSeizures(Grid.ReadSeizures(lines))[k].period.None?
    ensures Triggers.FoodPatterns(LoadSeizures(Grid.ReadSeizures(lines))).Some?
    ensures Triggers.FoodPatterns(LoadSeizures(Grid.ReadSeizures(lines))).value.seizuresWithFood == 0
  {
    var raw := Grid.ReadSeizures(lines);
    var s := LoadSeizures(raw);
    Grid.BoolColumnMapsToMissing(Grid.EatenCells(lines));
    Grid.BoolColumnMapsToMissing(Grid.PeriodCells(lines));
    forall k | 0 <= k < |s| ensures s[k].eaten.None? && s[k].period.None? {
      LoadedSeizureOrigin(raw, k);
    }
    Seqs.CountPositiveIff(s, Triggers.Ate);
  }

  /** A watch export row: its time and its numeric columns. */
  datatype WatchRecord = WatchRecord(time: int, values: seq<Option<real>>)

  function WatchTime(w: WatchRecord): real
  {
    w.time as real
  }

  /** `load_apple_watch_data`: the rows sorted by time. */
  function LoadWatch(raw: seq<WatchRecord>): (s: seq<WatchRecord>)
    ensures multiset(s) == multiset(raw)
    ensures forall i, j :: 0 <= i < j < |s| ==> s[i].time <= s[j].time
  {
    var s := SortBy(raw, WatchTime);
    assert forall i, j :: 0 <= i < j < |s| ==> WatchTime(s[i]) <= WatchTime(s[j]);
    s
  }

  function PainTime(p: Grid.PainRecord): real
  {
    p.time as real
  }

  /** `load_pain_data`: the reports sorted by time. */
  function LoadPain(raw: seq<Grid.PainRecord>): (s: seq<Grid.PainRecord>)
    ensures multiset(s) == multiset(raw)
    ensures forall i, j :: 0 <= i < j < |s| ==> s[i].time <= s[j].time
  {
    var s := SortBy(raw, PainTime);
    assert forall i, j :: 0 <= i < j < |s| ==> PainTime(s[i]) <= PainTime(s[j]);
    s
  }

  // ---------------------------------------------------------------------------
  // The hourly dataset

  function SeizureTimes(s: seq<Grid.SeizureRecord>): (t: seq<int>)
    ensures |t| == |s| && forall k :: 0 <= k < |s| ==> t[k] == s[k].time
  {
    seq(|s|, k requires 0 <= k < |s| => s[k].time)
  }

  function WatchTimes(w: seq<WatchRecord>): (t: seq<int>)
    ensures |t| == |w| && forall k :: 0 <= k < |w| ==> t[k] == w[k].time
  {
    seq(|w|, k requires 0 <= k < |w| => w[k].time)
  }

  function PainTimes(p: seq<Grid.PainRecord>): (t: seq<int>)
    ensures |t| == |p| && forall k :: 0 <= k < |p| ==> t[k] == p[k].time
  {
    seq(|p|, k requires 0 <= k < |p| => p[k].time)
  }

  /** `seizure_duration` of hour `h`: the duration cell of the last seizure
      of that hour, copied even when it is missing, or 0 when the hour has
      no seizure. */
  function LastDuration(s: seq<Grid.SeizureRecord>, h: int): (d: Option<real>)
    ensures !Grid.AnyInHour(s, h) ==> d == Some(0.0)
    ensures Grid.AnyInHour(s, h) ==>
      exists k :: 0 <= k < |s| && Clock.FloorHour(s[k].time) == h && d == s[k].duration &&
        forall m :: k < m < |s| ==> Clock.FloorHour(s[m].time) != h
  {
    if |s| == 0 then Some(0.0)
    else if Clock.FloorHour(s[|s| - 1].time) == h then s[|s| - 1].duration
    else
      var d := LastDuration(s[..|s| - 1], h);
      assert Grid.AnyInHour(s, h) == Grid.AnyInHour(s[..|s| - 1], h);
      d
  }

  /** The seizure flag loop: every row of a seizure's hour is set. */
  method MarkSeizures(times: seq<int>, seizures: seq<Grid.SeizureRecord>) returns (flag: seq<bool>)
    ensures |flag| == |times|
    ensures forall k :: 0 <= k < |times| ==> flag[k] == Grid.AnyInHour(seizures, times[k])
  {
    flag := seq(|times|, k => false);
    for j := 0 to |seizures|
      invariant |flag| == |times|
      invariant forall k :: 0 <= k < |times| ==> flag[k] == Grid.AnyInHour(seizures[..j], times[k])
    {
      assert seizures[..j + 1][..j] == seizures[..j];
      var hour := Clock.FloorHour(seizures[j].time);
      flag := seq(|flag|, k requires 0 <= k < |flag| => if times[k] == hour then true else flag[k]);
    }
    assert seizures[..|seizures|] == seizures;
  }

  /** The duration loop: every row of a seizure's hour takes its duration
      cell, missing or not. */
  method MarkDurations(times: seq<int>, seizures: seq<Grid.SeizureRecord>) returns (duration: seq<Option<real>>)
    ensures |duration| == |times|
    ensures forall k :: 0 <= k < |times| ==> duration[k] == LastDuration(seizures, times[k])
  {
    duration := seq(|times|, k => Some(0.0));
    for j := 0 to |seizures|
      invariant |duration| == |times|
      invariant forall k :: 0 <= k < |times| ==> duration[k] == LastDuration(seizures[..j], times[k])
    {
      assert seizures[..j + 1][..j] == seizures[..j];
      var hour := Clock.FloorHour(seizures[j].time);
      var d := seizures[j].duration;
      duration := seq(|duration|, k requires 0 <= k < |duration| => if times[k] == hour then d else duration[k]);
    }
    assert seizures[..|seizures|] == seizures;
  }

  /** Where every seizure of the hour has a duration, this builder and the
      production one agree on the hour's duration. */
  lemma DurationsAgree(s: seq<Grid.SeizureRecord>, h: int)
    requires forall k :: 0 <= k < |s| && Clock.FloorHour(s[k].time) == h ==> s[k].duration.Some?
    ensures LastDuration(s, h) == Some(Forecaster.HourDuration(s, h))
  {
    if Grid.AnyInHour(s, h) {
      var k :| 0 <= k < |s| && Clock.FloorHour(s[k].time) == h && LastDuration(s, h) == s[k].duration &&
        forall m :: k < m < |s| ==> Clock.FloorHour(s[m].time) != h;
      Forecaster.HourDurationLastWins(s, h, k);
    } else {
      assert Forecaster.HourDuration(s, h) == 0.0;
    }
  }

  /** Where the hour's last seizure has no duration, this builder leaves the
      hour missing while the production one keeps an earlier duration. */
  lemma LastMissingDurationDiffers(t: int, d: real)
    ensures var s := [Grid.SeizureRecord(t, Some(d), None, None, None), Grid.SeizureRecord(t, None, None, None, None)];
      LastDuration(s, Clock.FloorHour(t)) == None && Forecaster.HourDuration(s, Clock.FloorHour(t)) == d
  {
    var s := [Grid.SeizureRecord(t, Some(d), None, None, None), Grid.SeizureRecord(t, None, None, None, None)];
    assert s[..1] == [s[0]];
    assert s[..1][..0] == [];
  }

  /** A row of the hourly dataset. */
  datatype HourRow = HourRow(time: int, seizure: bool, duration: Option<real>, pain: Option<real>)

  /** `create_hourly_dataset`: the span of the three tables (seizures,
      watch, pain), the hourly grid, the seizure flag and duration, the pain
      merge and its 24-row forward fill. `None` when the seizure table is
      empty, where the span is NaT and the grid cannot be built. */
  method CreateHourlyDataset(seizures: seq<Grid.SeizureRecord>, watch: seq<WatchRecord>, pain: seq<Grid.PainRecord>)
    returns (r: Option<seq<HourRow>>)
    ensures r.None? <==> |seizures| == 0
    ensures r.Some? ==>
      var span := Grid.Span(Grid.TimeExtent(SeizureTimes(seizures)), Grid.TimeExtent(WatchTimes(watch)), Grid.TimeExtent(PainTimes(pain))).value;
      var merged := Grid.MergeLeft(Grid.HourlyIndex(span.0, span.1), pain);
      |r.value| == |merged| &&
      forall k :: 0 <= k < |merged| ==>
        r.value[k] == HourRow(merged[k].time, Grid.AnyInHour(seizures, merged[k].time),
                              LastDuration(seizures, merged[k].time), FFill(Grid.PainColumn(merged), 24)[k])
  {
    var span := Grid.Span(Grid.TimeExtent(SeizureTimes(seizures)), Grid.TimeExtent(WatchTimes(watch)), Grid.TimeExtent(PainTimes(pain)));
    if span.None? {
      return None;
    }
    var grid := Grid.HourlyIndex(span.value.0, span.value.1);
    var flag := MarkSeizures(grid, seizures);
    var duration := MarkDurations(grid, seizures);
    var merged := Grid.MergeLeft(grid, pain);
    var rows := JoinColumns(grid, merged, flag, duration, FFill(Grid.PainColumn(merged), 24), seizures);
    r := Some(rows);
  }

  /** One row per merged row, its flag and duration looked up by its hour
      on the grid. */
  method JoinColumns(grid: seq<int>, merged: seq<Grid.PainRow>, flag: seq<bool>, duration: seq<Option<real>>,
                     filled: seq<Option<real>>, seizures: seq<Grid.SeizureRecord>)
    returns (rows: seq<HourRow>)
    requires |flag| == |grid| && |duration| == |grid| && |filled| == |merged|
    requires forall k :: 0 <= k < |merged| ==> merged[k].time in grid
    requires forall g :: 0 <= g < |grid| ==> flag[g] == Grid.AnyInHour(seizures, grid[g])
    requires forall g :: 0 <= g < |grid| ==> duration[g] == LastDuration(seizures, grid[g])
    ensures |rows| == |merged|
    ensures forall k :: 0 <= k < |merged| ==>
      rows[k] == HourRow(merged[k].time, Grid.AnyInHour(seizures, merged[k].time),
                         LastDuration(seizures, merged[k].time), filled[k])
  {
    rows := [];
    for k := 0 to |merged|
      invariant |rows| == k
      invariant forall m :: 0 <= m < k ==>
        rows[m] == HourRow(merged[m].time, Grid.AnyInHour(seizures, merged[m].time),
                           LastDuration(seizures, merged[m].time), filled[m])
    {
      var g := Locate(grid, merged[k].time);
      rows := rows + [HourRow(merged[k].time, flag[g], duration[g], filled[k])];
    }
  }

  /** The position of an hour on the grid, as the merge's key lookup finds it. */
  method Locate(grid: seq<int>, t: int) returns (g: nat)
    requires t in grid
    ensures g < |grid| && grid[g] == t
  {
    g := 0;
    while grid[g] != t
      invariant g < |grid| && t in grid[g..]
      decreases |grid| - g
    {
      g := g + 1;
    }
  }

  /** The grid starts at the floored earliest seizure and ends at the ceiled
      latest seizure when the other two tables lie inside the seizures'
      span. */
  lemma SpanOfSeizures(seizures: seq<Grid.SeizureRecord>, watch: seq<WatchRecord>, pain: seq<Grid.PainRecord>)
    requires |seizures| > 0
    requires forall k :: 0 <= k < |watch| ==> Grid.TimeExtent(SeizureTimes(seizures)).value.0 <= watch[k].time <= Grid.TimeExtent(SeizureTimes(seizures)).value.1
    requires forall k :: 0 <= k < |pain| ==> Grid.TimeExtent(SeizureTimes(seizures)).value.0 <= pain[k].time <= Grid.TimeExtent(SeizureTimes(seizures)).value.1
    ensures Grid.Span(Grid.TimeExtent(SeizureTimes(seizures)), Grid.TimeExtent(WatchTimes(watch)), Grid.TimeExtent(PainTimes(pain))) ==
      Grid.TimeExtent(SeizureTimes(seizures))
  {
    var e := Grid.TimeExtent(SeizureTimes(seizures));
    var w := Grid.TimeExtent(WatchTimes(watch));
    var p := Grid.TimeExtent(PainTimes(pain));
    if w.Some? {
      var i :| 0 <= i < |watch| && WatchTimes(watch)[i] == w.value.0;
      var j :| 0 <= j < |watch| && WatchTimes(watch)[j] == w.value.1;
    }
    if p.Some? {
      var i :| 0 <= i < |pain| && PainTimes(pain)[i] == p.value.0;
      var j :| 0 <= j < |pain| && PainTimes(pain)[j] == p.value.1;
    }
  }

  // ---------------------------------------------------------------------------
  // Forecast-history features

  function Dist(a: int, b: int): nat
  {
    if a >= b then a - b else b - a
  }

  /** `(times - t).abs().argmin()`: the row nearest to `t`, the first one
      on ties. */
  function Closest(times: seq<int>, t: int): (k: nat)
    requires |times| > 0
    ensures k < |times|
    ensures forall j :: 0 <= j < |times| ==> Dist(times[k], t) <= Dist(times[j], t)
    ensures forall j :: 0 <= j < k ==> Dist(times[j], t) > Dist(times[k], t)
  {
    if |times| == 1 then 0
    else
      var init := times[..|times| - 1];
      var k := Closest(init, t);
      assert forall j :: 0 <= j < |init| ==> init[j] == times[j];
      if Dist(times[|times| - 1], t) < Dist(times[k], t) then |times| - 1 else k
  }

  /** On the hourly grid every time inside the span is at most half an hour
      from the row it is placed on. */
  lemma ClosestWithinHalfHour(lo: int, hi: int, t: int)
    requires lo <= t <= hi
    ensures Dist(Grid.HourlyIndex(lo, hi)[Closest(Grid.HourlyIndex(lo, hi), t)], t) <= Clock.SecondsPerHour / 2
  {
    var g := Grid.HourlyIndex(lo, hi);
    Grid.HourlyIndexCovers(lo, hi, t);
    var k := (Clock.FloorHour(t) - Clock.FloorHour(lo)) / Clock.SecondsPerHour;
    if t - Clock.FloorHour(t) > Clock.SecondsPerHour / 2 {
      assert Clock.FloorHour(t) < t;
      assert Clock.CeilHour(t) == Clock.FloorHour(t) + Clock.SecondsPerHour;
      assert Clock.CeilHour(t) <= Clock.CeilHour(hi);
      assert k + 1 < |g|;
      assert Dist(g[k + 1], t) <= Clock.SecondsPerHour / 2;
    } else {
      assert Dist(g[k], t) <= Clock.SecondsPerHour / 2;
    }
  }

  /** Column `c` of a feature row; missing when the row has no such column. */
  function ValueOf(p: Feedback.FeatureRow, c: nat): Option<real>
  {
    if c < |p.values| then p.values[c] else None
  }

  /** Cell `(k, c)` after the placement loop: the present value of column
      `c` of the last forecast placed on row `k`, or missing. */
  function Placed(times: seq<int>, preds: seq<Feedback.FeatureRow>, c: nat, k: nat): (v: Option<real>)
    ensures v.Some? ==>
      |times| > 0 &&
      exists j :: 0 <= j < |preds| && Closest(times, preds[j].time) == k && ValueOf(preds[j], c) == v
    ensures v.None? && |times| > 0 ==>
      forall j :: 0 <= j < |preds| && Closest(times, preds[j].time) == k ==> ValueOf(preds[j], c).None?
  {
    if |preds| == 0 then None
    else
      var p := preds[|preds| - 1];
      if |times| > 0 && Closest(times, p.time) == k && ValueOf(p, c).Some? then ValueOf(p, c)
      else
        var v := Placed(times, preds[..|preds| - 1], c, k);
        assert forall j :: 0 <= j < |preds| - 1 ==> preds[..|preds| - 1][j] == preds[j];
        v
  }

  /** A later forecast placed on the same row with a value overwrites the
      earlier ones. */
  lemma {:induction false} PlacedLastWins(times: seq<int>, preds: seq<Feedback.FeatureRow>, c: nat, j: nat)
    requires |times| > 0 && j < |preds| && ValueOf(preds[j], c).Some?
    requires forall m :: j < m < |preds| && Closest(times, preds[m].time) == Closest(times, preds[j].time) ==>
      ValueOf(preds[m], c).None?
    ensures Placed(times, preds, c, Closest(times, preds[j].time)) == ValueOf(preds[j], c)
  {
    if j < |preds| - 1 {
      PlacedLastWins(times, preds[..|preds| - 1], c, j);
    }
  }

  /** The placement loop: each forecast's present values go to its nearest
      row, later forecasts overwriting earlier ones. */
  method PlaceFeedback(times: seq<int>, preds: seq<Feedback.FeatureRow>) returns (cols: seq<seq<Option<real>>>)
    ensures |cols| == Feedback.FeatureCount
    ensures forall c :: 0 <= c < |cols| ==> |cols[c]| == |times|
    ensures forall c, k :: 0 <= c < |cols| && 0 <= k < |times| ==> cols[c][k] == Placed(times, preds, c, k)
  {
    cols := seq(Feedback.FeatureCount, c => seq(|times|, k => None));
    for j := 0 to |preds|
      invariant |cols| == Feedback.FeatureCount
      invariant forall c :: 0 <= c < |cols| ==> |cols[c]| == |times|
      invariant forall c, k :: 0 <= c < |cols| && 0 <= k < |times| ==> cols[c][k] == Placed(times, preds[..j], c, k)
    {
      assert preds[..j + 1][..j] == preds[..j];
      if |times| > 0 {
        var closestIdx := Closest(times, preds[j].time);
        for c := 0 to Feedback.FeatureCount
          invariant |cols| == Feedback.FeatureCount
          invariant forall c' :: 0 <= c' < |cols| ==> |cols[c']| == |times|
          invariant forall c', k :: 0 <= c' < c && 0 <= k < |times| ==> cols[c'][k] == Placed(times, preds[..j + 1], c', k)
          invariant forall c', k :: c <= c' < |cols| && 0 <= k < |times| ==> cols[c'][k] == Placed(times, preds[..j], c', k)
        {
          var v := ValueOf(preds[j], c);
          if v.Some? {
            cols := cols[c := cols[c][closestIdx := v]];
          }
        }
      }
    }
    assert preds[..|preds|] == preds;
  }

  /** The columns forward-filled after placement: the 7-day means and
      spreads of the 24- and 48-hour forecasts. */
  predicate Filled(c: nat)
  {
    c == Feedback.Avg24 || c == Feedback.Std24 || c == Feedback.Avg48 || c == Feedback.Std48
  }

  /** `_add_prediction_feedback_features`: no columns when there is no
      forecast; otherwise the placed columns, four of them forward-filled
      over at most 24 rows. */
  method AddPredictionFeedbackFeatures(times: seq<int>, preds: seq<Feedback.FeatureRow>)
    returns (r: Option<seq<seq<Option<real>>>>)
    ensures r.None? <==> |preds| == 0
    ensures r.Some? ==> |r.value| == Feedback.FeatureCount
    ensures r.Some? ==> forall c :: 0 <= c < |r.value| ==>
      r.value[c] == var placed := seq(|times|, k requires 0 <= k < |times| => Placed(times, preds, c, k));
        if Filled(c) then FFill(placed, 24) else placed
  {
    if |preds| == 0 {
      return None;
    }
    var cols := PlaceFeedback(times, preds);
    for c := 0 to Feedback.FeatureCount
      invariant |cols| == Feedback.FeatureCount
      invariant forall c' :: 0 <= c' < |cols| ==> |cols[c']| == |times|
      invariant forall c' :: 0 <= c' < c ==>
        cols[c'] == var placed := seq(|times|, k requires 0 <= k < |times| => Placed(times, preds, c', k));
          if Filled(c') then FFill(placed, 24) else placed
      invariant forall c', k :: c <= c' < |cols| && 0 <= k < |times| ==> cols[c'][k] == Placed(times, preds, c', k)
    {
      assert cols[c] == seq(|times|, k requires 0 <= k < |times| => Placed(times, preds, c, k));
      if Filled(c) {
        cols := cols[c := FFill(cols[c], 24)];
      }
    }
    r := Some(cols);
  }
}
