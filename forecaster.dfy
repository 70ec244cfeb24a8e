/** The production forecasting pipeline: the hourly frame (pain merged with
    its report age and a 24-row forward fill, seizures mapped to their hour),
    the contextual features and strictly-future targets, median imputation,
    and the 72-hour prediction reduced to one maximum per horizon. */
module Forecaster {
  import opened Seqs
  import Clock
  import Grid
  import FE = FeatureEngineering
  import Outputs

  // ---------------------------------------------------------------------------
  // The hourly grid

  /** The grid of `load_and_harmonize`: the span lists the watch table
      first, then pain, then seizures, so the grid exists exactly when the
      watch table is not empty. It then runs in one-hour steps from the
      floored earliest timestamp of the three tables to the ceiled latest
      one, so it covers every row. */
  function HarmonizedGrid(watch: seq<int>, pain: seq<int>, seizures: seq<int>): (g: Option<seq<int>>)
    ensures g.None? <==> |watch| == 0
    ensures g.Some? ==>
      |g.value| > 0 &&
      forall t :: t in watch || t in pain || t in seizures ==> g.value[0] <= t <= g.value[|g.value| - 1]
    ensures g.Some? ==> forall k :: 0 <= k < |g.value| ==> g.value[k] == g.value[0] + k * Clock.SecondsPerHour
    ensures g.Some? ==> exists t :: (t in watch || t in pain || t in seizures) && g.value[0] == Clock.FloorHour(t)
    ensures g.Some? ==>
      exists t :: (t in watch || t in pain || t in seizures) && g.value[|g.value| - 1] == Clock.CeilHour(t)
  {
    var ew, ep, es := Grid.TimeExtent(watch), Grid.TimeExtent(pain), Grid.TimeExtent(seizures);
    var span := Grid.Span(ew, ep, es);
    if span.None? then None
    else
      var g := Grid.HourlyIndex(span.value.0, span.value.1);
      assert forall e :: e in [ew, ep, es] && e.Some? ==>
        span.value.0 <= e.value.0 && e.value.1 <= span.value.1;
      var lo :| lo in [ew, ep, es] && Some(span.value.0) == Grid.Lo(lo);
      var hi :| hi in [ew, ep, es] && Some(span.value.1) == Grid.Hi(hi);
      assert span.value.0 in watch || span.value.0 in pain || span.value.0 in seizures;
      assert span.value.1 in watch || span.value.1 in pain || span.value.1 in seizures;
      Some(g)
  }

  // ---------------------------------------------------------------------------
  // Pain merge

  predicate HasPain(r: Grid.PainRow)
  {
    r.pain.Some?
  }

  /** Row `j` is the latest row before row `i` that has pain. */
  predicate LatestPainBefore(rows: seq<Grid.PainRow>, i: nat, j: nat)
    requires i < |rows|
  {
    j < i && rows[j].pain.Some? && forall k :: j < k < i ==> rows[k].pain.None?
  }

  /** Hours from `t0` to `t1`. */
  function HoursBetween(t0: int, t1: int): real
  {
    (t1 - t0) as real / 3600.0
  }

  /** `Pain_Report_Age_Hours` on row `i`: 0 on a row with pain; otherwise the
      hours since the latest earlier row with pain when at most 24, and
      missing when over 24 or when no earlier row has pain. */
  function PainAge(rows: seq<Grid.PainRow>, i: nat): (a: Option<real>)
    requires i < |rows|
    ensures rows[i].pain.Some? ==> a == Some(0.0)
    ensures rows[i].pain.None? && a.Some? ==>
      exists j: nat :: (LatestPainBefore(rows, i, j) &&
        a.value == HoursBetween(rows[j].time, rows[i].time) && a.value <= 24.0)
    ensures rows[i].pain.None? && a.None? ==>
      forall j: nat :: LatestPainBefore(rows, i, j) ==> HoursBetween(rows[j].time, rows[i].time) > 24.0
  {
    if rows[i].pain.Some? then Some(0.0)
    else
      match LastIndexBefore(rows, HasPain, i)
      case None => NoPainBefore(rows, i); None
      case Some(j) =>
        LatestPainUnique(rows, i, j);
        var hours := HoursBetween(rows[j].time, rows[i].time);
        if hours <= 24.0 then Some(hours) else None
  }

  /** When the backward search finds nothing, no earlier row has pain. */
  lemma NoPainBefore(rows: seq<Grid.PainRow>, i: nat)
    requires i < |rows| && LastIndexBefore(rows, HasPain, i).None?
    ensures forall k: nat :: !LatestPainBefore(rows, i, k)
  {
    forall k: nat | k < i ensures rows[k].pain.None? {
      assert !HasPain(rows[k]);
    }
  }

  /** The latest earlier row with pain is the one the backward search finds. */
  lemma LatestPainUnique(rows: seq<Grid.PainRow>, i: nat, j: nat)
    requires i < |rows| && LastIndexBefore(rows, HasPain, i) == Some(j)
    ensures LatestPainBefore(rows, i, j)
    ensures forall k: nat :: LatestPainBefore(rows, i, k) ==> k == j
  {
  }

  /** The ages loop of `_merge_pain`, which tracks the time of the latest row
      with pain. */
  method PainAges(rows: seq<Grid.PainRow>) returns (ages: seq<Option<real>>)
    ensures |ages| == |rows|
    ensures forall i :: 0 <= i < |rows| ==> ages[i] == PainAge(rows, i)
  {
    ages := [];
    var last: Option<nat> := None;
    var idx := 0;
    while idx < |rows|
      invariant 0 <= idx <= |rows| && |ages| == idx
      invariant forall i :: 0 <= i < idx ==> ages[i] == PainAge(rows, i)
      invariant last == LastIndexBefore(rows, HasPain, idx)
      invariant last.Some? ==> last.value < |rows|
    {
      if rows[idx].pain.Some? {
        last := Some(idx);
        ages := ages + [Some(0.0)];
      } else if last.Some? {
        var hoursSince := HoursBetween(rows[last.value].time, rows[idx].time);
        ages := ages + [if hoursSince <= 24.0 then Some(hoursSince) else None];
      } else {
        ages := ages + [None];
      }
      idx := idx + 1;
    }
  }

  /** `_merge_pain`: the merge, the report ages (computed before the fill),
      then `ffill(limit=24)` on the pain column. */
  method MergePain(grid: seq<int>, pain: seq<Grid.PainRecord>)
    returns (rows: seq<Grid.PainRow>, ages: seq<Option<real>>, filled: seq<Option<real>>)
    ensures rows == Grid.MergeLeft(grid, pain)
    ensures |ages| == |rows| && forall i :: 0 <= i < |rows| ==> ages[i] == PainAge(rows, i)
    ensures filled == FFill(Grid.PainColumn(rows), 24)
  {
    rows := Grid.MergeLeft(grid, pain);
    ages := PainAges(rows);
    filled := FFill(Grid.PainColumn(rows), 24);
  }

  /** The latest row with pain is the latest present value of the column. */
  lemma {:induction false} LastPainIsLastPresent(rows: seq<Grid.PainRow>, i: nat)
    requires i <= |rows|
    ensures LastIndexBefore(rows, HasPain, i) == LastIndexBefore(Grid.PainColumn(rows), IsPresent, i)
  {
    if i > 0 {
      LastPainIsLastPresent(rows, i - 1);
    }
  }

  /** On an hourly frame with one row per hour, the age is known exactly
      when the forward fill gives the row a pain value: both reach back at
      most 24 rows. */
  lemma AgeAgreesWithFill(rows: seq<Grid.PainRow>, base: int, i: nat)
    requires i < |rows|
    requires forall k :: 0 <= k < |rows| ==> rows[k].time == base + k * Clock.SecondsPerHour
    ensures PainAge(rows, i).Some? <==> FFill(Grid.PainColumn(rows), 24)[i].Some?
  {
    var col := Grid.PainColumn(rows);
    LastPainIsLastPresent(rows, i);
    if rows[i].pain.Some? {
      FFillSpec(col, 24, i);
    } else {
      assert !IsPresent(col[i]);
      assert LastIndexBefore(col, IsPresent, i + 1) == LastIndexBefore(col, IsPresent, i);
      match LastIndexBefore(rows, HasPain, i)
      case None =>
      case Some(j) =>
        assert rows[i].time - rows[j].time == (i - j) * Clock.SecondsPerHour;
        assert (rows[i].time - rows[j].time) as real / 3600.0 == (i - j) as real;
        assert IsPresent(col[j]);
    }
  }

  // ---------------------------------------------------------------------------
  // Seizure merge

  /** `seizure_duration` of hour `h`: the duration of the last seizure of that
      hour that has one, or 0. */
  function HourDuration(s: seq<Grid.SeizureRecord>, h: int): (d: real)
    ensures d == 0.0 || exists k :: 0 <= k < |s| && Clock.FloorHour(s[k].time) == h && s[k].duration == Some(d)
  {
    if |s| == 0 then 0.0
    else
      var last := s[|s| - 1];
      if Clock.FloorHour(last.time) == h && last.duration.Some? then last.duration.value
      else HourDuration(s[..|s| - 1], h)
  }

  /** A later seizure of the same hour with a duration wins over every
      earlier one. */
  lemma {:induction false} HourDurationLastWins(s: seq<Grid.SeizureRecord>, h: int, k: nat)
    requires k < |s| && Clock.FloorHour(s[k].time) == h && s[k].duration.Some?
    requires forall m :: k < m < |s| && Clock.FloorHour(s[m].time) == h ==> s[m].duration.None?
    ensures HourDuration(s, h) == s[k].duration.value
  {
    if k < |s| - 1 {
      HourDurationLastWins(s[..|s| - 1], h, k);
    }
  }

  /** `_merge_seizures`: for each seizure in table order, flag every row of
      its hour and, when its duration is present, overwrite the rows'
      duration. */
  method MergeSeizures(times: seq<int>, seizures: seq<Grid.SeizureRecord>)
    returns (flag: seq<bool>, duration: seq<real>)
    ensures |flag| == |times| && |duration| == |times|
    ensures forall k :: 0 <= k < |times| ==> flag[k] == Grid.AnyInHour(seizures, times[k])
    ensures forall k :: 0 <= k < |times| ==> duration[k] == HourDuration(seizures, times[k])
  {
    flag := seq(|times|, k => false);
    duration := seq(|times|, k => 0.0);
    for j := 0 to |seizures|
      invariant |flag| == |times| && |duration| == |times|
      invariant forall k :: 0 <= k < |times| ==> flag[k] == Grid.AnyInHour(seizures[..j], times[k])
      invariant forall k :: 0 <= k < |times| ==> duration[k] == HourDuration(seizures[..j], times[k])
    {
      assert seizures[..j + 1][..j] == seizures[..j];
      var hour := Clock.FloorHour(seizures[j].time);
      flag := seq(|flag|, k requires 0 <= k < |flag| => if times[k] == hour then true else flag[k]);
      if seizures[j].duration.Some? {
        var d := seizures[j].duration.value;
        duration := seq(|duration|, k requires 0 <= k < |duration| => if times[k] == hour then d else duration[k]);
      }
    }
    assert seizures[..|seizures|] == seizures;
  }

  // ---------------------------------------------------------------------------
  // Contextual features and targets

  /** `_create_contextual_features`: the hours since the last seizure (the
      same loop as the feature engineer's) and the seizure count of each
      trailing window of 24, 48, 72 and 168 rows. */
  method ContextualFeatures(s: seq<bool>) returns (hoursSince: seq<int>, counts: seq<seq<nat>>)
    ensures |hoursSince| == |s| && forall i :: 0 <= i < |s| ==> hoursSince[i] == FE.SinceLast(s, i)
    ensures |counts| == |FE.HistoryWindows|
    ensures forall w :: 0 <= w < |counts| ==> |counts[w]| == |s|
    ensures forall w, i :: 0 <= w < |counts| && 0 <= i < |s| ==> counts[w][i] == FE.RollingCount(s, FE.HistoryWindows[w], i)
  {
    hoursSince := FE.HoursSinceLastSeizure(s);
    counts := [];
    for w := 0 to |FE.HistoryWindows|
      invariant |counts| == w
      invariant forall v :: 0 <= v < w ==> |counts[v]| == |s|
      invariant forall v, i :: 0 <= v < w && 0 <= i < |s| ==> counts[v][i] == FE.RollingCount(s, FE.HistoryWindows[v], i)
    {
      var window := FE.HistoryWindows[w];
      counts := counts + [seq(|s|, i requires 0 <= i < |s| => FE.RollingCount(s, window, i))];
    }
  }

  /** A seizure in rows `i + 1 .. i + n`: strictly after row `i`. */
  predicate FutureSeizure(s: seq<bool>, n: nat, i: nat)
  {
    exists j :: i < j <= i + n && j < |s| && s[j]
  }

  /** `Y_n` on row `i`, from the sum over `iloc[i+1 : i+n+1]` (0 on the last row). */
  function FutureTarget(s: seq<bool>, n: nat, i: nat): (y: int)
    requires i < |s|
    ensures y == 0 || y == 1
    ensures y == 1 <==> FutureSeizure(s, n, i)
  {
    if i + 1 < |s| then
      var window := s[i + 1..if i + n + 1 < |s| then i + n + 1 else |s|];
      CountPositiveIff(window, FE.Holds);
      if CountWhere(window, FE.Holds) > 0 then
        assert exists k :: 0 <= k < |window| && window[k];
        1
      else
        assert forall j :: i < j <= i + n && j < |s| ==> !s[j] by {
          forall j | i < j <= i + n && j < |s| ensures !s[j] {
            assert window[j - i - 1] == s[j];
          }
        }
        0
    else 0
  }

  /** A longer horizon never has a lower target: `Y_24 <= Y_48 <= Y_72`. */
  lemma FutureTargetMonotone(s: seq<bool>, n1: nat, n2: nat, i: nat)
    requires i < |s| && n1 <= n2
    ensures FutureTarget(s, n1, i) <= FutureTarget(s, n2, i)
  {
  }

  /** The last row has no future, so all its targets are 0. */
  lemma LastRowTargetZero(s: seq<bool>, n: nat)
    requires |s| > 0
    ensures FutureTarget(s, n, |s| - 1) == 0
  {
  }

  /** Unlike the training targets of the feature engineer, these leave the
      current row out: `Y_n` on row `i` is that target on row `i + 1`. */
  lemma FutureTargetShifted(s: seq<bool>, n: nat, i: nat)
    requires i < |s|
    ensures FutureSeizure(s, n, i) <==> FE.SeizureWithin(s, n, i + 1)
  {
    if FutureSeizure(s, n, i) {
      var j :| i < j <= i + n && j < |s| && s[j];
      assert i + 1 <= j < i + 1 + n;
    }
  }

  /** `_create_target_variables`. */
  method CreateTargets(s: seq<bool>) returns (y24: seq<int>, y48: seq<int>, y72: seq<int>)
    ensures |y24| == |y48| == |y72| == |s|
    ensures forall i :: 0 <= i < |s| ==> y24[i] == FutureTarget(s, 24, i)
    ensures forall i :: 0 <= i < |s| ==> y48[i] == FutureTarget(s, 48, i)
    ensures forall i :: 0 <= i < |s| ==> y72[i] == FutureTarget(s, 72, i)
  {
    y24, y48, y72 := [], [], [];
    for i := 0 to |s|
      invariant |y24| == |y48| == |y72| == i
      invariant forall k :: 0 <= k < i ==> y24[k] == FutureTarget(s, 24, k)
      invariant forall k :: 0 <= k < i ==> y48[k] == FutureTarget(s, 48, k)
      invariant forall k :: 0 <= k < i ==> y72[k] == FutureTarget(s, 72, k)
    {
      y24 := y24 + [FutureTarget(s, 24, i)];
      y48 := y48 + [FutureTarget(s, 48, i)];
      y72 := y72 + [FutureTarget(s, 72, i)];
    }
  }

  // ---------------------------------------------------------------------------
  // Imputation

  /** A column of the frame; `numeric` is whether `select_dtypes(number)` picks it. */
  datatype Column = Column(name: string, numeric: bool, values: seq<Option<real>>)

  /** The seizure and target columns, which imputation skips. */
  const Protected: seq<string> := ["seizure", "seizure_duration", "Y_24", "Y_48", "Y_72"]

  /** The value missing cells of a column get: the median of its present
      values, or 0 when it has none. */
  function FillValue(values: seq<Option<real>>): real
  {
    var p := Present(values);
    if |p| == 0 then 0.0 else Median(p)
  }

  /** A column after imputation. */
  function Imputed(c: Column): (r: Column)
    ensures r.name == c.name && r.numeric == c.numeric && |r.values| == |c.values|
  {
    if c.numeric && c.name !in Protected && exists k :: 0 <= k < |c.values| && c.values[k].None? then
      var v := FillValue(c.values);
      Column(c.name, c.numeric, seq(|c.values|, k requires 0 <= k < |c.values| =>
        if c.values[k].None? then Some(v) else c.values[k]))
    else c
  }

  /** Imputation leaves the seizure columns, the targets and non-numeric
      columns untouched, never changes a present value, and leaves no
      missing value in any other numeric column. */
  lemma ImputedSpec(c: Column, k: nat)
    requires k < |c.values|
    ensures !c.numeric || c.name in Protected ==> Imputed(c) == c
    ensures c.values[k].Some? ==> Imputed(c).values[k] == c.values[k]
    ensures c.numeric && c.name !in Protected ==> Imputed(c).values[k].Some?
    ensures c.numeric && c.name !in Protected && c.values[k].None? ==> Imputed(c).values[k] == Some(FillValue(c.values))
  {
  }

  /** The filling value of a column with present values lies between their
      minimum and maximum. */
  lemma FillValueBetween(values: seq<Option<real>>)
    requires exists k :: 0 <= k < |values| && values[k].Some?
    ensures MinOpt(values).Some? && MinOpt(values).value <= FillValue(values) <= MaxOpt(values).value
  {
    var p := Present(values);
    var k :| 0 <= k < |values| && values[k].Some?;
    assert values[k].value in p;
    MedianBetween(p);
  }

  /** `_impute_missing_values`: the column loop. */
  method ImputeMissingValues(cols: seq<Column>) returns (out: seq<Column>)
    ensures |out| == |cols|
    ensures forall i :: 0 <= i < |cols| ==> out[i] == Imputed(cols[i])
  {
    out := [];
    for i := 0 to |cols|
      invariant |out| == i
      invariant forall k :: 0 <= k < i ==> out[k] == Imputed(cols[k])
    {
      var col := cols[i];
      if col.numeric && col.name !in Protected && exists k :: 0 <= k < |col.values| && col.values[k].None? {
        var medianVal := FillValue(col.values);
        col := Column(col.name, col.numeric, seq(|col.values|, k requires 0 <= k < |col.values| =>
          if col.values[k].None? then Some(medianVal) else col.values[k]));
      }
      out := out + [col];
    }
  }

  // ---------------------------------------------------------------------------
  // Prediction

  /** The features a model sees: the time features the loop rewrites, the
      hours since the last seizure (absent when the column is not a
      feature), and the other features of the template row, copied. */
  datatype Features = Features(hour: int, dayOfWeek: int, isWeekend: int, hoursSince: Option<real>, rest: seq<real>)

  /** A scaled model: the probability of its positive class for one row. */
  type Model = Features -> real

  /** The row for the `i`-th future hour `tRun + (i + 1) hours`: the template
      with its time features replaced and `i + 1` added to the hours since
      the last seizure (the template is copied afresh each hour). */
  function FutureRow(template: Features, tRun: int, i: nat): (f: Features)
    ensures f.hour == Clock.HourOf(tRun + (i + 1) * Clock.SecondsPerHour)
    ensures f.dayOfWeek == Clock.Weekday(tRun + (i + 1) * Clock.SecondsPerHour)
    ensures f.isWeekend == FE.IsWeekend(tRun + (i + 1) * Clock.SecondsPerHour)
    ensures f.rest == template.rest
    ensures f.hoursSince.Some? <==> template.hoursSince.Some?
    ensures f.hoursSince.Some? ==> f.hoursSince.value == template.hoursSince.value + (i + 1) as real
  {
    var t := tRun + (i + 1) * Clock.SecondsPerHour;
    var w := Clock.Weekday(t);
    Features(Clock.HourOf(t), w, if w >= 5 then 1 else 0,
             match template.hoursSince case None => None case Some(h) => Some(h + (i + 1) as real),
             template.rest)
  }

  /** The 72 probabilities one model gives. */
  function Probabilities(m: Model, template: Features, tRun: int): (p: seq<real>)
    ensures |p| == 72 && forall i :: 0 <= i < 72 ==> p[i] == m(FutureRow(template, tRun, i))
  {
    seq(72, i requires 0 <= i < 72 => m(FutureRow(template, tRun, i)))
  }

  /** A row of the frame: its time and its feature values. */
  datatype FrameRow = FrameRow(time: int, features: Features)

  /** The template: the last row at or before `tRun` (`iloc[-1:]` of the
      filtered frame); none when no row qualifies. */
  function Template(rows: seq<FrameRow>, tRun: int): (t: Option<nat>)
    ensures t.Some? ==> t.value < |rows| && rows[t.value].time <= tRun
    ensures t.Some? ==> forall k :: t.value < k < |rows| ==> rows[k].time > tRun
    ensures t.None? ==> forall k :: 0 <= k < |rows| ==> rows[k].time > tRun
  {
    LastIndexBefore(rows, NotAfter(tRun), |rows|)
  }

  function NotAfter(tRun: int): FrameRow -> bool
  {
    (r: FrameRow) => r.time <= tRun
  }

  /** The run time: the given one, or the latest time of the frame. */
  function RunTime(rows: seq<FrameRow>, given: Option<int>): Option<int>
  {
    if given.Some? then given
    else if |rows| == 0 then None
    else Some(MaxInt(seq(|rows|, k requires 0 <= k < |rows| => rows[k].time)))
  }

  /** `SeizureForecaster.predict`: builds the 72 future rows, collects each
      model's probability per hour, and reports per horizon the maximum over
      the horizon's prefix of its own model's list, as a percentage. `None`
      when there is no template row, where scaling the empty frame raises. */
  method Predict(rows: seq<FrameRow>, given: Option<int>, m24: Model, m48: Model, m72: Model)
    returns (r: Option<Outputs.Horizons>)
    ensures r.None? <==> RunTime(rows, given).None? || Template(rows, RunTime(rows, given).value).None?
    ensures r.Some? ==>
      var tRun := RunTime(rows, given).value;
      var template := rows[Template(rows, tRun).value].features;
      && r.value.h24 == MaxOf(Probabilities(m24, template, tRun)[..24]) * 100.0
      && r.value.h48 == MaxOf(Probabilities(m48, template, tRun)[..48]) * 100.0
      && r.value.h72 == MaxOf(Probabilities(m72, template, tRun)) * 100.0
  {
    var run := RunTime(rows, given);
    if run.None? {
      return None;
    }
    var tRun := run.value;
    var idx := Template(rows, tRun);
    if idx.None? {
      return None;
    }
    var template := rows[idx.value].features;
    var predictions24, predictions48, predictions72 := Hourly(m24, m48, m72, template, tRun);
    r := Some(Outputs.Horizons(MaxOf(predictions24[..24]) * 100.0, MaxOf(predictions48[..48]) * 100.0,
                               MaxOf(predictions72) * 100.0));
  }

  /** The loop of `predict` over the 72 future hours. */
  method Hourly(m24: Model, m48: Model, m72: Model, template: Features, tRun: int)
    returns (predictions24: seq<real>, predictions48: seq<real>, predictions72: seq<real>)
    ensures predictions24 == Probabilities(m24, template, tRun)
    ensures predictions48 == Probabilities(m48, template, tRun)
    ensures predictions72 == Probabilities(m72, template, tRun)
  {
    predictions24, predictions48, predictions72 := [], [], [];
    for i := 0 to 72
      invariant |predictions24| == |predictions48| == |predictions72| == i
      invariant forall k :: 0 <= k < i ==> predictions24[k] == m24(FutureRow(template, tRun, k))
      invariant forall k :: 0 <= k < i ==> predictions48[k] == m48(FutureRow(template, tRun, k))
      invariant forall k :: 0 <= k < i ==> predictions72[k] == m72(FutureRow(template, tRun, k))
    {
      var features := FutureRow(template, tRun, i);
      predictions24 := predictions24 + [m24(features)];
      predictions48 := predictions48 + [m48(features)];
      predictions72 := predictions72 + [m72(features)];
    }
  }

  /** Within one model's list, a longer prefix has a larger maximum. */
  lemma {:induction false} PrefixMaxMonotone(p: seq<real>, a: nat, b: nat)
    requires 0 < a <= b <= |p|
    ensures MaxOf(p[..a]) <= MaxOf(p[..b])
  {
    var k :| 0 <= k < a && p[..a][k] == MaxOf(p[..a]);
    assert p[..b][k] == p[k];
  }

  /** The three horizons come from three different models, so the 24-hour
      figure can exceed the 48-hour one: one model certain of a seizure in
      every hour, the next certain of none. */
  lemma HorizonsCanInvert(template: Features, tRun: int)
    ensures var always := (f: Features) => 1.0; var never := (f: Features) => 0.0;
      MaxOf(Probabilities(always, template, tRun)[..24]) * 100.0 > MaxOf(Probabilities(never, template, tRun)[..48]) * 100.0
  {
    var always := (f: Features) => 1.0;
    var never := (f: Features) => 0.0;
    var p1 := Probabilities(always, template, tRun)[..24];
    var p0 := Probabilities(never, template, tRun)[..48];
    assert p1[0] == 1.0;
    assert forall k :: 0 <= k < |p0| ==> p0[k] == 0.0;
  }

  /** `write_outputs` for the percentages of one run. */
  method WriteOutputs(store: Outputs.Store, now: int, predictions: Outputs.Horizons)
    modifies store
    ensures store.text == Outputs.OutputLines(predictions)
    ensures store.log == Outputs.Entries(Outputs.Appended(old(store.log), now, predictions))
  {
    store.WriteOutputs(now, predictions);
  }
}
