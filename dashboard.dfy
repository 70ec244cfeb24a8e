/** The web dashboard's view of the seizure log (webpage/app.py): loading the
    table, the summary statistics and the chart data. Timestamps are naive
    local seconds (module Clock); a cell that pandas reads as NaN is `None`. */
module Dashboard {
  import opened Seqs
  import Clock

  // ---------------------------------------------------------------------------
  // Loading

  /** One line of the seizure CSV after `read_csv`: the parsed Date + Time
      (`None` when `to_datetime(..., errors='coerce')` gives NaT), the Duration
      cell, and the string forms (`astype(str)`) of the Eaten and Peiod cells. */
  datatype RawRow = RawRow(timestamp: Option<int>, duration: Option<real>, eaten: string, peiod: string)

  /** The column names the CSV header declares, and its lines. */
  datatype RawTable = RawTable(columns: set<string>, rows: seq<RawRow>)

  /** A loaded seizure: hour of day, weekday and date are derived from `time`. */
  datatype SeizureRow = SeizureRow(time: int, duration: Option<real>, foodEaten: bool, period: bool)

  /** Columns the loader indexes; a missing one raises KeyError inside the `try`. */
  const RequiredColumns: set<string> := {"Date", "Time", "Duration", "Eaten", "Peiod"}

  function AsciiLower(c: char): char
  {
    if 'A' <= c <= 'Z' then (c as int + 32) as char else c
  }

  /** `str.lower()` on ASCII letters. Python lowers other letters as well, but
      none of them lowers to a letter of "true", so the comparison with "true"
      is decided the same way. */
  function Lower(s: string): (r: string)
    ensures |r| == |s|
    ensures forall i :: 0 <= i < |s| ==> r[i] == AsciiLower(s[i])
  {
    seq(|s|, i requires 0 <= i < |s| => AsciiLower(s[i]))
  }

  /** Strict boolean parsing of a cell: its string form, lower-cased, is "true". */
  predicate IsTrueCell(cell: string)
  {
    Lower(cell) == "true"
  }

  /** Exactly the sixteen spellings of "true" in any letter case are accepted;
      "nan" (a missing cell), "Yes", "1" and everything else are false. */
  lemma IsTrueCellIff(cell: string)
    ensures IsTrueCell(cell) <==>
      |cell| == 4 && cell[0] in "tT" && cell[1] in "rR" && cell[2] in "uU" && cell[3] in "eE"
  {
    if |cell| == 4 {
      var l := Lower(cell);
      if cell[0] in "tT" && cell[1] in "rR" && cell[2] in "uU" && cell[3] in "eE" {
        assert l == "true";
      }
      if l == "true" {
        assert AsciiLower(cell[0]) == 't' && AsciiLower(cell[1]) == 'r';
        assert AsciiLower(cell[2]) == 'u' && AsciiLower(cell[3]) == 'e';
      }
    } else {
      assert |Lower(cell)| != |"true"|;
    }
  }

  function ToRow(r: RawRow): SeizureRow
    requires r.timestamp.Some?
  {
    SeizureRow(r.timestamp.value, r.duration, IsTrueCell(r.eaten), IsTrueCell(r.peiod))
  }

  predicate HasTimestamp(r: RawRow) { r.timestamp.Some? }

  /** The positions of the lines whose timestamp parsed: strictly
      increasing, and every such line has its position listed. */
  function KeptIndices(raw: seq<RawRow>): (idx: seq<nat>)
    ensures |idx| == CountWhere(raw, HasTimestamp)
    ensures forall k :: 0 <= k < |idx| ==> idx[k] < |raw| && raw[idx[k]].timestamp.Some?
    ensures forall k, l :: 0 <= k < l < |idx| ==> idx[k] < idx[l]
    ensures forall i :: 0 <= i < |raw| && raw[i].timestamp.Some? ==> i in idx
  {
    if |raw| == 0 then []
    else
      var front := raw[..|raw| - 1];
      var init := KeptIndices(front);
      var last := raw[|raw| - 1];
      assert raw == front + [last];
      assert forall i :: 0 <= i < |front| ==> raw[i] == front[i];
      if last.timestamp.Some? then init + [|raw| - 1] else init
  }

  /** The lines whose timestamp parsed, converted, in file order
      (`dropna(subset=['timestamp'])`): the k-th row is the line at the k-th
      kept position, so every such line appears once and the order is kept. */
  function Parsed(raw: seq<RawRow>): (rows: seq<SeizureRow>)
    ensures |rows| == |KeptIndices(raw)| == CountWhere(raw, HasTimestamp)
    ensures forall k :: 0 <= k < |rows| ==> rows[k] == ToRow(raw[KeptIndices(raw)[k]])
    ensures forall i :: 0 <= i < |raw| && raw[i].timestamp.Some? ==> ToRow(raw[i]) in rows
    ensures forall y :: y in rows ==> exists i :: 0 <= i < |raw| && raw[i].timestamp.Some? && ToRow(raw[i]) == y
  {
    if |raw| == 0 then []
    else
      var init := Parsed(raw[..|raw| - 1]);
      var last := raw[|raw| - 1];
      assert raw == raw[..|raw| - 1] + [last];
      if last.timestamp.Some? then init + [ToRow(last)] else init
  }

  function NegTime(r: SeizureRow): real { -(r.time as real) }

  function TimeKey(r: SeizureRow): real { r.time as real }

  ghost predicate Descending(rows: seq<SeizureRow>)
  {
    forall i, j :: 0 <= i < j < |rows| ==> rows[i].time >= rows[j].time
  }

  /** Most recent first, every row kept once (`sort_values(..., ascending=False)`). */
  function SortDescending(rows: seq<SeizureRow>): (r: seq<SeizureRow>)
    ensures multiset(r) == multiset(rows)
    ensures Descending(r)
  {
    var s := SortBy(rows, NegTime);
    assert forall i, j :: 0 <= i < j < |s| ==> NegTime(s[i]) <= NegTime(s[j]);
    s
  }

  /** `load_seizure_data`: a header lacking any indexed column raises inside the
      `try`, which returns an empty table; otherwise the rows with a parsed
      timestamp, most recent first. */
  function Load(t: RawTable): (rows: seq<SeizureRow>)
    ensures !(RequiredColumns <= t.columns) ==> rows == []
    ensures RequiredColumns <= t.columns ==> multiset(rows) == multiset(Parsed(t.rows))
    ensures Descending(rows)
  {
    if RequiredColumns <= t.columns then SortDescending(Parsed(t.rows)) else []
  }

  /** A loaded row's flags are the strict parses of its cells, and its timestamp is present. */
  lemma LoadRowOrigin(t: RawTable, y: SeizureRow)
    requires y in Load(t)
    ensures exists i :: (0 <= i < |t.rows| && t.rows[i].timestamp == Some(y.time) &&
      y.foodEaten == IsTrueCell(t.rows[i].eaten) && y.period == IsTrueCell(t.rows[i].peiod))
  {
    assert y in multiset(Load(t));
    assert y in Parsed(t.rows);
  }

  // ---------------------------------------------------------------------------
  // Columns derived from the table

  function RowTime(r: SeizureRow): int { r.time }
  function RowDuration(r: SeizureRow): Option<real> { r.duration }
  function RowDay(r: SeizureRow): int { Clock.DayOf(r.time) }
  function RowHour(r: SeizureRow): int { Clock.HourOf(r.time) }
  function RowWeekday(r: SeizureRow): int { Clock.Weekday(r.time) }

  function Times(rows: seq<SeizureRow>): (ts: seq<int>)
    ensures |ts| == |rows| && forall i :: 0 <= i < |rows| ==> ts[i] == rows[i].time
  {
    Project(rows, RowTime)
  }

  function Durations(rows: seq<SeizureRow>): (ds: seq<Option<real>>)
    ensures |ds| == |rows| && forall i :: 0 <= i < |rows| ==> ds[i] == rows[i].duration
  {
    Project(rows, RowDuration)
  }

  function Days(rows: seq<SeizureRow>): (ds: seq<int>)
    ensures |ds| == |rows| && forall i :: 0 <= i < |rows| ==> ds[i] == Clock.DayOf(rows[i].time)
  {
    Project(rows, RowDay)
  }

  function Hours(rows: seq<SeizureRow>): (hs: seq<int>)
    ensures |hs| == |rows| && forall i :: 0 <= i < |rows| ==> hs[i] == Clock.HourOf(rows[i].time)
  {
    Project(rows, RowHour)
  }

  function Weekdays(rows: seq<SeizureRow>): (ws: seq<int>)
    ensures |ws| == |rows| && forall i :: 0 <= i < |rows| ==> ws[i] == Clock.Weekday(rows[i].time)
  {
    Project(rows, RowWeekday)
  }

  predicate WithFood(r: SeizureRow) { r.foodEaten }
  predicate WithoutFood(r: SeizureRow) { !r.foodEaten }
  predicate OnPeriod(r: SeizureRow) { r.period }
  predicate OffPeriod(r: SeizureRow) { !r.period }

  /** `df[mask]['duration_seconds'].mean() if count > 0 else 0`: 0 for an empty
      partition, NaN (`None`) when none of its durations is present. */
  function PartitionMean(rows: seq<SeizureRow>, p: SeizureRow -> bool): Option<real>
  {
    if CountWhere(rows, p) > 0 then MeanOpt(Durations(Filter(rows, p))) else Some(0.0)
  }

  function RoundOpt(x: Option<real>): Option<real>
  {
    match x
    case None => None
    case Some(v) => Some(Round1(v))
  }

  // ---------------------------------------------------------------------------
  // calculate_statistics

  datatype Stats = Stats(
    total: nat, dateRangeDays: int, avgPerDay: real, avgPerWeek: real,
    avgDuration: Option<real>, minDuration: int, maxDuration: int,
    foodEatenCount: nat, noFoodCount: nat, periodCount: nat, nonPeriodCount: nat,
    periodAvgDuration: Option<real>, nonPeriodAvgDuration: Option<real>,
    recentSeizures: nat, firstDay: int, lastDay: int)

  /** `{}` for an empty table; a ValueError from `int(NaN)` when no duration is
      present; otherwise the statistics. */
  datatype StatsOutcome = NoStatistics | StatsRaise | Statistics(stats: Stats)

  const SecondsPerWeek: int := 7 * Clock.SecondsPerDay

  /** The test "at or after `now - 7 days`". */
  function IsRecent(now: int): SeizureRow -> bool
  {
    (r: SeizureRow) => r.time >= now - SecondsPerWeek
  }

  /** `len(df[df['timestamp'] >= now - timedelta(days=7)])`: the number of
      seizures at or after `now - 7 days`. */
  function RecentCount(rows: seq<SeizureRow>, now: int): (n: nat)
    ensures n == |set i | 0 <= i < |rows| && rows[i].time >= now - SecondsPerWeek|
    ensures n <= |rows|
  {
    RecentIsCard(rows, now);
    CountWhere(rows, IsRecent(now))
  }

  lemma RecentIsCard(rows: seq<SeizureRow>, now: int)
    ensures CountWhere(rows, IsRecent(now)) == |set i | 0 <= i < |rows| && rows[i].time >= now - SecondsPerWeek|
  {
    var p := IsRecent(now);
    CountIsCard(rows, p);
    var a := Positions(rows, p);
    var b := set i | 0 <= i < |rows| && rows[i].time >= now - SecondsPerWeek;
    forall i ensures i in a <==> i in b {
      if 0 <= i < |rows| {
        assert p(rows[i]) <==> rows[i].time >= now - SecondsPerWeek;
      }
    }
    assert a == b;
  }

  /** `(max - min).days + 1`, `timedelta.days` flooring the difference. */
  function DateRangeDays(rows: seq<SeizureRow>): (d: int)
    requires |rows| > 0
    ensures d >= 1
    ensures d == Clock.WholeDays(MinInt(Times(rows)), MaxInt(Times(rows))) + 1
  {
    var ts := Times(rows);
    Clock.WholeDays(MinInt(ts), MaxInt(ts)) + 1
  }

  /** Seizures per day over the date range. */
  function PerDay(rows: seq<SeizureRow>): (r: real)
    requires |rows| > 0
    ensures r * DateRangeDays(rows) as real == |rows| as real
  {
    |rows| as real / DateRangeDays(rows) as real
  }

  /** Some row has a duration, so pandas' `min()` and `max()` are not NaN. */
  predicate SomeDuration(rows: seq<SeizureRow>)
  {
    exists i :: 0 <= i < |rows| && rows[i].duration.Some?
  }

  /** A row that has a duration. */
  ghost function SomeDurationIndex(rows: seq<SeizureRow>): (i: nat)
    requires SomeDuration(rows)
    ensures i < |rows| && rows[i].duration.Some?
  {
    var i :| 0 <= i < |rows| && rows[i].duration.Some?; i
  }

  /** `calculate_statistics`: `{}` for an empty table, the ValueError of
      `int(NaN)` when no duration is present, otherwise the summary. */
  function CalculateStatistics(rows: seq<SeizureRow>, now: int): (r: StatsOutcome)
    ensures r.NoStatistics? <==> |rows| == 0
    ensures r.StatsRaise? <==> |rows| > 0 && forall i :: 0 <= i < |rows| ==> rows[i].duration.None?
    ensures r.Statistics? ==> r.stats == Summarize(rows, now)
  {
    if |rows| == 0 then NoStatistics
    else if !SomeDuration(rows) then StatsRaise
    else Statistics(Summarize(rows, now))
  }

  /** The summary of a non-empty table with some duration: the count, the
      span in days, the truncated extreme durations, the food and period
      partitions, the recent count and the first and last day. The per-day
      and per-week rates are rounded to two decimals; the lemmas below bound
      them and the average durations. */
  function Summarize(rows: seq<SeizureRow>, now: int): (s: Stats)
    requires |rows| > 0 && SomeDuration(rows)
    ensures s.total == |rows|
    ensures s.dateRangeDays == Clock.WholeDays(MinInt(Times(rows)), MaxInt(Times(rows))) + 1
    ensures s.avgPerDay == Round2(PerDay(rows)) && s.avgPerWeek == Round2(7.0 * PerDay(rows))
    ensures MinOpt(Durations(rows)).Some? && MaxOpt(Durations(rows)).Some?
    ensures s.minDuration == Trunc(MinOpt(Durations(rows)).value) && s.maxDuration == Trunc(MaxOpt(Durations(rows)).value)
    ensures s.foodEatenCount == CountWhere(rows, WithFood) && s.noFoodCount == CountWhere(rows, WithoutFood)
    ensures s.periodCount == CountWhere(rows, OnPeriod) && s.nonPeriodCount == CountWhere(rows, OffPeriod)
    ensures s.recentSeizures == |set i | 0 <= i < |rows| && rows[i].time >= now - SecondsPerWeek|
    ensures s.firstDay == Clock.DayOf(MinInt(Times(rows))) && s.lastDay == Clock.DayOf(MaxInt(Times(rows)))
  {
    assert Durations(rows)[SomeDurationIndex(rows)].Some?;
    var ds := Durations(rows);
    var ts := Times(rows);
    var n := |rows|;
    var days := DateRangeDays(rows);
    Stats(
      n, days, Round2(PerDay(rows)), Round2(7.0 * PerDay(rows)),
      RoundOpt(MeanOpt(ds)), Trunc(MinOpt(ds).value), Trunc(MaxOpt(ds).value),
      CountWhere(rows, WithFood), CountWhere(rows, WithoutFood),
      CountWhere(rows, OnPeriod), CountWhere(rows, OffPeriod),
      RoundOpt(PartitionMean(rows, OnPeriod)), RoundOpt(PartitionMean(rows, OffPeriod)),
      RecentCount(rows, now), Clock.DayOf(MinInt(ts)), Clock.DayOf(MaxInt(ts)))
  }

  lemma TruncMonotone(x: real, y: real)
    requires x <= y
    ensures Trunc(x) <= Trunc(y)
  {
  }

  /** The food partition and the period partition each add up to the total. */
  lemma StatisticsPartitions(rows: seq<SeizureRow>, now: int)
    requires |rows| > 0 && SomeDuration(rows)
    ensures var s := Summarize(rows, now);
      s.foodEatenCount + s.noFoodCount == s.total == |rows| && s.periodCount + s.nonPeriodCount == s.total
  {
    CountComplement(rows, WithFood, WithoutFood);
    CountComplement(rows, OnPeriod, OffPeriod);
  }

  /** The date range covers at least one day, the averages are the seizure
      count per day and per week of that range to within the rounding to two
      decimals, and at most every seizure is recent. */
  lemma StatisticsRates(rows: seq<SeizureRow>, now: int)
    requires |rows| > 0 && SomeDuration(rows)
    ensures var s := Summarize(rows, now);
      s.dateRangeDays >= 1 && s.recentSeizures <= s.total &&
      -0.005 <= s.avgPerDay - s.total as real / s.dateRangeDays as real <= 0.005 &&
      -0.005 <= s.avgPerWeek - 7.0 * (s.total as real / s.dateRangeDays as real) <= 0.005
  {
  }

  /** The first recorded day is not after the last one, and the truncated
      minimum duration is not above the truncated maximum. */
  lemma StatisticsExtremes(rows: seq<SeizureRow>, now: int)
    requires |rows| > 0 && SomeDuration(rows)
    ensures var s := Summarize(rows, now);
      s.firstDay <= s.lastDay && s.minDuration <= s.maxDuration
  {
    var ds := Durations(rows);
    var i :| 0 <= i < |rows| && rows[i].duration.Some?;
    assert ds[i].Some?;
    var lo, hi := MinOpt(ds), MaxOpt(ds);
    assert lo.value <= ds[i].value <= hi.value;
    TruncMonotone(lo.value, hi.value);
    var ts := Times(rows);
    assert MinInt(ts) <= ts[0] <= MaxInt(ts);
  }

  /** The average duration is the mean of the present durations rounded to
      one decimal, so it lies within 0.05 of the range of the durations; a
      non-empty period partition gets the rounded mean of its own durations,
      missing when none of them is present. */
  lemma StatisticsAverages(rows: seq<SeizureRow>, now: int)
    requires |rows| > 0 && SomeDuration(rows)
    ensures var s := Summarize(rows, now); var ds := Durations(rows);
      MeanOpt(ds).Some? && MinOpt(ds).Some? && MaxOpt(ds).Some? && s.avgDuration == Some(Round1(MeanOpt(ds).value)) &&
      MinOpt(ds).value - 0.05 <= s.avgDuration.value <= MaxOpt(ds).value + 0.05
    ensures var s := Summarize(rows, now);
      (s.periodCount > 0 ==> s.periodAvgDuration == RoundOpt(MeanOpt(Durations(Filter(rows, OnPeriod))))) &&
      (s.nonPeriodCount > 0 ==> s.nonPeriodAvgDuration == RoundOpt(MeanOpt(Durations(Filter(rows, OffPeriod)))))
  {
    var ds := Durations(rows);
    var p := Present(ds);
    var i := SomeDurationIndex(rows);
    assert ds[i].Some? && ds[i].value in p;
    MeanBetween(p);
    assert MinOpt(ds).value == MinOf(p) && MaxOpt(ds).value == MaxOf(p);
  }

  /** An empty partition has average duration 0, as the dashboard shows it. */
  lemma EmptyPartitionAverage(rows: seq<SeizureRow>, now: int)
    requires |rows| > 0 && SomeDuration(rows)
    ensures var s := Summarize(rows, now);
      (s.periodCount == 0 ==> s.periodAvgDuration == Some(0.0)) &&
      (s.nonPeriodCount == 0 ==> s.nonPeriodAvgDuration == Some(0.0))
  {
    assert Round1(0.0) == 0.0 by {
      assert RoundHalfEven(0.0 * 10.0) == 0;
    }
  }

  // ---------------------------------------------------------------------------
  // prepare_chart_data

  datatype DurationStats = DurationStats(mean: real, median: real, std: Option<real>, min: int, max: int)

  datatype FoodAnalysis = FoodAnalysis(foodEatenAvg: real, noFoodAvg: real, foodEatenCount: nat, noFoodCount: nat)

  /** Per-day and per-hour tables list `(key, count)` for the keys that occur,
      ascending; the weekday table lists Monday (0) … Sunday (6), zero-filled. */
  datatype Charts = Charts(
    daily: seq<(int, nat)>, hourly: seq<(int, nat)>, weekday: seq<(int, nat)>,
    durations: DurationStats, food: FoodAnalysis, timeline: seq<SeizureRow>)

  datatype ChartsOutcome = NoCharts | ChartsRaise | ChartData(charts: Charts)

  /** `round(mean, 1) if not isna(mean) else 0` over one food partition. */
  function FoodAverage(rows: seq<SeizureRow>, p: SeizureRow -> bool): real
  {
    match MeanOpt(Durations(Filter(rows, p)))
    case None => 0.0
    case Some(m) => Round1(m)
  }

  /** The frequency table of the keys between the least and the greatest. */
  function SpanTable(keys: seq<int>): (t: seq<(int, nat)>)
    requires |keys| > 0
    ensures TableTotal(t) == |keys|
    ensures KeysAscend(t)
    ensures forall e :: e in t ==> e.1 == CountKey(keys, e.0) > 0
  {
    var lo := MinInt(keys);
    var n := MaxInt(keys) - lo + 1;
    FreqTableTotal(keys, lo, n);
    FreqTableSound(keys, lo, n);
    SumCountsTotal(keys, lo, n);
    FreqTable(keys, lo, n)
  }

  /** The per-day table (`groupby(date).size()`): one ascending entry per day
      that has a seizure, the counts adding up to the number of seizures. */
  function DailyFrequency(rows: seq<SeizureRow>): (t: seq<(int, nat)>)
    requires |rows| > 0
    ensures TableTotal(t) == |rows|
    ensures KeysAscend(t)
    ensures forall e :: e in t ==> e.1 == CountKey(Days(rows), e.0) > 0
  {
    SpanTable(Days(rows))
  }

  /** The per-hour table (`value_counts().sort_index()`): ascending hours 0..23
      that occur, the counts adding up to the number of seizures. */
  function HourFrequency(rows: seq<SeizureRow>): (t: seq<(int, nat)>)
    ensures TableTotal(t) == |rows|
    ensures forall e :: e in t ==> 0 <= e.0 < 24 && e.1 == CountKey(Hours(rows), e.0) > 0
    ensures KeysAscend(t)
  {
    var hours := Hours(rows);
    FreqTableTotal(hours, 0, 24);
    FreqTableSound(hours, 0, 24);
    SumCountsTotal(hours, 0, 24);
    FreqTable(hours, 0, 24)
  }

  /** The per-weekday table (`reindex(day_order, fill_value=0)`): exactly seven
      entries Monday … Sunday, zero-filled, adding up to the number of seizures. */
  function WeekdayFrequency(rows: seq<SeizureRow>): (t: seq<(int, nat)>)
    ensures |t| == 7 && forall i :: 0 <= i < 7 ==> t[i].0 == i
    ensures forall i :: 0 <= i < 7 ==> t[i].1 == CountKey(Weekdays(rows), i)
    ensures TableTotal(t) == |rows|
  {
    var wds := Weekdays(rows);
    ZeroFilledTotal(wds, 0, 7);
    SumCountsTotal(wds, 0, 7);
    ZeroFilledTable(wds, 0, 7)
  }

  /** `prepare_chart_data`; `std` is pandas' sample standard deviation, NaN
      (`None`) for fewer than two values, left abstract. The source sorts the
      rows first; every table and statistic is the one of the rows in any
      order, and the timeline lists them most recent first. */
  function PrepareChartData(rows: seq<SeizureRow>, std: seq<real> -> Option<real>): (r: ChartsOutcome)
    ensures r.NoCharts? <==> |rows| == 0
    ensures r.ChartsRaise? <==> |rows| > 0 && forall i :: 0 <= i < |rows| ==> rows[i].duration.None?
    ensures r.ChartData? ==> multiset(r.charts.timeline) == multiset(rows) && Descending(r.charts.timeline)
    ensures r.ChartData? ==> var c := r.charts;
      c.daily == DailyFrequency(rows) && c.hourly == HourFrequency(rows) && c.weekday == WeekdayFrequency(rows)
    ensures r.ChartData? ==> var c := r.charts; var ds := Durations(rows);
      MeanOpt(ds).Some? && MinOpt(ds).Some? && MaxOpt(ds).Some? && |Present(ds)| > 0 &&
      c.durations.mean == Round1(MeanOpt(ds).value) && c.durations.median == Round1(Median(Present(ds))) &&
      c.durations.min == Trunc(MinOpt(ds).value) && c.durations.max == Trunc(MaxOpt(ds).value)
    ensures r.ChartData? ==> var f := r.charts.food;
      f.foodEatenAvg == FoodAverage(rows, WithFood) && f.noFoodAvg == FoodAverage(rows, WithoutFood) &&
      f.foodEatenCount == CountWhere(rows, WithFood) && f.noFoodCount == CountWhere(rows, WithoutFood) &&
      f.foodEatenCount + f.noFoodCount == |rows|
  {
    if |rows| == 0 then NoCharts
    else if !SomeDuration(rows) then ChartsRaise
    else
      var sorted := SortBy(rows, TimeKey);
      ChartsOrderFree(rows, sorted);
      CountComplement(rows, WithFood, WithoutFood);
      ChartData(BuildCharts(sorted, std))
  }

  /** The charts of the rows in chronological order. */
  function BuildCharts(sorted: seq<SeizureRow>, std: seq<real> -> Option<real>): (c: Charts)
    requires |sorted| > 0 && SomeDuration(sorted)
    ensures multiset(c.timeline) == multiset(sorted) && Descending(c.timeline)
    ensures c.daily == DailyFrequency(sorted) && c.hourly == HourFrequency(sorted) && c.weekday == WeekdayFrequency(sorted)
    ensures var ds := Durations(sorted);
      MeanOpt(ds).Some? && MinOpt(ds).Some? && MaxOpt(ds).Some? && |Present(ds)| > 0 &&
      c.durations.mean == Round1(MeanOpt(ds).value) && c.durations.median == Round1(Median(Present(ds))) &&
      c.durations.min == Trunc(MinOpt(ds).value) && c.durations.max == Trunc(MaxOpt(ds).value)
    ensures c.food.foodEatenAvg == FoodAverage(sorted, WithFood) && c.food.noFoodAvg == FoodAverage(sorted, WithoutFood)
    ensures c.food.foodEatenCount == CountWhere(sorted, WithFood)
    ensures c.food.noFoodCount == CountWhere(sorted, WithoutFood)
  {
    var ds := Durations(sorted);
    var i := SomeDurationIndex(sorted);
    assert ds[i].Some?;
    var present := Present(ds);
    assert ds[i].value in present;
    Charts(
      DailyFrequency(sorted), HourFrequency(sorted), WeekdayFrequency(sorted),
      DurationStats(Round1(MeanOpt(ds).value), Round1(Median(present)), RoundOpt(std(present)),
                    Trunc(MinOpt(ds).value), Trunc(MaxOpt(ds).value)),
      FoodAnalysis(FoodAverage(sorted, WithFood), FoodAverage(sorted, WithoutFood),
                   CountWhere(sorted, WithFood), CountWhere(sorted, WithoutFood)),
      SortDescending(sorted))
  }

  /** Rearranging the rows changes none of the chart tables, duration
      statistics or food averages: the sort in `prepare_chart_data` affects
      only the order of the timeline. */
  lemma ChartsOrderFree(a: seq<SeizureRow>, b: seq<SeizureRow>)
    requires |a| > 0 && SomeDuration(a) && multiset(a) == multiset(b)
    ensures |b| == |a| && SomeDuration(b)
    ensures DailyFrequency(a) == DailyFrequency(b) && HourFrequency(a) == HourFrequency(b)
    ensures WeekdayFrequency(a) == WeekdayFrequency(b)
    ensures var da, db := Durations(a), Durations(b);
      MeanOpt(da) == MeanOpt(db) && MinOpt(da) == MinOpt(db) && MaxOpt(da) == MaxOpt(db) &&
      |Present(da)| > 0 && |Present(db)| > 0 && Median(Present(da)) == Median(Present(db))
    ensures FoodAverage(a, WithFood) == FoodAverage(b, WithFood)
    ensures FoodAverage(a, WithoutFood) == FoodAverage(b, WithoutFood)
    ensures CountWhere(a, WithFood) == CountWhere(b, WithFood)
    ensures CountWhere(a, WithoutFood) == CountWhere(b, WithoutFood)
  {
    assert |b| == |multiset(b)| == |multiset(a)| == |a|;
    TablesOrderFree(a, b);
    DurationsOrderFree(a, b);
    FoodOrderFree(a, b, WithFood);
    FoodOrderFree(a, b, WithoutFood);
  }

  lemma TablesOrderFree(a: seq<SeizureRow>, b: seq<SeizureRow>)
    requires |a| > 0 && |b| > 0 && multiset(a) == multiset(b)
    ensures DailyFrequency(a) == DailyFrequency(b) && HourFrequency(a) == HourFrequency(b)
    ensures WeekdayFrequency(a) == WeekdayFrequency(b)
  {
    DailyOrderFree(a, b);
    ProjectPermutation(a, b, RowHour);
    FreqTablePermutation(Hours(a), Hours(b), 0, 24);
    ProjectPermutation(a, b, RowWeekday);
    FreqTablePermutation(Weekdays(a), Weekdays(b), 0, 7);
  }

  lemma DailyOrderFree(a: seq<SeizureRow>, b: seq<SeizureRow>)
    requires |a| > 0 && |b| > 0 && multiset(a) == multiset(b)
    ensures DailyFrequency(a) == DailyFrequency(b)
  {
    ProjectPermutation(a, b, RowDay);
    SpanTableOrderFree(Days(a), Days(b));
  }

  /** The table over the span of the keys depends only on which keys occur how often. */
  lemma SpanTableOrderFree(da: seq<int>, db: seq<int>)
    requires |da| > 0 && multiset(da) == multiset(db)
    ensures |db| > 0 && SpanTable(da) == SpanTable(db)
  {
    MinIntPermutation(da, db);
    FreqTablePermutation(da, db, MinInt(da), MaxInt(da) - MinInt(da) + 1);
  }

  lemma DurationsOrderFree(a: seq<SeizureRow>, b: seq<SeizureRow>)
    requires |a| > 0 && SomeDuration(a) && multiset(a) == multiset(b)
    ensures SomeDuration(b)
    ensures var da, db := Durations(a), Durations(b);
      MeanOpt(da) == MeanOpt(db) && MinOpt(da) == MinOpt(db) && MaxOpt(da) == MaxOpt(db) &&
      |Present(da)| > 0 && |Present(db)| > 0 && Median(Present(da)) == Median(Present(db))
  {
    var i := SomeDurationIndex(a);
    assert a[i] in multiset(b);
    var j :| 0 <= j < |b| && b[j] == a[i];
    ProjectPermutation(a, b, RowDuration);
    var da, db := Durations(a), Durations(b);
    MeanOptPermutation(da, db);
    PresentPermutation(da, db);
    assert da[i].Some? && db[j].Some?;
    assert da[i].value in Present(da) && db[j].value in Present(db);
    MedianPermutation(Present(da), Present(db));
  }

  lemma FoodOrderFree(a: seq<SeizureRow>, b: seq<SeizureRow>, p: SeizureRow -> bool)
    requires multiset(a) == multiset(b)
    ensures FoodAverage(a, p) == FoodAverage(b, p) && CountWhere(a, p) == CountWhere(b, p)
  {
    CountPermutation(a, b, p);
    FilterPermutation(a, b, p);
    ProjectPermutation(Filter(a, p), Filter(b, p), RowDuration);
    MeanOptPermutation(Durations(Filter(a, p)), Durations(Filter(b, p)));
  }

  /** The daily table has one entry for each calendar day on which a seizure
      occurred, and no other. */
  lemma DailyFrequencyExact(rows: seq<SeizureRow>, d: int)
    requires |rows| > 0
    ensures (exists c :: (d, c) in DailyFrequency(rows)) <==> exists i :: 0 <= i < |rows| && Clock.DayOf(rows[i].time) == d
  {
    var days := Days(rows);
    var lo, hi := MinInt(days), MaxInt(days);
    FreqTableHasKeyIff(days, lo, hi - lo + 1, d);
    if d in days {
      var i :| 0 <= i < |days| && days[i] == d;
      assert Clock.DayOf(rows[i].time) == d;
    }
  }
}
