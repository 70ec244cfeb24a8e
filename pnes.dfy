/** The PNES indicator engine (webpage/pnes_analyzer.py): seven indicators
    computed over the dashboard's seizure table, the risk factors they trigger,
    the likelihood score and its classification band. Standard deviation and
    Pearson correlation are left abstract (function parameters). */
module PnesAnalyzer {
  import opened Seqs
  import Clock
  import D = Dashboard

  // ---------------------------------------------------------------------------
  // Daytime and night

  /** Waking hours, 7 AM up to (not including) 11 PM. */
  predicate IsDaytime(r: D.SeizureRow) { 7 <= Clock.HourOf(r.time) < 23 }

  /** Sleeping hours, 11 PM up to (not including) 7 AM. */
  predicate IsNight(r: D.SeizureRow) { Clock.HourOf(r.time) >= 23 || Clock.HourOf(r.time) < 7 }

  datatype Daytime = Daytime(percentage: real, daytimeCount: nat, nighttimeCount: int, total: nat)

  /** `_analyze_daytime_pattern`. */
  function AnalyzeDaytimePattern(rows: seq<D.SeizureRow>): (d: Daytime)
    ensures d.total == |rows| && d.daytimeCount == CountWhere(rows, IsDaytime)
    ensures d.daytimeCount + d.nighttimeCount == d.total
    ensures d.nighttimeCount == CountWhere(rows, IsNight)
    ensures d.percentage == 100.0 * Fraction(d.daytimeCount, d.total)
    ensures 0.0 <= d.percentage <= 100.0
  {
    var n, c := |rows|, CountWhere(rows, IsDaytime);
    CountComplement(rows, IsDaytime, IsNight);
    Daytime(Fraction(c, n) * 100.0, c, n - c, n)
  }

  datatype Sleep = Sleep(correlation: real, duringSleep: nat)

  /** `_analyze_sleep_triggers`: the share of night seizures, or 0 when either
      the seizure table or the watch table is empty. */
  function AnalyzeSleepTriggers(rows: seq<D.SeizureRow>, watchRows: nat): (s: Sleep)
    ensures 0.0 <= s.correlation <= 1.0
    ensures |rows| == 0 || watchRows == 0 ==> s == Sleep(0.0, 0)
    ensures |rows| > 0 && watchRows > 0 ==>
      s.duringSleep == CountWhere(rows, IsNight) <= |rows| && s.correlation == Fraction(s.duringSleep, |rows|)
  {
    if |rows| == 0 || watchRows == 0 then Sleep(0.0, 0)
    else
      var night := CountWhere(rows, IsNight);
      Sleep(Fraction(night, |rows|) * 100.0 / 100.0, night)
  }

  /** With watch data present, the sleep correlation is exactly one minus the
      daytime share: the night and daytime predicates split every hour. */
  lemma SleepComplementsDaytime(rows: seq<D.SeizureRow>, watchRows: nat)
    requires |rows| > 0 && watchRows > 0
    ensures AnalyzeSleepTriggers(rows, watchRows).correlation == 1.0 - AnalyzeDaytimePattern(rows).percentage / 100.0
  {
    var n := |rows| as real;
    var d := AnalyzeDaytimePattern(rows);
    var s := AnalyzeSleepTriggers(rows, watchRows);
    FractionTimes(d.daytimeCount, |rows|);
    FractionTimes(s.duringSleep, |rows|);
    var day, night := d.daytimeCount as real, s.duringSleep as real;
    assert day + night == n;
    assert (s.correlation + d.percentage / 100.0 - 1.0) * n == night + day - n;
    ZeroFactor(s.correlation + d.percentage / 100.0 - 1.0, n);
  }

  // ---------------------------------------------------------------------------
  // Duration variability

  datatype Variability = Variability(cv: real, count: nat)

  /** `_analyze_pattern_variability`: the coefficient of variation of the
      present durations, 0 for fewer than two of them or a non-positive mean. */
  function AnalyzePatternVariability(rows: seq<D.SeizureRow>, std: seq<real> -> real): (v: Variability)
    ensures v.count == |Present(D.Durations(rows))|
    ensures v.count < 2 ==> v.cv == 0.0
    ensures v.count >= 2 && Mean(Present(D.Durations(rows))) <= 0.0 ==> v.cv == 0.0
  {
    var ds := Present(D.Durations(rows));
    if |ds| < 2 then Variability(0.0, |ds|)
    else
      var mean := Mean(ds);
      Variability(if mean > 0.0 then std(ds) / mean else 0.0, |ds|)
  }

  // ---------------------------------------------------------------------------
  // Food

  datatype FoodTriggers = FoodTriggers(foodAvg: Option<real>, noFoodAvg: Option<real>, foodCount: nat, noFoodCount: nat, trend: string)

  /** A comparison `a > b * k` of two floats, false when either is NaN. */
  predicate GreaterScaled(a: Option<real>, b: Option<real>, k: real)
  {
    a.Some? && b.Some? && a.value > b.value * k
  }

  /** `_analyze_food_triggers`: each partition's mean duration (0 for an empty
      partition, NaN when it has no duration), and a trend label. */
  function AnalyzeFoodTriggers(rows: seq<D.SeizureRow>): (f: FoodTriggers)
    ensures f.foodCount + f.noFoodCount == |rows|
    ensures f.foodCount == CountWhere(rows, D.WithFood) && f.noFoodCount == CountWhere(rows, D.WithoutFood)
    ensures f.foodCount > 0 ==> f.foodAvg == MeanOpt(D.Durations(Filter(rows, D.WithFood)))
    ensures f.noFoodCount > 0 ==> f.noFoodAvg == MeanOpt(D.Durations(Filter(rows, D.WithoutFood)))
    ensures f.foodCount == 0 ==> f.foodAvg == Some(0.0)
    ensures f.noFoodCount == 0 ==> f.noFoodAvg == Some(0.0)
    ensures |f.trend| > 0
    ensures f.trend == "higher_with_food" <==> GreaterScaled(f.foodAvg, f.noFoodAvg, 1.0)
  {
    var fa, na := D.PartitionMean(rows, D.WithFood), D.PartitionMean(rows, D.WithoutFood);
    CountComplement(rows, D.WithFood, D.WithoutFood);
    FoodTriggers(fa, na, CountWhere(rows, D.WithFood), CountWhere(rows, D.WithoutFood),
      if GreaterScaled(fa, na, 1.0) then "higher_with_food" else "higher_without_food")
  }

  // ---------------------------------------------------------------------------
  // Clustering

  datatype Clustering = Clustering(ratio: real, clusterCount: nat, intervals: nat)

  /** Differences between consecutive timestamps (`diff()` without its leading NaN). */
  function Gaps(ts: seq<int>): (g: seq<int>)
    requires |ts| > 0
    ensures |g| == |ts| - 1
    ensures forall i :: 0 <= i < |g| ==> g[i] == ts[i + 1] - ts[i]
  {
    seq(|ts| - 1, i requires 0 <= i < |ts| - 1 => ts[i + 1] - ts[i])
  }

  /** A gap shorter than 24 hours, measured as `total_seconds() / 3600`. */
  predicate WithinDay(gapSeconds: int)
  {
    (gapSeconds as real) / 3600.0 < 24.0
  }

  /** `_analyze_seizure_clustering`: the share of consecutive gaps (in time
      order) shorter than a day; 0 for fewer than three seizures. */
  function AnalyzeSeizureClustering(rows: seq<D.SeizureRow>): (c: Clustering)
    ensures 0.0 <= c.ratio <= 1.0
    ensures |rows| < 3 ==> c == Clustering(0.0, 0, 0)
    ensures |rows| >= 3 ==> (c.intervals == |rows| - 1 && c.clusterCount <= c.intervals &&
      c.ratio == Fraction(c.clusterCount, c.intervals))
  {
    if |rows| < 3 then Clustering(0.0, 0, 0)
    else
      var gaps := Gaps(D.Times(SortBy(rows, D.TimeKey)));
      var clustered := CountWhere(gaps, WithinDay);
      Clustering(Fraction(clustered, |gaps|), clustered, |gaps|)
  }

  // ---------------------------------------------------------------------------
  // Period

  datatype Period = Period(correlation: real, periodRelated: nat, nonPeriodRelated: nat)

  /** `_analyze_period_correlation`: the share of seizures during a period. */
  function AnalyzePeriodCorrelation(rows: seq<D.SeizureRow>): (p: Period)
    ensures 0.0 <= p.correlation <= 1.0
    ensures p.periodRelated + p.nonPeriodRelated == |rows|
    ensures p.periodRelated == CountWhere(rows, D.OnPeriod)
    ensures p.correlation == Fraction(p.periodRelated, |rows|)
  {
    CountComplement(rows, D.OnPeriod, D.OffPeriod);
    var c := CountWhere(rows, D.OnPeriod);
    Period(Fraction(c, |rows|), c, CountWhere(rows, D.OffPeriod))
  }

  // ---------------------------------------------------------------------------
  // Pain correlation

  datatype PainReading = PainReading(time: int, pain: real)

  function PainDays(pain: seq<PainReading>): (ds: seq<int>)
    ensures |ds| == |pain| && forall i :: 0 <= i < |pain| ==> ds[i] == Clock.DayOf(pain[i].time)
  {
    seq(|pain|, i requires 0 <= i < |pain| => Clock.DayOf(pain[i].time))
  }

  /** Pain values reported on calendar day `d`. */
  function PainOnDay(pain: seq<PainReading>, d: int): seq<real>
  {
    if |pain| == 0 then []
    else
      var last := pain[|pain| - 1];
      PainOnDay(pain[..|pain| - 1], d) + (if Clock.DayOf(last.time) == d then [last.pain] else [])
  }

  /** `groupby(date)['Pain'].mean()` for one day; 0 for a day without reports. */
  function DailyPainMean(pain: seq<PainReading>, d: int): real
  {
    var vs := PainOnDay(pain, d);
    if |vs| == 0 then 0.0 else Mean(vs)
  }

  /** Entries of the seizure day table whose day also has a pain report
      (`seizure_dates.index.intersection(pain_daily.index)`). */
  function CommonDays(seizures: seq<D.SeizureRow>, pain: seq<PainReading>): seq<(int, nat)>
    requires |seizures| > 0
  {
    Filter(D.DailyFrequency(seizures), OnAnyDay(PainDays(pain)))
  }

  /** The test "the entry's day is one of `days`" as a predicate value. */
  function OnAnyDay(days: seq<int>): ((int, nat)) -> bool
  {
    (e: (int, nat)) => e.0 in days
  }

  /** A day is common exactly when it has both a seizure and a pain report. */
  lemma CommonDaysExact(seizures: seq<D.SeizureRow>, pain: seq<PainReading>, d: int)
    requires |seizures| > 0
    ensures (exists c :: (d, c) in CommonDays(seizures, pain)) <==>
      (exists i :: 0 <= i < |seizures| && Clock.DayOf(seizures[i].time) == d) &&
      (exists j :: 0 <= j < |pain| && Clock.DayOf(pain[j].time) == d)
  {
    var painDays := PainDays(pain);
    var table := D.DailyFrequency(seizures);
    D.DailyFrequencyExact(seizures, d);
    forall c: nat
      ensures (d, c) in CommonDays(seizures, pain) <==> (d, c) in table && d in painDays
    {
      FilterMember(table, OnAnyDay(painDays), (d, c));
    }
    if exists j :: 0 <= j < |pain| && Clock.DayOf(pain[j].time) == d {
      var j :| 0 <= j < |pain| && Clock.DayOf(pain[j].time) == d;
      assert painDays[j] == d;
    }
  }


  /** `_analyze_pain_correlation`: the Pearson correlation (`corr`, NaN as
      `None`, turned into 0 by `nan_to_num`) between seizures per day and mean
      pain per day over the common days; 0 when either table is empty or there
      are fewer than three common days. */
  function AnalyzePainCorrelation(seizures: seq<D.SeizureRow>, pain: seq<PainReading>,
                                  corr: (seq<real>, seq<real>) -> Option<real>): (c: real)
    ensures |seizures| == 0 || |pain| == 0 ==> c == 0.0
    ensures |seizures| > 0 && |CommonDays(seizures, pain)| < 3 ==> c == 0.0
  {
    if |seizures| == 0 || |pain| == 0 then 0.0
    else
      var common := CommonDays(seizures, pain);
      if |common| < 3 then 0.0
      else
        match corr(SeizureCounts(common), PainMeans(pain, common))
        case None => 0.0
        case Some(r) => r
  }

  /** The seizure count column of the day table. */
  function SeizureCounts(common: seq<(int, nat)>): (xs: seq<real>)
    ensures |xs| == |common| && forall i :: 0 <= i < |xs| ==> xs[i] == common[i].1 as real
  {
    seq(|common|, i requires 0 <= i < |common| => common[i].1 as real)
  }

  /** The daily mean pain column for the days of the table. */
  function PainMeans(pain: seq<PainReading>, common: seq<(int, nat)>): (xs: seq<real>)
    ensures |xs| == |common| && forall i :: 0 <= i < |xs| ==> xs[i] == DailyPainMean(pain, common[i].0)
  {
    seq(|common|, i requires 0 <= i < |common| => DailyPainMean(pain, common[i].0))
  }

  // ---------------------------------------------------------------------------
  // Risk factors, score and classification

  datatype Indicator =
    | StrongPainCorrelation | PredominantlyDaytime | HighDurationVariability
    | FoodStressTrigger | ClusteredPattern | NoSleepCorrelation | LowHormonalPattern

  /** A triggered indicator with its score; the description text is left out. */
  datatype RiskFactor = RiskFactor(indicator: Indicator, score: real)

  datatype Band = Minimal | Low | Moderate | High

  /** The outcome of `analyze_pnes_indicators`: the early exit for an empty
      table, the AttributeError raised by the score line, or the report. */
  datatype Analysis =
    | NoSeizureData
    | ScoreAttributeError
    | Report(score: real, band: Band, factors: seq<RiskFactor>)

  /** The indicators whose factor also records an entry in `scores`. */
  predicate WritesScore(i: Indicator)
  {
    i != FoodStressTrigger && i != LowHormonalPattern
  }

  /** All seven measurements of one analysis. */
  datatype Measurements = Measurements(
    painCorrelation: real, daytime: Daytime, variability: Variability, food: FoodTriggers,
    clustering: Clustering, sleep: Sleep, period: Period)

  function Measure(seizures: seq<D.SeizureRow>, pain: seq<PainReading>, watchRows: nat,
                   std: seq<real> -> real, corr: (seq<real>, seq<real>) -> Option<real>): Measurements
  {
    Measurements(
      AnalyzePainCorrelation(seizures, pain, corr), AnalyzeDaytimePattern(seizures),
      AnalyzePatternVariability(seizures, std), AnalyzeFoodTriggers(seizures),
      AnalyzeSeizureClustering(seizures), AnalyzeSleepTriggers(seizures, watchRows),
      AnalyzePeriodCorrelation(seizures))
  }

  /** The score of the food factor: the ratio of the two means, or 1 when the
      no-food mean is not positive. */
  function FoodScore(f: FoodTriggers): real
  {
    if f.noFoodAvg.Some? && f.noFoodAvg.value > 0.0 && f.foodAvg.Some?
    then f.foodAvg.value / f.noFoodAvg.value else 1.0
  }

  function PainFactor(c: real): Option<RiskFactor>
  {
    if c > 0.6 then Some(RiskFactor(StrongPainCorrelation, c)) else None
  }

  function DaytimeFactor(d: Daytime): Option<RiskFactor>
  {
    if d.percentage > 70.0 then Some(RiskFactor(PredominantlyDaytime, d.percentage)) else None
  }

  function VariabilityFactor(v: Variability): Option<RiskFactor>
  {
    if v.cv > 1.0 then Some(RiskFactor(HighDurationVariability, v.cv)) else None
  }

  function FoodFactor(f: FoodTriggers): Option<RiskFactor>
  {
    if |f.trend| > 0 && GreaterScaled(f.foodAvg, f.noFoodAvg, 1.2)
    then Some(RiskFactor(FoodStressTrigger, FoodScore(f))) else None
  }

  function ClusterFactor(c: Clustering): Option<RiskFactor>
  {
    if c.ratio > 2.0 then Some(RiskFactor(ClusteredPattern, c.ratio)) else None
  }

  function SleepFactor(s: Sleep): Option<RiskFactor>
  {
    if s.correlation < 0.3 then Some(RiskFactor(NoSleepCorrelation, 1.0 - s.correlation)) else None
  }

  function PeriodFactor(p: Period): Option<RiskFactor>
  {
    if p.correlation < 0.3 then Some(RiskFactor(LowHormonalPattern, 1.0 - p.correlation)) else None
  }

  /** Declarative table of the seven factors: whether each fires, and its score. */
  function FactorOf(i: Indicator, m: Measurements): Option<RiskFactor>
  {
    match i
    case StrongPainCorrelation => PainFactor(m.painCorrelation)
    case PredominantlyDaytime => DaytimeFactor(m.daytime)
    case HighDurationVariability => VariabilityFactor(m.variability)
    case FoodStressTrigger => FoodFactor(m.food)
    case ClusteredPattern => ClusterFactor(m.clustering)
    case NoSleepCorrelation => SleepFactor(m.sleep)
    case LowHormonalPattern => PeriodFactor(m.period)
  }

  function AsSeq(o: Option<RiskFactor>): seq<RiskFactor>
  {
    if o.Some? then [o.value] else []
  }

  /** The factors that fire, in the order the analysis checks them. */
  function FiredFactors(m: Measurements): seq<RiskFactor>
  {
    AsSeq(FactorOf(StrongPainCorrelation, m)) + AsSeq(FactorOf(PredominantlyDaytime, m)) +
    AsSeq(FactorOf(HighDurationVariability, m)) + AsSeq(FactorOf(FoodStressTrigger, m)) +
    AsSeq(FactorOf(ClusteredPattern, m)) + AsSeq(FactorOf(NoSleepCorrelation, m)) +
    AsSeq(FactorOf(LowHormonalPattern, m))
  }

  /** Classification bands with strict thresholds (a score of exactly 70 is MODERATE). */
  function Classify(score: real): (b: Band)
    ensures b == High <==> score > 70.0
    ensures b == Moderate <==> 50.0 < score <= 70.0
    ensures b == Low <==> 30.0 < score <= 50.0
    ensures b == Minimal <==> score <= 30.0
  {
    if score > 70.0 then High
    else if score > 50.0 then Moderate
    else if score > 30.0 then Low
    else Minimal
  }

  function BandRank(b: Band): nat
  {
    match b
    case Minimal => 0
    case Low => 1
    case Moderate => 2
    case High => 3
  }

  /** A higher score never gets a lower band. */
  lemma ClassifyMonotone(x: real, y: real)
    requires x <= y
    ensures BandRank(Classify(x)) <= BandRank(Classify(y))
  {
  }

  /** Some factor of `fs` records a score. */
  predicate AnyWritesScore(fs: seq<RiskFactor>)
  {
    exists k :: 0 <= k < |fs| && WritesScore(fs[k].indicator)
  }

  lemma AnyWritesScoreAppend(fs: seq<RiskFactor>, f: RiskFactor)
    ensures AnyWritesScore(fs + [f]) <==> AnyWritesScore(fs) || WritesScore(f.indicator)
  {
    if AnyWritesScore(fs) {
      var k :| 0 <= k < |fs| && WritesScore(fs[k].indicator);
      assert (fs + [f])[k] == fs[k];
    }
    if WritesScore(f.indicator) {
      assert (fs + [f])[|fs|] == f;
    }
    if AnyWritesScore(fs + [f]) {
      var k :| 0 <= k < |fs + [f]| && WritesScore((fs + [f])[k].indicator);
      if k < |fs| {
        assert fs[k] == (fs + [f])[k];
      }
    }
  }

  /** Whether a factor fired that records a score. */
  predicate Scored(f: Option<RiskFactor>)
  {
    f.Some? && WritesScore(f.value.indicator)
  }

  /** One check of the analysis: when the indicator's factor fires it is
      appended to `factors`, and for the five scored indicators its score is
      recorded in `scores`. */
  method RecordFactor(factors: seq<RiskFactor>, scores: map<Indicator, real>, f: Option<RiskFactor>)
    returns (factors': seq<RiskFactor>, scores': map<Indicator, real>)
    ensures factors' == factors + AsSeq(f)
    ensures Scored(f) ==> scores' == scores[f.value.indicator := f.value.score]
    ensures !Scored(f) ==> scores' == scores
    ensures scores' != map[] <==> scores != map[] || Scored(f)
    ensures AnyWritesScore(factors') <==> AnyWritesScore(factors) || Scored(f)
  {
    factors', scores' := factors, scores;
    if f.Some? {
      AnyWritesScoreAppend(factors, f.value);
      factors' := factors + [f.value];
      if WritesScore(f.value.indicator) {
        scores' := scores[f.value.indicator := f.value.score];
        assert f.value.indicator in scores';
      }
    }
  }

  /** Runs the seven checks in the source's order on measurements `m`. At the
      end `scores` is non-empty exactly when a scored factor fired. */
  method CollectFactors(m: Measurements) returns (factors: seq<RiskFactor>, scores: map<Indicator, real>)
    ensures factors == FiredFactors(m)
    ensures scores != map[] <==> AnyWritesScore(factors)
  {
    factors, scores := [], map[];
    factors, scores := RecordFactor(factors, scores, FactorOf(StrongPainCorrelation, m));
    assert factors == AsSeq(FactorOf(StrongPainCorrelation, m));
    factors, scores := RecordFactor(factors, scores, FactorOf(PredominantlyDaytime, m));
    factors, scores := RecordFactor(factors, scores, FactorOf(HighDurationVariability, m));
    factors, scores := RecordFactor(factors, scores, FactorOf(FoodStressTrigger, m));
    factors, scores := RecordFactor(factors, scores, FactorOf(ClusteredPattern, m));
    factors, scores := RecordFactor(factors, scores, FactorOf(NoSleepCorrelation, m));
    factors, scores := RecordFactor(factors, scores, FactorOf(LowHormonalPattern, m));
  }

  /** `analyze_pnes_indicators`: checks the seven indicators in turn, appending
      each triggered factor to `factors` and, for five of them, recording its
      score in `scores`. The score line then calls `.get` on the recorded
      floats, which raises as soon as `scores` has an entry; so every report
      that is returned has score 0, band MINIMAL, and only food and hormonal
      factors. `std` and `corr` stand for pandas' standard deviation and
      numpy's Pearson correlation; `watchRows` is the size of the watch table. */
  method AnalyzePnesIndicators(seizures: seq<D.SeizureRow>, pain: seq<PainReading>, watchRows: nat,
                               std: seq<real> -> real, corr: (seq<real>, seq<real>) -> Option<real>)
    returns (out: Analysis)
    ensures out.NoSeizureData? <==> |seizures| == 0
    ensures |seizures| > 0 ==> var fired := FiredFactors(Measure(seizures, pain, watchRows, std, corr));
      (out.ScoreAttributeError? <==> AnyWritesScore(fired)) && (out.Report? ==> out.factors == fired)
    ensures out.Report? ==> out.score == 0.0 && out.band == Minimal
    ensures out.Report? ==> forall k :: 0 <= k < |out.factors| ==> !WritesScore(out.factors[k].indicator)
  {
    if |seizures| == 0 {
      return NoSeizureData;
    }
    // The analyses are pure, so computing all of them before recording the
    // factors gives the same factors as the source's interleaving.
    var m := Measure(seizures, pain, watchRows, std, corr);
    out := ScoreFactors(m);
  }

  /** The second half of `analyze_pnes_indicators`: records the factors that
      fire on `m`, then builds the report. The score line raises as soon as a
      score was recorded; otherwise the score stays 0. */
  method ScoreFactors(m: Measurements) returns (out: Analysis)
    ensures out.ScoreAttributeError? <==> AnyWritesScore(FiredFactors(m))
    ensures !out.ScoreAttributeError? ==> out == Report(0.0, Minimal, FiredFactors(m))
    ensures out.Report? ==> forall k :: 0 <= k < |out.factors| ==> !WritesScore(out.factors[k].indicator)
  {
    var factors, scores := CollectFactors(m);
    var pnesScore := 0.0;
    if |factors| > 0 && scores != map[] {
      return ScoreAttributeError;
    }
    return Report(Round1(pnesScore), Classify(pnesScore), factors);
  }

  /** The clustering ratio never exceeds 1, so the clustered-pattern factor,
      guarded by a ratio above 2, is never emitted. */
  lemma ClusteredPatternNeverFires(m: Measurements, seizures: seq<D.SeizureRow>)
    requires m.clustering == AnalyzeSeizureClustering(seizures)
    ensures FactorOf(ClusteredPattern, m).None?
  {
  }

  /** Without watch data the sleep correlation is 0, so 'No Sleep Correlation'
      fires with score 1 and the analysis of a non-empty table raises. */
  lemma NoWatchDataRaises(m: Measurements, seizures: seq<D.SeizureRow>)
    requires m.sleep == AnalyzeSleepTriggers(seizures, 0)
    ensures FactorOf(NoSleepCorrelation, m) == Some(RiskFactor(NoSleepCorrelation, 1.0))
    ensures AnyWritesScore(FiredFactors(m))
  {
    var fired := FiredFactors(m);
    var k := |fired| - 1 - (if FactorOf(LowHormonalPattern, m).Some? then 1 else 0);
    assert fired[k] == RiskFactor(NoSleepCorrelation, 1.0);
  }

  /** The food factor fires exactly when the food mean exceeds 1.2 times the
      no-food mean (the trend label is never empty), with the ratio of the
      means as score when the no-food mean is positive and 1 otherwise. */
  lemma FoodFactorIff(m: Measurements)
    requires |m.food.trend| > 0
    ensures FactorOf(FoodStressTrigger, m).Some? <==> GreaterScaled(m.food.foodAvg, m.food.noFoodAvg, 1.2)
    ensures FactorOf(FoodStressTrigger, m).Some? && m.food.noFoodAvg.value > 0.0 ==>
      FactorOf(FoodStressTrigger, m).value.score * m.food.noFoodAvg.value == m.food.foodAvg.value
    ensures FactorOf(FoodStressTrigger, m).Some? && m.food.noFoodAvg.value <= 0.0 ==>
      FactorOf(FoodStressTrigger, m).value.score == 1.0
  {
  }

  /** With fewer than two present durations the variability factor cannot fire. */
  lemma VariabilityGuard(m: Measurements, seizures: seq<D.SeizureRow>, std: seq<real> -> real)
    requires |seizures| > 0
    requires m.variability == AnalyzePatternVariability(seizures, std)
    ensures |Present(D.Durations(seizures))| < 2 ==> FactorOf(HighDurationVariability, m).None?
  {
  }

  /** With no pain readings or fewer than three common days the pain factor
      cannot fire. */
  lemma PainGuard(m: Measurements, seizures: seq<D.SeizureRow>, pain: seq<PainReading>,
                  corr: (seq<real>, seq<real>) -> Option<real>)
    requires |seizures| > 0
    requires m.painCorrelation == AnalyzePainCorrelation(seizures, pain, corr)
    ensures |pain| == 0 || |CommonDays(seizures, pain)| < 3 ==> FactorOf(StrongPainCorrelation, m).None?
  {
  }

  /** 'Low Hormonal Pattern' fires exactly when fewer than 30 % of the seizures
      happened during a period. */
  lemma LowHormonalIff(m: Measurements, seizures: seq<D.SeizureRow>)
    requires |seizures| > 0 && m.period == AnalyzePeriodCorrelation(seizures)
    ensures FactorOf(LowHormonalPattern, m).Some? <==>
      (m.period.periodRelated as real) < 0.3 * (|seizures| as real)
  {
    FractionBelow(m.period.periodRelated, |seizures|, 0.3);
  }

  lemma ZeroFactor(x: real, n: real)
    requires n != 0.0 && x * n == 0.0
    ensures x == 0.0
  {
  }

  /** Multiplying by a positive factor keeps a strict order, in both directions. */
  lemma ScaleLess(x: real, k: real, n: real)
    requires n > 0.0
    ensures x < k <==> x * n < k * n
  {
    if x < k {
      assert (k - x) * n > 0.0;
    } else {
      assert (x - k) * n >= 0.0;
    }
  }
}
