/** Prediction feedback: every logged forecast is checked against the
    seizures that followed it, the checks are summarised per horizon, and
    the forecast history is turned into per-forecast features for the
    preprocessing step. Timestamps are Unix seconds. */
module Feedback {
  import opened Seqs
  import Clock
  import Outputs

  /** One logged forecast: when it was made and its three percentages. */
  datatype Prediction = Prediction(time: int, probs: Outputs.Horizons)

  /** The horizons in hours, indexed 0, 1, 2. */
  const HorizonHours: seq<nat> := [24, 48, 72]

  /** The percentage a forecast gives for horizon `h`. */
  function Prob(p: Outputs.Horizons, h: nat): real
    requires h < 3
  {
    if h == 0 then p.h24 else if h == 1 then p.h48 else p.h72
  }

  // ---------------------------------------------------------------------------
  // Validation

  /** The test "time lies in `[lo, hi)`" as a predicate value. */
  function InWindow(lo: int, hi: int): int -> bool
  {
    (t: int) => lo <= t < hi
  }

  /** Some seizure lies in the half-open window `[t, t + hours)`. */
  function Occurred(seizures: seq<int>, t: int, hours: nat): (b: bool)
    ensures b <==> exists k :: 0 <= k < |seizures| && t <= seizures[k] < t + hours * Clock.SecondsPerHour
  {
    var inside := InWindow(t, t + hours * Clock.SecondsPerHour);
    CountPositiveIff(seizures, inside);
    CountWhere(seizures, inside) > 0
  }

  /** A seizure inside a shorter window is inside every longer one. */
  lemma OccurredMonotone(seizures: seq<int>, t: int, h1: nat, h2: nat)
    requires h1 <= h2
    ensures Occurred(seizures, t, h1) ==> Occurred(seizures, t, h2)
  {
    if Occurred(seizures, t, h1) {
      var k :| 0 <= k < |seizures| && t <= seizures[k] < t + h1 * Clock.SecondsPerHour;
      assert h1 * Clock.SecondsPerHour <= h2 * Clock.SecondsPerHour;
    }
  }

  /** The window is half-open: a seizure at the forecast's own time counts,
      one exactly `hours` later does not. */
  lemma OccurredHalfOpen(t: int, hours: nat)
    ensures Occurred([t], t, hours) <==> hours > 0
    ensures !Occurred([t + hours * Clock.SecondsPerHour], t, hours)
  {
    if hours > 0 {
      assert t < t + hours * Clock.SecondsPerHour;
    }
  }

  /** The outcome for one horizon. */
  datatype HorizonCheck = HorizonCheck(occurred: bool, correct: bool, error: real)

  /** Checks a percentage against the outcome: the forecast says "yes" when
      it is over 50 %, it is correct when that matches, and its error is
      the distance between the probability and the 0/1 outcome. */
  function Check(prob: real, occurred: bool): (c: HorizonCheck)
    ensures c.occurred == occurred
    ensures c.correct <==> (prob > 50.0 <==> occurred)
    ensures c.error >= 0.0
    ensures c.error == 0.0 <==> (occurred && prob == 100.0) || (!occurred && prob == 0.0)
    ensures 0.0 <= prob <= 100.0 ==> c.error <= 1.0
    ensures c.error == Distance(prob / 100.0, if occurred then 1.0 else 0.0)
  {
    var predProb := prob / 100.0;
    var predBinary := predProb > 0.5;
    var actual := if occurred then 1.0 else 0.0;
    HorizonCheck(occurred, predBinary == occurred,
                 if predProb - actual >= 0.0 then predProb - actual else actual - predProb)
  }

  /** The absolute difference of two reals. */
  function Distance(x: real, y: real): (d: real)
    ensures d >= 0.0 && (d == x - y || d == y - x)
  {
    if x >= y then x - y else y - x
  }

  /** Exactly 50 % counts as a "no". */
  lemma FiftyPercentIsNo(occurred: bool)
    ensures Check(50.0, occurred).correct <==> !occurred
  {
  }

  /** One row of the validation table. */
  datatype ValidationRow = ValidationRow(time: int, probs: Outputs.Horizons, c24: HorizonCheck, c48: HorizonCheck, c72: HorizonCheck)

  function CheckOf(r: ValidationRow, h: nat): HorizonCheck
    requires h < 3
  {
    if h == 0 then r.c24 else if h == 1 then r.c48 else r.c72
  }

  /** The validation row of one forecast. */
  function Validated(seizures: seq<int>, p: Prediction): (r: ValidationRow)
    ensures r.time == p.time && r.probs == p.probs
    ensures forall h :: 0 <= h < 3 ==>
      CheckOf(r, h).occurred == Occurred(seizures, p.time, HorizonHours[h]) &&
      (CheckOf(r, h).correct <==> (Prob(p.probs, h) > 50.0 <==> CheckOf(r, h).occurred))
    ensures forall h :: 0 <= h < 3 ==>
      CheckOf(r, h) == Check(Prob(p.probs, h), Occurred(seizures, p.time, HorizonHours[h]))
  {
    ValidationRow(p.time, p.probs,
                  Check(p.probs.h24, Occurred(seizures, p.time, 24)),
                  Check(p.probs.h48, Occurred(seizures, p.time, 48)),
                  Check(p.probs.h72, Occurred(seizures, p.time, 72)))
  }

  /** A forecast whose 24-hour window saw a seizure also saw one within 48
      and 72 hours. */
  lemma ValidatedOccurredNested(seizures: seq<int>, p: Prediction)
    ensures Validated(seizures, p).c24.occurred ==> Validated(seizures, p).c48.occurred
    ensures Validated(seizures, p).c48.occurred ==> Validated(seizures, p).c72.occurred
  {
    OccurredMonotone(seizures, p.time, 24, 48);
    OccurredMonotone(seizures, p.time, 48, 72);
  }

  // ---------------------------------------------------------------------------
  // Metrics

  /** The test "horizon `h` was correct" as a predicate value. */
  function IsCorrect(h: nat): ValidationRow -> bool
    requires h < 3
  {
    (r: ValidationRow) => CheckOf(r, h).correct
  }

  function Errors(rows: seq<ValidationRow>, h: nat): (e: seq<real>)
    requires h < 3
    ensures |e| == |rows| && forall k :: 0 <= k < |rows| ==> e[k] == CheckOf(rows[k], h).error
  {
    seq(|rows|, k requires 0 <= k < |rows| => CheckOf(rows[k], h).error)
  }

  datatype HorizonMetrics = HorizonMetrics(accuracy: real, meanAbsoluteError: real, total: nat, correct: nat)

  /** The metrics of horizon `h` over a non-empty table: the share of
      correct rows, the mean error, the row count and the correct count. */
  function Metrics(rows: seq<ValidationRow>, h: nat): (m: HorizonMetrics)
    requires h < 3 && |rows| > 0
    ensures m.total == |rows| && m.correct <= m.total
    ensures m.correct == CountWhere(rows, IsCorrect(h))
    ensures 0.0 <= m.accuracy <= 1.0 && m.accuracy * (m.total as real) == m.correct as real
    ensures m.meanAbsoluteError * (|rows| as real) == Sum(Errors(rows, h))
  {
    var correct := CountWhere(rows, IsCorrect(h));
    FractionTimes(correct, |rows|);
    HorizonMetrics(Fraction(correct, |rows|), Mean(Errors(rows, h)), |rows|, correct)
  }

  /** With every percentage in `[0, 100]` the mean absolute error lies in `[0, 1]`. */
  lemma MetricsErrorBounded(seizures: seq<int>, preds: seq<Prediction>, h: nat)
    requires h < 3 && |preds| > 0
    requires forall k :: 0 <= k < |preds| ==> 0.0 <= Prob(preds[k].probs, h) <= 100.0
    ensures var rows := seq(|preds|, k requires 0 <= k < |preds| => Validated(seizures, preds[k]));
      0.0 <= Metrics(rows, h).meanAbsoluteError <= 1.0
  {
    var rows := seq(|preds|, k requires 0 <= k < |preds| => Validated(seizures, preds[k]));
    var e := Errors(rows, h);
    forall k | 0 <= k < |e| ensures 0.0 <= e[k] <= 1.0 {
      assert rows[k] == Validated(seizures, preds[k]);
    }
    MeanWithin(e, 0.0, 1.0);
  }

  /** Accuracy over all three horizons: correct checks over three checks per row. */
  function OverallAccuracy(rows: seq<ValidationRow>): (a: real)
    requires |rows| > 0
    ensures 0.0 <= a <= 1.0
  {
    var total := CountWhere(rows, IsCorrect(0)) + CountWhere(rows, IsCorrect(1)) + CountWhere(rows, IsCorrect(2));
    var n := |rows| as real;
    DivBounds(total as real, 3.0 * n, 0.0, 1.0);
    total as real / (3.0 * n)
  }

  /** The overall accuracy is the mean of the three horizons' accuracies. */
  lemma OverallIsMeanOfHorizons(rows: seq<ValidationRow>)
    requires |rows| > 0
    ensures OverallAccuracy(rows) == (Metrics(rows, 0).accuracy + Metrics(rows, 1).accuracy + Metrics(rows, 2).accuracy) / 3.0
  {
    var c0, c1, c2 := CountWhere(rows, IsCorrect(0)), CountWhere(rows, IsCorrect(1)), CountWhere(rows, IsCorrect(2));
    ThirdOfShares(c0 as real, c1 as real, c2 as real, |rows| as real);
  }

  lemma ThirdOfShares(a: real, b: real, c: real, n: real)
    requires n > 0.0
    ensures (a / n + b / n + c / n) / 3.0 == (a + b + c) / (3.0 * n)
  {
  }

  /** The accuracy part of a row's weight: the mean of 1.0 per correct and
      0.5 per wrong horizon. */
  function AccuracyWeight(r: ValidationRow): (w: real)
    ensures 0.5 <= w <= 1.0
    ensures w == 1.0 <==> r.c24.correct && r.c48.correct && r.c72.correct
    ensures w == 0.5 <==> !r.c24.correct && !r.c48.correct && !r.c72.correct
  {
    var a24 := if r.c24.correct then 1.0 else 0.5;
    var a48 := if r.c48.correct then 1.0 else 0.5;
    var a72 := if r.c72.correct then 1.0 else 0.5;
    (a24 + a48 + a72) / 3.0
  }

  /** Whole days between a forecast and `now` (`Timedelta.days`, which floors). */
  function DaysOld(now: int, t: int): int
  {
    (now - t) / Clock.SecondsPerDay
  }

  // ---------------------------------------------------------------------------
  // Features from the forecast history

  /** The features of one forecast, in column order: the mean and spread of
      the 24- and 48-hour percentages over the previous 7 days, the hours
      since the previous forecast, the 24-hour trend over the 7 days, its
      variance, and the jump from the previous forecast. */
  datatype FeatureRow = FeatureRow(time: int, values: seq<Option<real>>)

  const Avg24: nat := 0
  const Std24: nat := 1
  const Avg48: nat := 2
  const Std48: nat := 3
  const HoursSincePrevious: nat := 4
  const Trend24: nat := 5
  const Variance24: nat := 6
  const Spike: nat := 7
  const FeatureCount: nat := 8

  /** The test "made in the 7 days before `t`, `t` excluded". */
  function InRecent(t: int): Prediction -> bool
  {
    (p: Prediction) => t - 7 * Clock.SecondsPerDay <= p.time < t
  }

  /** The forecasts of the 7 days before `t`, in table order. */
  function Recent(preds: seq<Prediction>, t: int): (r: seq<Prediction>)
    ensures forall q :: q in r <==> q in preds && t - 7 * Clock.SecondsPerDay <= q.time < t
  {
    forall q ensures q in Filter(preds, InRecent(t)) <==> q in preds && InRecent(t)(q) {
      FilterMember(preds, InRecent(t), q);
    }
    Filter(preds, InRecent(t))
  }

  /** A horizon's percentages of a list of forecasts. */
  function Percentages(preds: seq<Prediction>, h: nat): (v: seq<real>)
    requires h < 3
    ensures |v| == |preds| && forall k :: 0 <= k < |preds| ==> v[k] == Prob(preds[k].probs, h)
  {
    seq(|preds|, k requires 0 <= k < |preds| => Prob(preds[k].probs, h))
  }

  /** The 24-hour trend over a window of percentages, from two on: the slope
      that, times one less than the count, is the last value minus the first. */
  function Trend(p: seq<real>): (t: Option<real>)
    ensures t.Some? <==> |p| >= 2
    ensures t.Some? ==> t.value * (|p| - 1) as real == p[|p| - 1] - p[0]
  {
    var n := |p|;
    if n >= 2 then
      TrendTimes(p[n - 1] - p[0], n - 1);
      Some((p[n - 1] - p[0]) / (n - 1) as real)
    else None
  }

  /** The features of forecast `i`; the spread and variance estimators
      are parameters. */
  function Features(preds: seq<Prediction>, i: nat, std: seq<real> -> Option<real>, variance: seq<real> -> Option<real>): (f: FeatureRow)
    requires i < |preds|
    ensures f.time == preds[i].time && |f.values| == FeatureCount
  {
    var t := preds[i].time;
    var recent := Recent(preds, t);
    var p24, p48 := Percentages(recent, 0), Percentages(recent, 1);
    var n := |recent|;
    var avg24 := if n > 0 then Some(Mean(p24)) else None;
    var std24 := if n > 0 then std(p24) else None;
    var avg48 := if n > 0 then Some(Mean(p48)) else None;
    var std48 := if n > 0 then std(p48) else None;
    var trend := Trend(p24);
    var var24 := if n > 0 then variance(p24) else None;
    var since := if i > 0 then Some((t - preds[i - 1].time) as real / 3600.0) else None;
    var diff := if i > 0 then preds[i].probs.h24 - preds[i - 1].probs.h24 else 0.0;
    var spike := if i > 0 then Some(if diff >= 0.0 then diff else -diff) else None;
    FeatureRow(t, [avg24, std24, avg48, std48, since, trend, var24, spike])
  }

  /** The loop of `create_prediction_features`: the features of every
      forecast, in table order. */
  method FeatureRows(preds: seq<Prediction>, std: seq<real> -> Option<real>, variance: seq<real> -> Option<real>)
    returns (rows: seq<FeatureRow>)
    ensures |rows| == |preds|
    ensures forall i :: 0 <= i < |preds| ==> rows[i] == Features(preds, i, std, variance)
  {
    rows := [];
    for i := 0 to |preds|
      invariant |rows| == i
      invariant forall k :: 0 <= k < i ==> rows[k] == Features(preds, k, std, variance)
    {
      var row := Features(preds, i, std, variance);
      rows := rows + [row];
    }
  }

  /** What the features of forecast `i` hold: the 7-day statistics exactly
      when some forecast falls in the window (the trend from two on), and
      the gap and the jump from the second forecast on, the jump never
      negative. */
  lemma FeaturesSpec(preds: seq<Prediction>, i: nat, std: seq<real> -> Option<real>, variance: seq<real> -> Option<real>)
    requires i < |preds|
    ensures Features(preds, i, std, variance).values[Avg24].Some? <==> |Recent(preds, preds[i].time)| > 0
    ensures Features(preds, i, std, variance).values[Avg48].Some? <==> |Recent(preds, preds[i].time)| > 0
    ensures |Recent(preds, preds[i].time)| == 0 ==>
      Features(preds, i, std, variance).values[Std24].None? &&
      Features(preds, i, std, variance).values[Std48].None? &&
      Features(preds, i, std, variance).values[Variance24].None?
    ensures Features(preds, i, std, variance).values[Trend24] == Trend(Percentages(Recent(preds, preds[i].time), 0))
    ensures Features(preds, i, std, variance).values[HoursSincePrevious].Some? <==> i > 0
    ensures Features(preds, i, std, variance).values[Spike].Some? <==> i > 0
    ensures i > 0 ==> Features(preds, i, std, variance).values[HoursSincePrevious].value * 3600.0 == (preds[i].time - preds[i - 1].time) as real
    ensures i > 0 ==>
      Features(preds, i, std, variance).values[Spike].value >= 0.0 &&
      (Features(preds, i, std, variance).values[Spike].value == preds[i].probs.h24 - preds[i - 1].probs.h24 ||
      Features(preds, i, std, variance).values[Spike].value == preds[i - 1].probs.h24 - preds[i].probs.h24)
  {
  }

  /** The values of the 7-day statistics when some forecast falls in the
      window: the means of the 24- and 48-hour percentages and the spread
      and variance the estimators give. */
  lemma FeaturesStatistics(preds: seq<Prediction>, i: nat, std: seq<real> -> Option<real>, variance: seq<real> -> Option<real>)
    requires i < |preds| && |Recent(preds, preds[i].time)| > 0
    ensures var f := Features(preds, i, std, variance);
      var p24 := Percentages(Recent(preds, preds[i].time), 0);
      var p48 := Percentages(Recent(preds, preds[i].time), 1);
      f.values[Avg24] == Some(Mean(p24)) && f.values[Avg48] == Some(Mean(p48)) &&
      f.values[Std24] == std(p24) && f.values[Std48] == std(p48) &&
      f.values[Variance24] == variance(p24)
  {
  }

  /** A difference divided by a positive count, times the count, is the difference. */
  lemma TrendTimes(d: real, k: nat)
    requires k > 0
    ensures d / k as real * k as real == d
  {
  }

  /** The recent mean lies between the smallest and the largest recent
      percentage. */
  lemma RecentMeanBetween(preds: seq<Prediction>, i: nat, std: seq<real> -> Option<real>, variance: seq<real> -> Option<real>)
    requires i < |preds|
    requires |Recent(preds, preds[i].time)| > 0
    ensures var p := Percentages(Recent(preds, preds[i].time), 0);
      MinOf(p) <= Features(preds, i, std, variance).values[Avg24].value <= MaxOf(p)
  {
    MeanBetween(Percentages(Recent(preds, preds[i].time), 0));
  }

  predicate ChronologicalPredictions(preds: seq<Prediction>)
  {
    forall j, k :: 0 <= j < k < |preds| ==> preds[j].time <= preds[k].time
  }

  /** On the time-sorted table the recent window holds only earlier
      forecasts: the current one and every later one are excluded. */
  lemma RecentIsEarlier(preds: seq<Prediction>, i: nat, q: Prediction)
    requires i < |preds| && ChronologicalPredictions(preds)
    requires q in Recent(preds, preds[i].time)
    ensures exists k :: 0 <= k < i && preds[k] == q
  {
    var k :| 0 <= k < |preds| && preds[k] == q;
  }

  // ---------------------------------------------------------------------------
  // The feedback object

  /** The state of the validation table: still the initial empty dict, or
      a frame. */
  datatype Validation = NotRun | Table(rows: seq<ValidationRow>)

  datatype MetricsResult = MetricsAttributeError | NoValidationData | Computed(metrics: seq<HorizonMetrics>)

  datatype ReportResult = ReportAttributeError | NoReport | Overall(accuracy: real)

  function PredictionTime(p: Prediction): real
  {
    p.time as real
  }

  /** `PredictionFeedback`: the forecast log and the seizure times once
      loaded (`None` when loading failed or has not happened) and the
      validation table. */
  class PredictionFeedback {
    var predictions: Option<seq<Prediction>>
    var seizures: Option<seq<int>>
    var validation: Validation

    constructor ()
      ensures predictions == None && seizures == None && validation == NotRun
    {
      predictions := None;
      seizures := None;
      validation := NotRun;
    }

    /** `load_predictions` and `load_seizures` with the files already read:
        the forecasts are sorted by time. */
    method Load(preds: Option<seq<Prediction>>, seizureTimes: Option<seq<int>>)
      modifies this
      ensures predictions.Some? <==> preds.Some?
      ensures predictions.Some? ==> multiset(predictions.value) == multiset(preds.value) && ChronologicalPredictions(predictions.value)
      ensures seizures == seizureTimes && validation == old(validation)
    {
      if preds.Some? {
        var sorted := SortBy(preds.value, PredictionTime);
        assert forall j, k :: 0 <= j < k < |sorted| ==> PredictionTime(sorted[j]) <= PredictionTime(sorted[k]);
        predictions := Some(sorted);
      } else {
        predictions := None;
      }
      seizures := seizureTimes;
    }

    /** `validate_predictions`: one row per forecast, in table order; without
        both tables nothing changes. */
    method Validate() returns (ok: bool)
      modifies this
      ensures predictions == old(predictions) && seizures == old(seizures)
      ensures ok <==> predictions.Some? && seizures.Some?
      ensures !ok ==> validation == old(validation)
      ensures ok ==> validation.Table? && |validation.rows| == |predictions.value|
      ensures ok ==> forall i :: 0 <= i < |predictions.value| ==>
        validation.rows[i] == Validated(seizures.value, predictions.value[i])
    {
      if predictions.None? || seizures.None? {
        return false;
      }
      var preds, times := predictions.value, seizures.value;
      var validationResults: seq<ValidationRow> := [];
      for i := 0 to |preds|
        invariant |validationResults| == i
        invariant forall k :: 0 <= k < i ==> validationResults[k] == Validated(times, preds[k])
      {
        validationResults := validationResults + [Validated(times, preds[i])];
      }
      validation := Table(validationResults);
      ok := true;
    }

    /** Re-runs the validation when the table is an empty frame, as the
        metrics, the weights and the report do. */
    method Refresh()
      modifies this
      ensures predictions == old(predictions) && seizures == old(seizures)
      ensures old(validation).NotRun? ==> validation == NotRun
      ensures old(validation).Table? ==> validation.Table?
      ensures old(validation).Table? && |old(validation).rows| > 0 ==> validation == old(validation)
      ensures validation.Table? && |validation.rows| > 0 ==>
        old(validation).Table? && (|old(validation).rows| > 0 || predictions.Some?)
    {
      if validation.Table? && |validation.rows| == 0 {
        var _ := Validate();
      }
    }

    /** `get_validation_metrics`: one entry per horizon over a non-empty
        table; none for an empty one; the initial dict has no `.empty`. */
    method GetMetrics() returns (r: MetricsResult)
      modifies this
      ensures predictions == old(predictions) && seizures == old(seizures)
      ensures old(validation).NotRun? <==> r == MetricsAttributeError
      ensures r.Computed? ==>
        validation.Table? && |validation.rows| > 0 &&
        r.metrics == [Metrics(validation.rows, 0), Metrics(validation.rows, 1), Metrics(validation.rows, 2)]
      ensures r == NoValidationData ==> validation.Table? && |validation.rows| == 0
      ensures old(validation).Table? ==> validation.Table?
    {
      if validation.NotRun? {
        return MetricsAttributeError;
      }
      Refresh();
      if |validation.rows| == 0 {
        return NoValidationData;
      }
      var rows := validation.rows;
      r := Computed([Metrics(rows, 0), Metrics(rows, 1), Metrics(rows, 2)]);
    }

    /** The weights of `create_recency_weights`: a decay of the age in
        days (a parameter) times the accuracy weight. `None` on the
        initial dict. */
    method RecencyWeights(now: int, decay: int -> real) returns (r: Option<seq<real>>)
      modifies this
      ensures old(validation).NotRun? <==> r.None?
      ensures r.Some? ==> validation.Table? && |r.value| == |validation.rows|
      ensures r.Some? ==> forall i :: 0 <= i < |r.value| ==>
        r.value[i] == decay(DaysOld(now, validation.rows[i].time)) * AccuracyWeight(validation.rows[i])
    {
      if validation.NotRun? {
        return None;
      }
      Refresh();
      var rows := validation.rows;
      var weights: seq<real> := [];
      for i := 0 to |rows|
        invariant |weights| == i
        invariant forall k :: 0 <= k < i ==> weights[k] == decay(DaysOld(now, rows[k].time)) * AccuracyWeight(rows[k])
      {
        var recencyWeight := decay(DaysOld(now, rows[i].time));
        weights := weights + [recencyWeight * AccuracyWeight(rows[i])];
      }
      r := Some(weights);
    }

    /** The overall figure of `print_validation_report`. */
    method Report() returns (r: ReportResult)
      modifies this
      ensures old(validation).NotRun? <==> r == ReportAttributeError
      ensures r.Overall? ==>
        validation.Table? && |validation.rows| > 0 &&
        r.accuracy == OverallAccuracy(validation.rows) && 0.0 <= r.accuracy <= 1.0
      ensures old(validation).Table? ==> validation.Table? && (r == NoReport <==> |validation.rows| == 0)
      ensures old(validation).Table? ==> (r.Overall? <==> |validation.rows| > 0)
    {
      if validation.NotRun? {
        return ReportAttributeError;
      }
      Refresh();
      var metrics := GetMetrics();
      if !metrics.Computed? {
        return NoReport;
      }
      r := Overall(OverallAccuracy(validation.rows));
    }

    /** `create_prediction_features`: one row per forecast, in table order;
        `None` when no forecast log is loaded, where the loop raises. */
    method CreatePredictionFeatures(std: seq<real> -> Option<real>, variance: seq<real> -> Option<real>)
      returns (r: Option<seq<FeatureRow>>)
      ensures r.None? <==> predictions.None?
      ensures r.Some? ==>
        |r.value| == |predictions.value| &&
        forall i :: 0 <= i < |r.value| ==> r.value[i] == Features(predictions.value, i, std, variance)
    {
      if predictions.None? {
        return None;
      }
      var featuresList := FeatureRows(predictions.value, std, variance);
      r := Some(featuresList);
    }
  }
}
