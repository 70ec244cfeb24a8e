/** The forecasting entry point: the hourly forecast rows built from the
    latest feature row, the probability bands, and the run that reduces
    three forecasts to the 24/48/72-hour percentages it writes out. */
module Predict {
  import opened Seqs
  import Clock
  import FE = FeatureEngineering
  import Outputs

  // ---------------------------------------------------------------------------
  // Risk bands

  datatype RiskLevel = Low | Moderate | Elevated | High | VeryHigh

  /** The position of a band, from 0 (Low) to 4 (Very High). */
  function Rank(r: RiskLevel): nat
  {
    match r
    case Low => 0
    case Moderate => 1
    case Elevated => 2
    case High => 3
    case VeryHigh => 4
  }

  /** `_get_risk_level`: bands of width 0.2, each boundary in the upper band. */
  function RiskOf(p: real): (r: RiskLevel)
    ensures r == Low <==> p < 0.2
    ensures r == Moderate <==> 0.2 <= p < 0.4
    ensures r == Elevated <==> 0.4 <= p < 0.6
    ensures r == High <==> 0.6 <= p < 0.8
    ensures r == VeryHigh <==> 0.8 <= p
  {
    if p < 0.2 then Low
    else if p < 0.4 then Moderate
    else if p < 0.6 then Elevated
    else if p < 0.8 then High
    else VeryHigh
  }

  /** A higher probability never falls in a lower band. */
  lemma RiskMonotone(p: real, q: real)
    requires p <= q
    ensures Rank(RiskOf(p)) <= Rank(RiskOf(q))
  {
  }

  /** The high-risk alert of the summary. */
  predicate HighRiskAlert(p: real)
  {
    p > 0.6
  }

  /** An alert is raised exactly on the High and Very High bands, except at
      0.6 itself, which is High but raises no alert. */
  lemma AlertAndBands(p: real)
    ensures HighRiskAlert(p) ==> Rank(RiskOf(p)) >= 3
    ensures Rank(RiskOf(p)) >= 3 && p != 0.6 ==> HighRiskAlert(p)
    ensures RiskOf(0.6) == High && !HighRiskAlert(0.6)
  {
  }

  // ---------------------------------------------------------------------------
  // Forecast rows

  /** The latest feature row used as the template: the hours since the last
      seizure, the `seizures_past_*` counts and every other feature (all
      possibly missing). */
  datatype Template = Template(hoursSince: Option<real>, pastCounts: seq<Option<real>>, rest: seq<Option<real>>)

  /** One forecast row before filling. */
  datatype ForecastRow = ForecastRow(time: int, hour: int, dayOfWeek: int, dayOfMonth: int, month: int, isWeekend: int,
                                     hoursSince: Option<real>, pastCounts: seq<Option<real>>, rest: seq<Option<real>>)

  /** The `k`-th hour of the forecast. */
  function ForecastTime(now: int, k: nat): int
  {
    Clock.FloorHour(now) + k * Clock.SecondsPerHour
  }

  /** The row for time `t`: the calendar features of `t`, the hours since
      the latest seizure when there is one (the template's value otherwise),
      and the template's counts and features. */
  function RowAt(template: Template, seizures: seq<int>, t: int): (r: ForecastRow)
    ensures r.time == t && r.hour == Clock.HourOf(t) && r.dayOfWeek == Clock.Weekday(t)
    ensures r.dayOfMonth == Clock.DayOfMonth(t) && r.month == Clock.MonthOf(t)
    ensures r.isWeekend == FE.IsWeekend(t)
    ensures r.pastCounts == template.pastCounts && r.rest == template.rest
    ensures |seizures| == 0 ==> r.hoursSince == template.hoursSince
    ensures |seizures| > 0 ==> r.hoursSince.Some? && r.hoursSince.value * 3600.0 == (t - seizures[|seizures| - 1]) as real
  {
    var w := Clock.Weekday(t);
    ForecastRow(t, Clock.HourOf(t), w, Clock.DayOfMonth(t), Clock.MonthOf(t), if w >= 5 then 1 else 0,
                if |seizures| > 0 then Some((t - seizures[|seizures| - 1]) as real / 3600.0) else template.hoursSince,
                template.pastCounts, template.rest)
  }

  /** The forecast loop of `get_forecast`: one row per hour from `now`
      floored to the hour. */
  method ForecastRows(now: int, hoursAhead: nat, template: Template, seizures: seq<int>) returns (rows: seq<ForecastRow>)
    ensures |rows| == hoursAhead
    ensures forall k :: 0 <= k < hoursAhead ==> rows[k] == RowAt(template, seizures, ForecastTime(now, k))
  {
    rows := [];
    for k := 0 to hoursAhead
      invariant |rows| == k
      invariant forall j :: 0 <= j < k ==> rows[j] == RowAt(template, seizures, ForecastTime(now, j))
    {
      var futureTime := ForecastTime(now, k);
      rows := rows + [RowAt(template, seizures, futureTime)];
    }
  }

  /** The rows are consecutive whole hours starting at the current hour,
      and the hours since the last seizure grow by one per row. */
  lemma ForecastRowsConsecutive(now: int, template: Template, seizures: seq<int>, k: nat)
    ensures ForecastTime(now, 0) == Clock.FloorHour(now) && ForecastTime(now, k) % Clock.SecondsPerHour == 0
    ensures ForecastTime(now, k + 1) - ForecastTime(now, k) == Clock.SecondsPerHour
    ensures |seizures| > 0 ==>
      RowAt(template, seizures, ForecastTime(now, k + 1)).hoursSince.value ==
      RowAt(template, seizures, ForecastTime(now, k)).hoursSince.value + 1.0
  {
    var t := ForecastTime(now, k);
    assert t % Clock.SecondsPerHour == 0 by {
      assert t == Clock.FloorHour(now) + k * Clock.SecondsPerHour;
    }
  }

  /** A missing feature after `fillna(mean)` then `fillna(0)`. Every copied
      column is constant over the forecast rows, so its mean is missing
      exactly when the value is, and the fill gives 0. */
  function FillMissing(v: Option<real>): (x: real)
    ensures v.Some? ==> x == v.value
    ensures v.None? ==> x == 0.0
  {
    if v.Some? then v.value else 0.0
  }

  /** A forecast row as the model sees it. */
  datatype FilledRow = FilledRow(hour: int, dayOfWeek: int, dayOfMonth: int, month: int, isWeekend: int,
                                 hoursSince: real, pastCounts: seq<real>, rest: seq<real>)

  function Filled(r: ForecastRow): (f: FilledRow)
    ensures f.hour == r.hour && f.isWeekend == r.isWeekend && f.hoursSince == FillMissing(r.hoursSince)
    ensures f.dayOfWeek == r.dayOfWeek && f.dayOfMonth == r.dayOfMonth && f.month == r.month
    ensures |f.pastCounts| == |r.pastCounts| && |f.rest| == |r.rest|
    ensures forall k :: 0 <= k < |f.pastCounts| ==> f.pastCounts[k] == FillMissing(r.pastCounts[k])
    ensures forall k :: 0 <= k < |f.rest| ==> f.rest[k] == FillMissing(r.rest[k])
  {
    FilledRow(r.hour, r.dayOfWeek, r.dayOfMonth, r.month, r.isWeekend, FillMissing(r.hoursSince),
              seq(|r.pastCounts|, k requires 0 <= k < |r.pastCounts| => FillMissing(r.pastCounts[k])),
              seq(|r.rest|, k requires 0 <= k < |r.rest| => FillMissing(r.rest[k])))
  }

  /** A trained model: the seizure probability of one row. */
  type Model = FilledRow -> real

  /** The model's probability for the forecast row of time `t`. */
  function ProbabilityAt(template: Template, seizures: seq<int>, model: Model, t: int): real
  {
    model(Filled(RowAt(template, seizures, t)))
  }

  /** One line of the forecast: its hour, probability and band. */
  datatype Forecast = Forecast(time: int, probability: real, risk: RiskLevel)

  /** `get_forecast`: `None` when there is no feature row to use as the
      template, where taking the first row of the empty frame raises. */
  method GetForecast(now: int, hoursAhead: nat, template: Option<Template>, seizures: seq<int>, model: Model)
    returns (r: Option<seq<Forecast>>)
    ensures r.None? <==> template.None?
    ensures r.Some? ==> |r.value| == hoursAhead
    ensures r.Some? ==> forall k :: 0 <= k < hoursAhead ==>
      r.value[k].time == ForecastTime(now, k) &&
      r.value[k].probability == ProbabilityAt(template.value, seizures, model, ForecastTime(now, k)) &&
      r.value[k].risk == RiskOf(r.value[k].probability)
  {
    if template.None? {
      return None;
    }
    var rows := ForecastRows(now, hoursAhead, template.value, seizures);
    var forecast: seq<Forecast> := [];
    for k := 0 to hoursAhead
      invariant |forecast| == k
      invariant forall j :: 0 <= j < k ==>
        forecast[j].time == ForecastTime(now, j) &&
        forecast[j].probability == ProbabilityAt(template.value, seizures, model, ForecastTime(now, j)) &&
        forecast[j].risk == RiskOf(forecast[j].probability)
    {
      var p := ProbabilityAt(template.value, seizures, model, rows[k].time);
      forecast := forecast + [Forecast(rows[k].time, p, RiskOf(p))];
    }
    r := Some(forecast);
  }

  /** The highest probability of a forecast, as a percentage. */
  function MaxPercent(f: seq<Forecast>): (m: real)
    requires |f| > 0
    ensures forall k :: 0 <= k < |f| ==> f[k].probability * 100.0 <= m
    ensures exists k :: 0 <= k < |f| && m == f[k].probability * 100.0
  {
    var p := seq(|f|, k requires 0 <= k < |f| => f[k].probability);
    var k :| 0 <= k < |p| && p[k] == MaxOf(p);
    assert forall j :: 0 <= j < |f| ==> f[j].probability * 100.0 <= MaxOf(p) * 100.0 by {
      forall j | 0 <= j < |f| ensures f[j].probability * 100.0 <= MaxOf(p) * 100.0 {
        assert p[j] == f[j].probability;
      }
    }
    MaxOf(p) * 100.0
  }

  /** `main`: three forecasts of 24, 48 and 72 hours, each made at its own
      reading of the clock, reduced to their highest percentages and
      written out. */
  method Run(store: Outputs.Store, now24: int, now48: int, now72: int, logTime: int,
              template: Option<Template>, seizures: seq<int>, model: Model)
    returns (r: Option<Outputs.Horizons>)
    modifies store
    ensures r.None? <==> template.None?
    ensures r.None? ==> store.text == old(store.text) && store.log == old(store.log)
    ensures r.Some? ==> store.text == Outputs.OutputLines(r.value)
    ensures r.Some? ==> store.log == Outputs.Entries(Outputs.Appended(old(store.log), logTime, r.value))
    ensures r.Some? && Clock.FloorHour(now24) == Clock.FloorHour(now48) == Clock.FloorHour(now72) ==>
      r.value.h24 <= r.value.h48 <= r.value.h72
  {
    var f24 := GetForecast(now24, 24, template, seizures, model);
    var f48 := GetForecast(now48, 48, template, seizures, model);
    var f72 := GetForecast(now72, 72, template, seizures, model);
    if template.None? {
      return None;
    }
    var h := Outputs.Horizons(MaxPercent(f24.value), MaxPercent(f48.value), MaxPercent(f72.value));
    if Clock.FloorHour(now24) == Clock.FloorHour(now48) == Clock.FloorHour(now72) {
      SameHourOrdered(f24.value, f48.value, f72.value, now24, now48, now72, template.value, seizures, model);
    }
    store.WriteOutputs(logTime, h);
    r := Some(h);
  }

  predicate IsForecast(f: seq<Forecast>, now: int, template: Template, seizures: seq<int>, model: Model)
  {
    forall k :: 0 <= k < |f| ==> f[k].probability == ProbabilityAt(template, seizures, model, ForecastTime(now, k))
  }

  /** Forecasts of 24, 48 and 72 hours made in the same hour give ordered
      percentages. */
  lemma SameHourOrdered(f24: seq<Forecast>, f48: seq<Forecast>, f72: seq<Forecast>, now24: int, now48: int, now72: int,
                        template: Template, seizures: seq<int>, model: Model)
    requires |f24| == 24 && |f48| == 48 && |f72| == 72
    requires Clock.FloorHour(now24) == Clock.FloorHour(now48) == Clock.FloorHour(now72)
    requires IsForecast(f24, now24, template, seizures, model)
    requires IsForecast(f48, now48, template, seizures, model)
    requires IsForecast(f72, now72, template, seizures, model)
    ensures MaxPercent(f24) <= MaxPercent(f48) <= MaxPercent(f72)
  {
    assert forall k: nat :: ForecastTime(now48, k) == ForecastTime(now24, k) && ForecastTime(now72, k) == ForecastTime(now24, k);
    LongerForecastHigher(f24, f48);
    LongerForecastHigher(f48, f72);
  }

  /** A longer forecast that agrees with a shorter one on their common
      hours, as two made in the same hour do, never has a lower maximum. */
  lemma LongerForecastHigher(short: seq<Forecast>, long: seq<Forecast>)
    requires 0 < |short| <= |long|
    requires forall k :: 0 <= k < |short| ==> short[k].probability == long[k].probability
    ensures MaxPercent(short) <= MaxPercent(long)
  {
    var k :| 0 <= k < |short| && MaxPercent(short) == short[k].probability * 100.0;
    assert long[k].probability * 100.0 <= MaxPercent(long);
  }
}
