/** Naive local timestamps as whole seconds since 1970-01-01 00:00:00.
    Hour of day, calendar day, weekday, month and day of month are derived
    arithmetically; no time zone is ever applied. */
module Clock {

  const SecondsPerHour: int := 3600
  const SecondsPerDay: int := 86400

  /** Start of the hour that contains `t` (pandas `floor('H')`). */
  function FloorHour(t: int): (r: int)
    ensures r <= t < r + SecondsPerHour
    ensures r % SecondsPerHour == 0
  {
    t - t % SecondsPerHour
  }

  /** Smallest hour boundary at or after `t` (pandas `ceil('H')`). */
  function CeilHour(t: int): (r: int)
    ensures t <= r < t + SecondsPerHour
    ensures r % SecondsPerHour == 0
    ensures r == FloorHour(t) || r == FloorHour(t) + SecondsPerHour
  {
    if t % SecondsPerHour == 0 then t else FloorHour(t) + SecondsPerHour
  }

  /** An hour boundary `h` is the floored hour of `t` exactly when `t` lies in `[h, h + 1 hour)`. */
  lemma FloorHourIff(t: int, h: int)
    requires h % SecondsPerHour == 0
    ensures FloorHour(t) == h <==> h <= t < h + SecondsPerHour
  {
    var f := FloorHour(t);
    if h <= t < h + SecondsPerHour && f != h {
      if f < h { DivisibleGap(f, h); } else { DivisibleGap(h, f); }
    }
  }

  /** Two distinct multiples of an hour are at least an hour apart. */
  lemma DivisibleGap(a: int, b: int)
    requires a % SecondsPerHour == 0 && b % SecondsPerHour == 0 && a < b
    ensures a + SecondsPerHour <= b
  {
    var qa, qb := a / SecondsPerHour, b / SecondsPerHour;
    assert a == qa * SecondsPerHour && b == qb * SecondsPerHour;
    assert qa < qb;
  }

  /** The gap between two hour boundaries is a whole number of hours. */
  lemma DivisibleDifference(a: int, b: int)
    requires a % SecondsPerHour == 0 && b % SecondsPerHour == 0
    ensures (b - a) % SecondsPerHour == 0
    ensures (b - a) / SecondsPerHour * SecondsPerHour == b - a
  {
    var qa, qb := a / SecondsPerHour, b / SecondsPerHour;
    assert a == qa * SecondsPerHour && b == qb * SecondsPerHour;
    assert b - a == (qb - qa) * SecondsPerHour;
  }

  /** Flooring to the hour keeps the order. */
  lemma FloorHourMonotone(a: int, b: int)
    requires a <= b
    ensures FloorHour(a) <= FloorHour(b)
  {
    if FloorHour(b) < FloorHour(a) {
      DivisibleGap(FloorHour(b), FloorHour(a));
    }
  }

  /** Hour of day, 0..23 (`.dt.hour`). */
  function HourOf(t: int): (h: int)
    ensures 0 <= h < 24
  {
    (t % SecondsPerDay) / SecondsPerHour
  }

  /** Calendar day number, days since 1970-01-01 (`.dt.date`). */
  function DayOf(t: int): (d: int)
    ensures d * SecondsPerDay <= t < d * SecondsPerDay + SecondsPerDay
  {
    t / SecondsPerDay
  }

  /** Weekday with Monday = 0 … Sunday = 6 (`.dt.dayofweek`); 1970-01-01 was a Thursday. */
  function Weekday(t: int): (w: int)
    ensures 0 <= w < 7
  {
    (DayOf(t) + 3) % 7
  }

  /** Whole days of `b - a` as Python's `timedelta.days`, which floors. */
  function WholeDays(a: int, b: int): (d: int)
    ensures d * SecondsPerDay <= b - a < d * SecondsPerDay + SecondsPerDay
  {
    (b - a) / SecondsPerDay
  }

  /** Civil (proleptic Gregorian) date of a day number as (year, month, day),
      by the usual days-to-civil conversion over 400-year eras of 146097
      days, each year counted from March 1 so that a leap day comes last.
      The month is 1..12, the day 1..31, and converting the date back gives
      the day number again. */
  function CivilFromDays(days: int): (r: (int, int, int))
    ensures 1 <= r.1 <= 12 && 1 <= r.2 <= 31
  {
    var z := days + 719468;
    var era := z / 146097;
    var doe := z - era * 146097;
    var yoe := (doe - doe / 1460 + doe / 36524 - doe / 146096) / 365;
    var doy := doe - (365 * yoe + yoe / 4 - yoe / 100);
    YearOfEraRange(doe);
    var mp := (5 * doy + 2) / 153;
    var d := doy - (153 * mp + 2) / 5 + 1;
    var m := if mp < 10 then mp + 3 else mp - 9;
    var y := yoe + era * 400;
    MonthOfYearRange(doy);
    (if m <= 2 then y + 1 else y, m, d)
  }

  /** Converting a day number to its civil date and back gives the day
      number again, so no two day numbers share a date. */
  lemma CivilRoundTrip(days: int)
    ensures var r := CivilFromDays(days); DaysFromCivil(r.0, r.1, r.2) == days
  {
    var z := days + 719468;
    var era := z / 146097;
    var doe := z - era * 146097;
    var yoe := (doe - doe / 1460 + doe / 36524 - doe / 146096) / 365;
    var doy := doe - (365 * yoe + yoe / 4 - yoe / 100);
    YearOfEraRange(doe);
    MonthOfYearRange(doy);
    var mp := (5 * doy + 2) / 153;
    var m := if mp < 10 then mp + 3 else mp - 9;
    var r := CivilFromDays(days);
    assert r.1 == m;
    assert (if m > 2 then m - 3 else m + 9) == mp;
    var y := if m <= 2 then r.0 - 1 else r.0;
    assert y == yoe + era * 400;
    EraOfYear(era, yoe);
  }

  /** The era and year of era of a year are recovered by flooring division. */
  lemma EraOfYear(era: int, yoe: int)
    requires 0 <= yoe < 400
    ensures (yoe + era * 400) / 400 == era
  {
  }

  /** Day number of a civil date, the inverse conversion. */
  function DaysFromCivil(year: int, month: int, day: int): int
  {
    var y := if month <= 2 then year - 1 else year;
    var era := y / 400;
    var yoe := y - era * 400;
    var mp := if month > 2 then month - 3 else month + 9;
    var doy := (153 * mp + 2) / 5 + day - 1;
    var doe := 365 * yoe + yoe / 4 - yoe / 100 + doy;
    era * 146097 + doe - 719468
  }

  /** The year of an era and the day of that year computed from the day of
      the era are in range: a year 0..399, a day 0..365. */
  lemma YearOfEraRange(doe: int)
    requires 0 <= doe < 146097
    ensures var yoe := (doe - doe / 1460 + doe / 36524 - doe / 146096) / 365;
      0 <= yoe < 400 && 0 <= doe - (365 * yoe + yoe / 4 - yoe / 100) <= 365
  {
    if doe < 146096 {
      var c, q, s := EraSplit(doe);
      YearOfEraParts(c, q, s);
    }
  }

  /** A day of the era below its last day, split into centuries of 36524
      days, four-year cycles of 1461 days and a remainder. */
  lemma EraSplit(doe: int) returns (c: int, q: int, s: int)
    requires 0 <= doe < 146096
    ensures doe == 36524 * c + 1461 * q + s
    ensures 0 <= c < 4 && 0 <= q < 25 && 0 <= s < 1461 && (q == 24 ==> s < 1460)
  {
    c := doe / 36524;
    var r := doe - 36524 * c;
    q := r / 1461;
    s := r - 1461 * q;
  }

  lemma YearOfEraParts(c: int, q: int, s: int)
    requires 0 <= c < 4 && 0 <= q < 25 && 0 <= s < 1461 && (q == 24 ==> s < 1460)
    ensures var doe := 36524 * c + 1461 * q + s;
      var yoe := (doe - doe / 1460 + doe / 36524 - doe / 146096) / 365;
      0 <= yoe < 400 && 0 <= doe - (365 * yoe + yoe / 4 - yoe / 100) <= 365
  {
    var doe := 36524 * c + 1461 * q + s;
    var delta := if 24 * c + q + s >= 1460 then 1 else 0;
    assert doe / 36524 == c;
    assert doe / 146096 == 0;
    Quotient1460(c, q, s, delta);
    assert doe - doe / 1460 + doe / 36524 - doe / 146096 == 365 * (100 * c + 4 * q) + (s - delta);
    YearSplit(c, q, s - delta);
  }

  lemma Quotient1460(c: int, q: int, s: int, delta: int)
    requires 0 <= c < 4 && 0 <= q < 25 && 0 <= s < 1461
    requires delta == if 24 * c + q + s >= 1460 then 1 else 0
    ensures (36524 * c + 1461 * q + s) / 1460 == 25 * c + q + delta
  {
    assert 36524 * c + 1461 * q + s == 1460 * (25 * c + q + delta) + (24 * c + q + s - 1460 * delta);
  }

  lemma YearSplit(c: int, q: int, e: int)
    requires 0 <= c < 4 && 0 <= q < 25 && 0 <= e < 1460
    ensures var yoe := (365 * (100 * c + 4 * q) + e) / 365;
      yoe == 100 * c + 4 * q + e / 365 && yoe / 4 == 25 * c + q && yoe / 100 == c
  {
    assert 0 <= e / 365 < 4;
  }

  /** A day 0..365 of a March-based year falls in month 0..11 of that year,
      on day 1..31 of it. */
  lemma MonthOfYearRange(doy: int)
    requires 0 <= doy <= 365
    ensures var mp := (5 * doy + 2) / 153;
      0 <= mp < 12 && 1 <= doy - (153 * mp + 2) / 5 + 1 <= 31
  {
  }

  /** Month of a timestamp (`.dt.month`). */
  function MonthOf(t: int): (m: int)
    ensures 1 <= m <= 12
  {
    CivilFromDays(DayOf(t)).1
  }

  /** Day of month of a timestamp (`.dt.day`). */
  function DayOfMonth(t: int): (d: int)
    ensures 1 <= d <= 31
  {
    CivilFromDays(DayOf(t)).2
  }
}
