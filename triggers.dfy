/** The trigger analysis of the forecasting pipeline: when seizures happen
    (hour and weekday tables with their peaks), what the hourly frame looked
    like in the hours before each seizure (heart rate, sleep, pain, activity),
    how often food was eaten beforehand, and the gaps between consecutive
    seizures. `TriggerAnalyzer` collects the sections in its `results` map. */
module Triggers {
  import opened Seqs
  import Clock
  import Grid

  // ---------------------------------------------------------------------------
  // Temporal patterns

  /** Hour of day of every seizure, in table order. */
  function Hours(s: seq<Grid.SeizureRecord>): (h: seq<int>)
    ensures |h| == |s|
    ensures forall i :: 0 <= i < |s| ==> 0 <= h[i] < 24
  {
    seq(|s|, i requires 0 <= i < |s| => Clock.HourOf(s[i].time))
  }

  /** Weekday of every seizure, Monday = 0. */
  function Weekdays(s: seq<Grid.SeizureRecord>): (d: seq<int>)
    ensures |d| == |s|
    ensures forall i :: 0 <= i < |s| ==> 0 <= d[i] < 7
  {
    seq(|s|, i requires 0 <= i < |s| => Clock.Weekday(s[i].time))
  }

  /** Sort key that puts larger counts first. */
  function ByCount(e: (int, nat)): real
  {
    -(e.1 as real)
  }

  /** `nlargest(n)`: the `n` entries with the largest counts, largest first
      (all of them when the table is shorter). */
  function Largest(t: seq<(int, nat)>, n: nat): (r: seq<(int, nat)>)
    ensures |r| == if |t| < n then |t| else n
  {
    var s := SortBy(t, ByCount);
    s[..if |s| < n then |s| else n]
  }

  /** The entries `nlargest` picks are a sub-bag of the table, listed with
      non-increasing counts, and every entry it leaves out has a count no
      greater than any it picks. */
  lemma LargestSpec(t: seq<(int, nat)>, n: nat)
    ensures multiset(Largest(t, n)) <= multiset(t)
    ensures forall e :: e in Largest(t, n) ==> e in t
    ensures forall i, j :: 0 <= i < j < |Largest(t, n)| ==> Largest(t, n)[i].1 >= Largest(t, n)[j].1
    ensures forall i, e :: 0 <= i < |Largest(t, n)| && e in t && e !in Largest(t, n) ==> e.1 <= Largest(t, n)[i].1
  {
    var s := SortBy(t, ByCount);
    var r := Largest(t, n);
    var m := |r|;
    assert r == s[..m];
    LargestSubBag(t, n);
    LargestDescending(t, n);
    forall e | e in r ensures e in t {
      var j :| 0 <= j < m && r[j] == e;
      assert s[j] in multiset(s);
    }
    assert forall j :: 0 <= j < m ==> s[j] in r;
    forall i, e | 0 <= i < m && e in t && e !in r
      ensures e.1 <= r[i].1
    {
      assert e in multiset(s);
      var j :| 0 <= j < |s| && s[j] == e;
      assert j >= m;
      assert ByCount(s[i]) <= ByCount(s[j]);
    }
  }

  lemma LargestSubBag(t: seq<(int, nat)>, n: nat)
    ensures multiset(Largest(t, n)) <= multiset(t)
  {
    var s := SortBy(t, ByCount);
    var m := |Largest(t, n)|;
    assert s == s[..m] + s[m..];
    assert multiset(s) == multiset(s[..m]) + multiset(s[m..]);
  }

  lemma LargestDescending(t: seq<(int, nat)>, n: nat)
    ensures forall i, j :: 0 <= i < j < |Largest(t, n)| ==> Largest(t, n)[i].1 >= Largest(t, n)[j].1
  {
    var s := SortBy(t, ByCount);
    var r := Largest(t, n);
    forall i, j | 0 <= i < j < |r| ensures r[i].1 >= r[j].1 {
      assert r[i] == s[i] && r[j] == s[j];
      assert ByCount(s[i]) <= ByCount(s[j]);
    }
  }

  /** The keys of a table, in its order. */
  function Keys(t: seq<(int, nat)>): (k: seq<int>)
    ensures |k| == |t|
    ensures forall i :: 0 <= i < |t| ==> k[i] == t[i].0
  {
    seq(|t|, i requires 0 <= i < |t| => t[i].0)
  }

  /** The keys of the `m` largest entries of the frequency table of `keys`
      over `lo .. lo + n - 1`. */
  function Peaks(keys: seq<int>, lo: int, n: nat, m: nat): (p: seq<int>)
    ensures |p| <= m
  {
    Keys(Largest(FreqTable(keys, lo, n), m))
  }

  datatype TemporalResult = TemporalResult(
    hourDistribution: seq<(int, nat)>,
    dayDistribution: seq<(int, nat)>,
    peakHours: seq<int>,
    peakDays: seq<int>)

  /** `_analyze_temporal_patterns`: per-hour counts in ascending hour order,
      per-weekday counts, the three busiest hours and the two busiest days. */
  function TemporalPatterns(s: seq<Grid.SeizureRecord>): (r: TemporalResult)
    ensures |r.peakHours| <= 3 && |r.peakDays| <= 2
  {
    TemporalResult(FreqTable(Hours(s), 0, 24), FreqTable(Weekdays(s), 0, 7), Peaks(Hours(s), 0, 24, 3), Peaks(Weekdays(s), 0, 7, 2))
  }

  /** The hour table lists each hour that has seizures once, in ascending
      order, with its count, and the weekday table does the same for the
      weekdays; every hour (weekday) that has seizures has its entry, and the
      counts of each table add up to the number of seizures. */
  lemma TemporalDistributions(s: seq<Grid.SeizureRecord>)
    ensures KeysAscend(TemporalPatterns(s).hourDistribution)
    ensures forall e :: e in TemporalPatterns(s).hourDistribution ==>
      0 <= e.0 < 24 && e.1 > 0 && e.1 == CountKey(Hours(s), e.0)
    ensures forall h :: 0 <= h < 24 && CountKey(Hours(s), h) > 0 ==>
      (h, CountKey(Hours(s), h)) in TemporalPatterns(s).hourDistribution
    ensures KeysAscend(TemporalPatterns(s).dayDistribution)
    ensures forall e :: e in TemporalPatterns(s).dayDistribution ==>
      0 <= e.0 < 7 && e.1 > 0 && e.1 == CountKey(Weekdays(s), e.0)
    ensures forall d :: 0 <= d < 7 && CountKey(Weekdays(s), d) > 0 ==>
      (d, CountKey(Weekdays(s), d)) in TemporalPatterns(s).dayDistribution
    ensures TableTotal(TemporalPatterns(s).hourDistribution) == |s|
    ensures TableTotal(TemporalPatterns(s).dayDistribution) == |s|
  {
    FreqTableSound(Hours(s), 0, 24);
    FreqTableTotal(Hours(s), 0, 24);
    SumCountsTotal(Hours(s), 0, 24);
    FreqTableSound(Weekdays(s), 0, 7);
    FreqTableTotal(Weekdays(s), 0, 7);
    SumCountsTotal(Weekdays(s), 0, 7);
    forall h | 0 <= h < 24 && CountKey(Hours(s), h) > 0
      ensures (h, CountKey(Hours(s), h)) in FreqTable(Hours(s), 0, 24)
    {
      FreqTableComplete(Hours(s), 0, 24, h);
    }
    forall d | 0 <= d < 7 && CountKey(Weekdays(s), d) > 0
      ensures (d, CountKey(Weekdays(s), d)) in FreqTable(Weekdays(s), 0, 7)
    {
      FreqTableComplete(Weekdays(s), 0, 7, d);
    }
  }

  /** The keys `nlargest` picks from a frequency table occur among the keys,
      and no key of the table's range left out has more occurrences than a
      picked one. */
  lemma PeaksAreBusiest(keys: seq<int>, lo: int, n: nat, m: nat)
    ensures var top := Peaks(keys, lo, n, m);
      forall i :: 0 <= i < |top| ==> lo <= top[i] < lo + n && CountKey(keys, top[i]) > 0
    ensures var top := Peaks(keys, lo, n, m);
      forall i, j :: 0 <= i < j < |top| ==> top[i] != top[j] && CountKey(keys, top[i]) >= CountKey(keys, top[j])
    ensures var top := Peaks(keys, lo, n, m);
      forall i, k :: 0 <= i < |top| && lo <= k < lo + n && k !in top ==> CountKey(keys, k) <= CountKey(keys, top[i])
  {
    var t := FreqTable(keys, lo, n);
    var l := Largest(t, m);
    var top := Keys(l);
    FreqTableSound(keys, lo, n);
    LargestSpec(t, m);
    forall i | 0 <= i < |top|
      ensures lo <= top[i] < lo + n && CountKey(keys, top[i]) > 0
    {
      assert l[i] in l;
    }
    assert Distinct(t) by {
      forall i, j | 0 <= i < j < |t| ensures t[i] != t[j] {
        assert t[i].0 < t[j].0;
      }
    }
    DistinctSubBag(l, t);
    forall i, j | 0 <= i < j < |top|
      ensures top[i] != top[j] && CountKey(keys, top[i]) >= CountKey(keys, top[j])
    {
      assert l[i] in l && l[j] in l;
      assert l[i] != l[j];
    }
    forall i, k | 0 <= i < |top| && lo <= k < lo + n && k !in top
      ensures CountKey(keys, k) <= CountKey(keys, top[i])
    {
      assert l[i] in l;
      var c := CountKey(keys, k);
      if c > 0 {
        FreqTableComplete(keys, lo, n, k);
        assert (k, c) !in l;
      }
    }
  }

  /** Each peak hour (peak day) has seizures, and no hour (weekday) left out
      of the peaks has more seizures than a peak one. */
  lemma PeaksOfTemporalPatterns(s: seq<Grid.SeizureRecord>)
    ensures var r := TemporalPatterns(s);
      forall i, h :: 0 <= i < |r.peakHours| && 0 <= h < 24 && h !in r.peakHours ==>
        CountKey(Hours(s), h) <= CountKey(Hours(s), r.peakHours[i])
    ensures var r := TemporalPatterns(s);
      forall i, d :: 0 <= i < |r.peakDays| && 0 <= d < 7 && d !in r.peakDays ==>
        CountKey(Weekdays(s), d) <= CountKey(Weekdays(s), r.peakDays[i])
    ensures var r := TemporalPatterns(s);
      forall i :: 0 <= i < |r.peakHours| ==> CountKey(Hours(s), r.peakHours[i]) > 0
    ensures var r := TemporalPatterns(s);
      forall i :: 0 <= i < |r.peakDays| ==> CountKey(Weekdays(s), r.peakDays[i]) > 0
    ensures var r := TemporalPatterns(s);
      forall i, j :: 0 <= i < j < |r.peakHours| ==>
        r.peakHours[i] != r.peakHours[j] && CountKey(Hours(s), r.peakHours[i]) >= CountKey(Hours(s), r.peakHours[j])
    ensures var r := TemporalPatterns(s);
      forall i, j :: 0 <= i < j < |r.peakDays| ==>
        r.peakDays[i] != r.peakDays[j] && CountKey(Weekdays(s), r.peakDays[i]) >= CountKey(Weekdays(s), r.peakDays[j])
  {
    PeaksAreBusiest(Hours(s), 0, 24, 3);
    PeaksAreBusiest(Weekdays(s), 0, 7, 2);
  }

  // ---------------------------------------------------------------------------
  // The hourly frame and the pre-seizure windows

  /** One row of the hourly feature frame, reduced to the columns the
      analysis reads; each reading may be missing. */
  datatype Row = Row(
    time: int,
    seizure: bool,
    heartRate: Option<real>,
    sleep: Option<real>,
    pain: Option<real>,
    activity: Option<real>)

  /** The frame with, for each analysed column, whether the frame has it. */
  datatype Frame = Frame(rows: seq<Row>, hasHeartRate: bool, hasSleep: bool, hasPain: bool, hasActivity: bool)

  function HeartRateColumn(r: Row): Option<real> { r.heartRate }
  function SleepColumn(r: Row): Option<real> { r.sleep }
  function PainColumn(r: Row): Option<real> { r.pain }
  function ActivityColumn(r: Row): Option<real> { r.activity }

  /** One column of a list of rows. */
  function Column(rows: seq<Row>, col: Row -> Option<real>): (c: seq<Option<real>>)
    ensures |c| == |rows|
    ensures forall i :: 0 <= i < |rows| ==> c[i] == col(rows[i])
  {
    seq(|rows|, i requires 0 <= i < |rows| => col(rows[i]))
  }

  /** A row lies in the `hours` hours before the hour boundary `hour`. */
  function InWindow(hour: int, hours: nat): Row -> bool
  {
    (r: Row) => hour - hours * Clock.SecondsPerHour <= r.time < hour
  }

  /** The rows of the `hours` hours that precede the hour of a seizure at `t`. */
  function PreWindow(rows: seq<Row>, t: int, hours: nat): seq<Row>
  {
    Filter(rows, InWindow(Clock.FloorHour(t), hours))
  }

  /** A row is in the window exactly when its time is at least `hours` hours
      before the seizure's floored hour and earlier than that hour; the
      seizure's own hour is never part of it. */
  lemma PreWindowSpec(rows: seq<Row>, t: int, hours: nat, r: Row)
    ensures r in PreWindow(rows, t, hours) <==>
      r in rows && Clock.FloorHour(t) - hours * Clock.SecondsPerHour <= r.time < Clock.FloorHour(t)
    ensures r in PreWindow(rows, t, hours) ==> Clock.FloorHour(r.time) < Clock.FloorHour(t)
  {
    FilterMember(rows, InWindow(Clock.FloorHour(t), hours), r);
  }

  /** The present values of one column inside a pre-seizure window (`dropna`). */
  function WindowValues(rows: seq<Row>, t: int, hours: nat, col: Row -> Option<real>): seq<real>
  {
    Present(Column(PreWindow(rows, t, hours), col))
  }

  /** A present value of a row of the frame is among the column's present values. */
  lemma ColumnHas(rows: seq<Row>, col: Row -> Option<real>, r: Row)
    requires r in rows && col(r).Some?
    ensures col(r).value in Present(Column(rows, col))
  {
    var i :| 0 <= i < |rows| && rows[i] == r;
    assert Column(rows, col)[i] == col(r);
  }

  /** Every window value is the reading of a frame row inside the window. */
  lemma WindowValueOrigin(rows: seq<Row>, t: int, hours: nat, col: Row -> Option<real>, v: real)
    requires v in WindowValues(rows, t, hours, col)
    ensures exists r :: r in rows && InWindow(Clock.FloorHour(t), hours)(r) && col(r) == Some(v)
  {
    var w := PreWindow(rows, t, hours);
    assert Some(v) in Column(w, col);
    var i :| 0 <= i < |w| && Column(w, col)[i] == Some(v);
    assert w[i] in w;
    PreWindowSpec(rows, t, hours, w[i]);
  }

  /** Every window value is one of the column's present values. */
  lemma WindowValuesInColumn(rows: seq<Row>, t: int, hours: nat, col: Row -> Option<real>)
    ensures forall v :: v in WindowValues(rows, t, hours, col) ==> v in Present(Column(rows, col))
  {
    forall v | v in WindowValues(rows, t, hours, col)
      ensures v in Present(Column(rows, col))
    {
      WindowValueOrigin(rows, t, hours, col, v);
      var r :| r in rows && InWindow(Clock.FloorHour(t), hours)(r) && col(r) == Some(v);
      ColumnHas(rows, col, r);
    }
  }

  // ---------------------------------------------------------------------------
  // One result per seizure

  /** The lists `w(t)` over the seizure times, concatenated in seizure order. */
  function Concat(s: seq<Grid.SeizureRecord>, w: int -> seq<real>): seq<real>
  {
    if |s| == 0 then [] else Concat(s[..|s| - 1], w) + w(s[|s| - 1].time)
  }

  /** A value is in the concatenation exactly when it is in the list of some seizure. */
  lemma {:induction false} ConcatMember(s: seq<Grid.SeizureRecord>, w: int -> seq<real>, v: real)
    ensures v in Concat(s, w) <==> exists k :: 0 <= k < |s| && v in w(s[k].time)
  {
    if |s| > 0 {
      var n := |s| - 1;
      ConcatMember(s[..n], w, v);
      if exists k :: 0 <= k < |s| && v in w(s[k].time) {
        var k :| 0 <= k < |s| && v in w(s[k].time);
        if k < n {
          assert s[..n][k] == s[k];
        }
      }
      if v in Concat(s[..n], w) {
        var k :| 0 <= k < n && v in w(s[..n][k].time);
        assert s[..n][k] == s[k];
      }
    }
  }

  /** The present values `pick(t)` over the seizure times, in seizure order. */
  function Picks(s: seq<Grid.SeizureRecord>, pick: int -> Option<real>): (r: seq<real>)
    ensures |r| <= |s|
  {
    if |s| == 0 then []
    else
      var r' := Picks(s[..|s| - 1], pick);
      match pick(s[|s| - 1].time)
      case None => r'
      case Some(v) => r' + [v]
  }

  /** A value is picked exactly when it is the present pick of some seizure. */
  lemma {:induction false} PicksMember(s: seq<Grid.SeizureRecord>, pick: int -> Option<real>, v: real)
    ensures v in Picks(s, pick) <==> exists k :: 0 <= k < |s| && pick(s[k].time) == Some(v)
  {
    if |s| > 0 {
      var n := |s| - 1;
      PicksMember(s[..n], pick, v);
      if exists k :: 0 <= k < |s| && pick(s[k].time) == Some(v) {
        var k :| 0 <= k < |s| && pick(s[k].time) == Some(v);
        if k < n {
          assert s[..n][k] == s[k];
        }
      }
      if v in Picks(s[..n], pick) {
        var k :| 0 <= k < n && pick(s[..n][k].time) == Some(v);
        assert s[..n][k] == s[k];
      }
    }
  }

  /** `g(t)` for every seizure time, in seizure order. */
  function MapTimes(s: seq<Grid.SeizureRecord>, g: int -> real): (r: seq<real>)
    ensures |r| == |s|
    ensures forall i :: 0 <= i < |s| ==> r[i] == g(s[i].time)
  {
    if |s| == 0 then [] else MapTimes(s[..|s| - 1], g) + [g(s[|s| - 1].time)]
  }

  // ---------------------------------------------------------------------------
  // Heart rate

  function HeartRateWindow(rows: seq<Row>): int -> seq<real>
  {
    t => WindowValues(rows, t, 6, HeartRateColumn)
  }

  /** The heart rates of the six hours before each seizure, concatenated in
      seizure order (`pre_seizure_hrs.extend(...)`). */
  function HeartRatesBefore(rows: seq<Row>, s: seq<Grid.SeizureRecord>): seq<real>
  {
    Concat(s, HeartRateWindow(rows))
  }

  /** A value is collected exactly when it is a heart rate of the window of
      some seizure. */
  lemma HeartRatesFromWindows(rows: seq<Row>, s: seq<Grid.SeizureRecord>, v: real)
    ensures v in HeartRatesBefore(rows, s) <==>
      exists k :: 0 <= k < |s| && v in WindowValues(rows, s[k].time, 6, HeartRateColumn)
  {
    ConcatMember(s, HeartRateWindow(rows), v);
  }

  /** The loop over the seizures that gathers the pre-seizure heart rates. */
  method CollectHeartRates(rows: seq<Row>, s: seq<Grid.SeizureRecord>) returns (hrs: seq<real>)
    ensures hrs == HeartRatesBefore(rows, s)
  {
    hrs := [];
    var i := 0;
    while i < |s|
      invariant 0 <= i <= |s|
      invariant hrs == HeartRatesBefore(rows, s[..i])
    {
      assert s[..i + 1][..i] == s[..i];
      hrs := hrs + WindowValues(rows, s[i].time, 6, HeartRateColumn);
      i := i + 1;
    }
    assert s[..i] == s;
  }

  datatype HeartRateResult = HeartRateResult(preSeizureAvg: real, normalAvg: Option<real>, pValue: real, significant: bool)

  /** Heart rates of the rows without a seizure (`df[df['seizure'] == 0]`). */
  function NormalHeartRates(rows: seq<Row>): seq<real>
  {
    Present(Column(Filter(rows, (r: Row) => !r.seizure), HeartRateColumn))
  }

  /** `_analyze_physiological_patterns` given the collected heart rates:
      nothing without the column or without any pre-seizure reading; the
      Welch test is the parameter `ttest`. */
  function HeartRateFrom(f: Frame, pre: seq<real>, ttest: (seq<real>, seq<real>) -> real): (r: Option<HeartRateResult>)
    ensures r.Some? <==> f.hasHeartRate && |pre| > 0
    ensures r.Some? ==> (r.value.significant <==> r.value.pValue < 0.05)
    ensures r.Some? ==> MinOf(pre) <= r.value.preSeizureAvg <= MaxOf(pre)
    ensures r.Some? ==> (r.value.normalAvg.None? <==> |NormalHeartRates(f.rows)| == 0)
    ensures r.Some? ==> r.value.preSeizureAvg == Mean(pre)
    ensures r.Some? && r.value.normalAvg.Some? ==>
      |NormalHeartRates(f.rows)| > 0 && r.value.normalAvg.value == Mean(NormalHeartRates(f.rows))
    ensures r.Some? ==> r.value.pValue == ttest(pre, NormalHeartRates(f.rows))
  {
    if f.hasHeartRate && |pre| > 0 then
      var normal := NormalHeartRates(f.rows);
      var p := ttest(pre, normal);
      MeanBetween(pre);
      var normalAvg := if |normal| == 0 then None else Some(Mean(normal));
      Some(HeartRateResult(Mean(pre), normalAvg, p, p < 0.05))
    else None
  }

  /** The physiological section for a frame and a seizure table. */
  function HeartRateAnalysis(f: Frame, s: seq<Grid.SeizureRecord>, ttest: (seq<real>, seq<real>) -> real): Option<HeartRateResult>
  {
    HeartRateFrom(f, HeartRatesBefore(f.rows, s), ttest)
  }

  // ---------------------------------------------------------------------------
  // Sleep

  /** The last present reading of one column of some rows (`dropna().iloc[-1]`), if any. */
  function LatestOf(w: seq<Row>, col: Row -> Option<real>): Option<real>
  {
    var v := Present(Column(w, col));
    if |v| == 0 then None else Some(v[|v| - 1])
  }

  /** The last present value of a column sits at some position after which
      every value is missing. */
  lemma {:induction false} PresentLast(xs: seq<Option<real>>)
    requires |Present(xs)| > 0
    ensures exists j ::
      0 <= j < |xs| && xs[j] == Some(Present(xs)[|Present(xs)| - 1]) &&
      forall k :: j < k < |xs| ==> xs[k].None?
  {
    var n := |xs| - 1;
    assert xs == xs[..n] + [xs[n]];
    if xs[n].None? {
      assert Present(xs) == Present(xs[..n]);
      PresentLast(xs[..n]);
      var j :| 0 <= j < n && xs[..n][j] == Some(Present(xs[..n])[|Present(xs[..n])| - 1]) &&
        forall k :: j < k < n ==> xs[..n][k].None?;
      assert xs[j] == xs[..n][j];
      forall k | j < k < |xs| ensures xs[k].None? {
        if k < n {
          assert xs[k] == xs[..n][k];
        }
      }
    } else {
      assert Present(xs) == Present(xs[..n]) + [xs[n].value];
    }
  }

  /** `LatestOf` finds nothing exactly when no row has a reading. */
  lemma LatestOfNone(w: seq<Row>, col: Row -> Option<real>)
    ensures LatestOf(w, col).None? <==> forall k :: 0 <= k < |w| ==> col(w[k]).None?
  {
    var c := Column(w, col);
    forall k | 0 <= k < |w| ensures c[k] == col(w[k]) {
    }
  }

  /** The reading `LatestOf` takes belongs to a row after which no row has a reading. */
  lemma LatestOfIsLatest(w: seq<Row>, col: Row -> Option<real>)
    requires LatestOf(w, col).Some?
    ensures exists j :: 0 <= j < |w| && col(w[j]) == LatestOf(w, col) && forall k :: j < k < |w| ==> col(w[k]).None?
  {
    var c := Column(w, col);
    var v := Present(c);
    PresentLast(c);
    var j :| 0 <= j < |c| && c[j] == Some(v[|v| - 1]) && forall k :: j < k < |c| ==> c[k].None?;
    assert LatestOf(w, col) == Some(v[|v| - 1]);
    assert col(w[j]) == LatestOf(w, col);
    assert forall k :: j < k < |w| ==> col(w[k]).None?;
  }


  /** The latest present sleep reading of the 24 hours before a seizure
      (`recent_sleep.iloc[-1]`), if any. */
  function LatestSleep(rows: seq<Row>, t: int): Option<real>
  {
    LatestOf(PreWindow(rows, t, 24), SleepColumn)
  }

  function SleepPick(rows: seq<Row>): int -> Option<real>
  {
    t => LatestSleep(rows, t)
  }

  /** The latest pre-seizure sleep of each seizure that has one, in seizure order. */
  function SleepsBefore(rows: seq<Row>, s: seq<Grid.SeizureRecord>): (r: seq<real>)
    ensures |r| <= |s|
  {
    Picks(s, SleepPick(rows))
  }

  /** Every collected sleep value is a present sleep reading of the frame. */
  lemma SleepFromFrame(rows: seq<Row>, s: seq<Grid.SeizureRecord>, v: real)
    requires v in SleepsBefore(rows, s)
    ensures v in Present(Column(rows, SleepColumn))
  {
    PicksMember(s, SleepPick(rows), v);
    var k :| 0 <= k < |s| && SleepPick(rows)(s[k].time) == Some(v);
    var w := WindowValues(rows, s[k].time, 24, SleepColumn);
    assert LatestSleep(rows, s[k].time) == Some(v);
    assert w[|w| - 1] == v && v in w;
    WindowValuesInColumn(rows, s[k].time, 24, SleepColumn);
  }

  /** Sleep collected before some seizure means the frame has sleep readings. */
  lemma SleepsNeedReadings(rows: seq<Row>, s: seq<Grid.SeizureRecord>)
    ensures |SleepsBefore(rows, s)| > 0 ==> |Present(Column(rows, SleepColumn))| > 0
  {
    if |SleepsBefore(rows, s)| > 0 {
      SleepFromFrame(rows, s, SleepsBefore(rows, s)[0]);
    }
  }

  method CollectSleeps(rows: seq<Row>, s: seq<Grid.SeizureRecord>) returns (sleeps: seq<real>)
    ensures sleeps == SleepsBefore(rows, s)
  {
    sleeps := [];
    var i := 0;
    while i < |s|
      invariant 0 <= i <= |s|
      invariant sleeps == SleepsBefore(rows, s[..i])
    {
      assert s[..i + 1][..i] == s[..i];
      var latest := LatestSleep(rows, s[i].time);
      if latest.Some? {
        sleeps := sleeps + [latest.value];
      }
      i := i + 1;
    }
    assert s[..i] == s;
  }

  datatype SleepResult = SleepResult(avgBeforeSeizure: real, overallAvg: real, poorSleepCount: nat, totalSeizures: nat)

  function Below(threshold: real): real -> bool { x => x < threshold }
  function Above(threshold: real): real -> bool { x => x > threshold }

  /** `_analyze_sleep_patterns` given the collected sleeps: a seizure counts
      as preceded by poor sleep when its sleep is below the overall mean minus
      one standard deviation (`std`, a parameter). */
  function SleepFrom(f: Frame, sleeps: seq<real>, std: seq<real> -> real): (r: Option<SleepResult>)
    requires |sleeps| > 0 ==> |Present(Column(f.rows, SleepColumn))| > 0
    ensures r.Some? <==> f.hasSleep && |sleeps| > 0
    ensures r.Some? ==> r.value.totalSeizures == |sleeps| && r.value.poorSleepCount <= r.value.totalSeizures
    ensures r.Some? ==>
      r.value.poorSleepCount == CountWhere(sleeps, Below(r.value.overallAvg - std(Present(Column(f.rows, SleepColumn)))))
    ensures r.Some? ==> r.value.avgBeforeSeizure == Mean(sleeps)
    ensures r.Some? ==> r.value.overallAvg == Mean(Present(Column(f.rows, SleepColumn)))
  {
    if f.hasSleep && |sleeps| > 0 then
      var all := Present(Column(f.rows, SleepColumn));
      var avg := Mean(all);
      Some(SleepResult(Mean(sleeps), avg, CountWhere(sleeps, Below(avg - std(all))), |sleeps|))
    else None
  }
  /** The average before seizures lies between the smallest and the largest collected value. */
  lemma SleepAverageBetween(f: Frame, sleeps: seq<real>, std: seq<real> -> real)
    requires |sleeps| > 0 ==> |Present(Column(f.rows, SleepColumn))| > 0
    requires SleepFrom(f, sleeps, std).Some?
    ensures MinOf(sleeps) <= SleepFrom(f, sleeps, std).value.avgBeforeSeizure <= MaxOf(sleeps)
  {
    MeanBetween(sleeps);
  }
  /** The sleep section for a frame and a seizure table. */
  function SleepAnalysis(f: Frame, s: seq<Grid.SeizureRecord>, std: seq<real> -> real): Option<SleepResult>
  {
    SleepsNeedReadings(f.rows, s);
    SleepFrom(f, SleepsBefore(f.rows, s), std)
  }



  // ---------------------------------------------------------------------------
  // Pain

  /** The mean of the present pain readings of the six hours before a seizure, if any. */
  function MeanPain(rows: seq<Row>, t: int): Option<real>
  {
    var v := WindowValues(rows, t, 6, PainColumn);
    if |v| == 0 then None else Some(Mean(v))
  }

  function PainPick(rows: seq<Row>): int -> Option<real>
  {
    t => MeanPain(rows, t)
  }

  /** The mean pre-seizure pain of each seizure that has pain readings before
      it, in seizure order. */
  function PainsBefore(rows: seq<Row>, s: seq<Grid.SeizureRecord>): (r: seq<real>)
    ensures |r| <= |s|
  {
    Picks(s, PainPick(rows))
  }

  /** Each window mean lies between the smallest and the largest pain reading
      of the whole frame. */
  lemma MeanPainInRange(rows: seq<Row>, t: int)
    requires MeanPain(rows, t).Some?
    ensures |Present(Column(rows, PainColumn))| > 0
    ensures var all := Present(Column(rows, PainColumn));
      MinOf(all) <= MeanPain(rows, t).value <= MaxOf(all)
  {
    var v := WindowValues(rows, t, 6, PainColumn);
    WindowValuesInColumn(rows, t, 6, PainColumn);
    MeanOfMembers(v, Present(Column(rows, PainColumn)));
  }

  /** The mean of values all drawn from `all` lies between its minimum and maximum. */
  lemma MeanOfMembers(v: seq<real>, all: seq<real>)
    requires |v| > 0 && forall x :: x in v ==> x in all
    ensures |all| > 0 && MinOf(all) <= Mean(v) <= MaxOf(all)
  {
    assert v[0] in v;
    forall i | 0 <= i < |v| ensures MinOf(all) <= v[i] <= MaxOf(all) {
      assert v[i] in v;
      var j :| 0 <= j < |all| && all[j] == v[i];
    }
    MeanWithin(v, MinOf(all), MaxOf(all));
  }

  /** A collected pain mean lies between the smallest and the largest pain
      reading of the whole frame, which therefore has readings. */
  lemma PainFromFrame(rows: seq<Row>, s: seq<Grid.SeizureRecord>, v: real)
    requires v in PainsBefore(rows, s)
    ensures |Present(Column(rows, PainColumn))| > 0
    ensures var all := Present(Column(rows, PainColumn));
      MinOf(all) <= v <= MaxOf(all)
  {
    PicksMember(s, PainPick(rows), v);
    var k :| 0 <= k < |s| && PainPick(rows)(s[k].time) == Some(v);
    assert MeanPain(rows, s[k].time) == Some(v);
    MeanPainInRange(rows, s[k].time);
  }

  /** Every collected pain mean lies in the frame's pain range. */
  lemma PainMeansInRange(rows: seq<Row>, s: seq<Grid.SeizureRecord>)
    requires |PainsBefore(rows, s)| > 0
    ensures |Present(Column(rows, PainColumn))| > 0
    ensures var all := Present(Column(rows, PainColumn));
      forall i :: 0 <= i < |PainsBefore(rows, s)| ==> MinOf(all) <= PainsBefore(rows, s)[i] <= MaxOf(all)
  {
    var p := PainsBefore(rows, s);
    forall i | 0 <= i < |p|
      ensures |Present(Column(rows, PainColumn))| > 0
      ensures MinOf(Present(Column(rows, PainColumn))) <= p[i] <= MaxOf(Present(Column(rows, PainColumn)))
    {
      assert p[i] in p;
      PainFromFrame(rows, s, p[i]);
    }
    assert p[0] in p;
    PainFromFrame(rows, s, p[0]);
  }

  method CollectPains(rows: seq<Row>, s: seq<Grid.SeizureRecord>) returns (pains: seq<real>)
    ensures pains == PainsBefore(rows, s)
  {
    pains := [];
    var i := 0;
    while i < |s|
      invariant 0 <= i <= |s|
      invariant pains == PainsBefore(rows, s[..i])
    {
      assert s[..i + 1][..i] == s[..i];
      var mean := MeanPain(rows, s[i].time);
      if mean.Some? {
        pains := pains + [mean.value];
      }
      i := i + 1;
    }
    assert s[..i] == s;
  }

  datatype PainResult = PainResult(avgBeforeSeizure: real, overallAvg: real, highPainCount: nat, totalSeizures: nat)

  /** `_analyze_pain_patterns` given the collected means: a seizure counts as
      preceded by high pain when its mean is above the overall mean plus one
      standard deviation. */
  function PainFrom(f: Frame, pains: seq<real>, std: seq<real> -> real): (r: Option<PainResult>)
    requires |pains| > 0 ==> |Present(Column(f.rows, PainColumn))| > 0
    ensures r.Some? <==> f.hasPain && |pains| > 0
    ensures r.Some? ==> r.value.totalSeizures == |pains| && r.value.highPainCount <= r.value.totalSeizures
    ensures r.Some? ==>
      r.value.highPainCount == CountWhere(pains, Above(r.value.overallAvg + std(Present(Column(f.rows, PainColumn)))))
    ensures r.Some? ==> r.value.avgBeforeSeizure == Mean(pains)
    ensures r.Some? ==> r.value.overallAvg == Mean(Present(Column(f.rows, PainColumn)))
  {
    if f.hasPain && |pains| > 0 then
      var all := Present(Column(f.rows, PainColumn));
      var avg := Mean(all);
      Some(PainResult(Mean(pains), avg, CountWhere(pains, Above(avg + std(all))), |pains|))
    else None
  }
  /** The average before seizures lies between the smallest and the largest collected value. */
  lemma PainAverageBetween(f: Frame, pains: seq<real>, std: seq<real> -> real)
    requires |pains| > 0 ==> |Present(Column(f.rows, PainColumn))| > 0
    requires PainFrom(f, pains, std).Some?
    ensures MinOf(pains) <= PainFrom(f, pains, std).value.avgBeforeSeizure <= MaxOf(pains)
  {
    MeanBetween(pains);
  }
  /** The pain section for a frame and a seizure table. */
  function PainAnalysis(f: Frame, s: seq<Grid.SeizureRecord>, std: seq<real> -> real): Option<PainResult>
  {
    if |PainsBefore(f.rows, s)| > 0 then
      PainMeansInRange(f.rows, s);
      PainFrom(f, PainsBefore(f.rows, s), std)
    else PainFrom(f, PainsBefore(f.rows, s), std)
  }



  // ---------------------------------------------------------------------------
  // Activity

  function ActivityTotal(rows: seq<Row>): int -> real
  {
    t => Sum(WindowValues(rows, t, 6, ActivityColumn))
  }

  /** The distance covered in the six hours before each seizure (missing
      readings add nothing), one entry per seizure. */
  function ActivityBefore(rows: seq<Row>, s: seq<Grid.SeizureRecord>): (r: seq<real>)
    ensures |r| == |s|
  {
    MapTimes(s, ActivityTotal(rows))
  }

  lemma {:induction false} NonNegativeSum(xs: seq<real>)
    requires forall i :: 0 <= i < |xs| ==> 0.0 <= xs[i]
    ensures Sum(xs) >= 0.0
  {
    if |xs| > 0 {
      NonNegativeSum(xs[..|xs| - 1]);
    }
  }

  /** With no negative distance in the frame, every six-hour total is non-negative. */
  lemma ActivityNonNegative(rows: seq<Row>, s: seq<Grid.SeizureRecord>)
    requires forall v :: v in Present(Column(rows, ActivityColumn)) ==> v >= 0.0
    ensures forall i :: 0 <= i < |ActivityBefore(rows, s)| ==> ActivityBefore(rows, s)[i] >= 0.0
  {
    forall i | 0 <= i < |s| ensures ActivityBefore(rows, s)[i] >= 0.0 {
      var v := WindowValues(rows, s[i].time, 6, ActivityColumn);
      WindowValuesInColumn(rows, s[i].time, 6, ActivityColumn);
      forall j | 0 <= j < |v| ensures 0.0 <= v[j] {
        assert v[j] in v;
      }
      NonNegativeSum(v);
    }
  }

  method CollectActivity(rows: seq<Row>, s: seq<Grid.SeizureRecord>) returns (activity: seq<real>)
    ensures activity == ActivityBefore(rows, s)
  {
    activity := [];
    var i := 0;
    while i < |s|
      invariant 0 <= i <= |s|
      invariant activity == ActivityBefore(rows, s[..i])
    {
      assert s[..i + 1][..i] == s[..i];
      activity := activity + [Sum(WindowValues(rows, s[i].time, 6, ActivityColumn))];
      i := i + 1;
    }
    assert s[..i] == s;
  }

  datatype ActivityResult = ActivityResult(avgBeforeSeizure: real, overallAvg: Option<real>)

  /** `_analyze_activity_patterns` given the totals: the frame's six-hour
      average is six times its hourly mean, missing when it has no readings. */
  function ActivityFrom(f: Frame, activity: seq<real>): (r: Option<ActivityResult>)
    ensures r.Some? <==> f.hasActivity && |activity| > 0
    ensures r.Some? ==> MinOf(activity) <= r.value.avgBeforeSeizure <= MaxOf(activity)
    ensures r.Some? ==> (r.value.overallAvg.None? <==> forall i :: 0 <= i < |f.rows| ==> f.rows[i].activity.None?)
    ensures r.Some? ==> r.value.avgBeforeSeizure == Mean(activity)
    ensures r.Some? && r.value.overallAvg.Some? ==>
      |Present(Column(f.rows, ActivityColumn))| > 0 &&
      r.value.overallAvg.value == 6.0 * Mean(Present(Column(f.rows, ActivityColumn)))
  {
    if f.hasActivity && |activity| > 0 then
      var c := Column(f.rows, ActivityColumn);
      var m := MeanOpt(c);
      assert forall i :: 0 <= i < |f.rows| ==> c[i] == f.rows[i].activity;
      MeanBetween(activity);
      Some(ActivityResult(Mean(activity), if m.None? then None else Some(m.value * 6.0)))
    else None
  }

  /** The activity section for a frame and a seizure table. */
  function ActivityAnalysis(f: Frame, s: seq<Grid.SeizureRecord>): Option<ActivityResult>
  {
    ActivityFrom(f, ActivityBefore(f.rows, s))
  }

  /** The four sections read from the hourly frame, each gathered by its
      loop over the seizures. */
  method AnalyzeFrame(f: Frame, s: seq<Grid.SeizureRecord>, ttest: (seq<real>, seq<real>) -> real, std: seq<real> -> real)
    returns (physiological: Option<HeartRateResult>, sleep: Option<SleepResult>, pain: Option<PainResult>, activity: Option<ActivityResult>)
    ensures physiological == HeartRateAnalysis(f, s, ttest)
    ensures sleep == SleepAnalysis(f, s, std)
    ensures pain == PainAnalysis(f, s, std)
    ensures activity == ActivityAnalysis(f, s)
  {
    var hrs := CollectHeartRates(f.rows, s);
    physiological := HeartRateFrom(f, hrs, ttest);
    var sleeps := CollectSleeps(f.rows, s);
    SleepsNeedReadings(f.rows, s);
    sleep := SleepFrom(f, sleeps, std);
    var pains := CollectPains(f.rows, s);
    if |pains| > 0 {
      PainMeansInRange(f.rows, s);
    }
    pain := PainFrom(f, pains, std);
    var totals := CollectActivity(f.rows, s);
    activity := ActivityFrom(f, totals);
  }

  // ---------------------------------------------------------------------------
  // Food

  predicate Ate(x: Grid.SeizureRecord) { x.eaten == Some(true) }
  predicate DidNotEat(x: Grid.SeizureRecord) { x.eaten != Some(true) }

  datatype FoodResult = FoodResult(seizuresWithFood: nat, totalSeizures: nat, percentage: real)

  /** `_analyze_food_patterns`. The share printed before the result is built
      divides by the number of seizures, so an empty table raises
      ZeroDivisionError (`None` here) and the zero fallback of the result is
      never reached. */
  function FoodPatterns(s: seq<Grid.SeizureRecord>): (r: Option<FoodResult>)
    ensures r.None? <==> |s| == 0
    ensures r.Some? ==> r.value.totalSeizures == |s| && r.value.seizuresWithFood == CountWhere(s, Ate)
    ensures r.Some? ==> 0.0 <= r.value.percentage <= 100.0
    ensures r.Some? ==> r.value.percentage * (|s| as real) == 100.0 * (r.value.seizuresWithFood as real)
  {
    if |s| == 0 then None
    else
      var c := CountWhere(s, Ate);
      FractionTimes(c, |s|);
      Some(FoodResult(c, |s|, Fraction(c, |s|) * 100.0))
  }

  /** The share is 100 % exactly when food was eaten before every seizure and
      0 % exactly when before none. */
  lemma FoodShareExtremes(s: seq<Grid.SeizureRecord>)
    requires |s| > 0
    ensures FoodPatterns(s).value.percentage == 100.0 <==> forall i :: 0 <= i < |s| ==> Ate(s[i])
    ensures FoodPatterns(s).value.percentage == 0.0 <==> forall i :: 0 <= i < |s| ==> !Ate(s[i])
  {
    var c := CountWhere(s, Ate);
    FractionTimes(c, |s|);
    CountPositiveIff(s, Ate);
    CountPositiveIff(s, DidNotEat);
    CountComplement(s, Ate, DidNotEat);
    var f := Fraction(c, |s|);
    assert f == 1.0 <==> c == |s|;
  }

  // ---------------------------------------------------------------------------
  // Inter-seizure intervals

  /** The gap in hours between each seizure and the next, in table order. */
  function Gaps(s: seq<Grid.SeizureRecord>): (g: seq<real>)
    ensures |g| == if |s| < 2 then 0 else |s| - 1
    ensures forall i {:trigger g[i]} :: 0 <= i < |g| ==> g[i] * 3600.0 == (s[i + 1].time - s[i].time) as real
  {
    if |s| < 2 then []
    else seq(|s| - 1, i requires 0 <= i < |s| - 1 => (s[i + 1].time - s[i].time) as real / 3600.0)
  }

  /** The loop of `_analyze_intervals` over `range(1, len(seizures))`. */
  method CollectIntervals(s: seq<Grid.SeizureRecord>) returns (intervals: seq<real>)
    ensures intervals == Gaps(s)
  {
    intervals := [];
    var i := 1;
    while i < |s|
      invariant 1 <= i && (i <= |s| || i == 1)
      invariant |intervals| == i - 1
      invariant forall k :: 0 <= k < i - 1 && k + 1 < |s| ==> intervals[k] == (s[k + 1].time - s[k].time) as real / 3600.0
    {
      intervals := intervals + [(s[i].time - s[i - 1].time) as real / 3600.0];
      i := i + 1;
    }
    if |s| < 2 {
      assert intervals == [];
    } else {
      var g := Gaps(s);
      assert |g| == |intervals|;
      forall k | 0 <= k < |g| ensures intervals[k] == g[k] {
      }
    }
  }

  /** In a chronological table no gap is negative. */
  lemma ChronologicalGapsNonNegative(s: seq<Grid.SeizureRecord>)
    requires Grid.Chronological(s)
    ensures forall i :: 0 <= i < |Gaps(s)| ==> Gaps(s)[i] >= 0.0
  {
    forall i | 0 <= i < |Gaps(s)| ensures Gaps(s)[i] >= 0.0 {
      assert s[i].time <= s[i + 1].time;
    }
  }

  /** The gaps add up to the time from the first seizure to the last. */
  lemma {:induction false} GapsTelescope(s: seq<Grid.SeizureRecord>)
    requires |s| >= 2
    ensures Sum(Gaps(s)) * 3600.0 == (s[|s| - 1].time - s[0].time) as real
  {
    var n := |s| - 1;
    var g := Gaps(s);
    assert Sum(g) == Sum(g[..n - 1]) + g[n - 1];
    assert g[n - 1] * 3600.0 == (s[n].time - s[n - 1].time) as real;
    if |s| > 2 {
      var p := s[..n];
      GapsTelescope(p);
      assert g[..n - 1] == Gaps(p);
      assert Sum(g[..n - 1]) * 3600.0 == (s[n - 1].time - s[0].time) as real;
    } else {
      assert g[..0] == [];
    }
  }

  datatype IntervalStats = IntervalStats(meanHours: real, medianHours: real, minHours: real, maxHours: real)

  /** The summary of the gaps, `{}` (`None`) when there are none. */
  function IntervalSummary(intervals: seq<real>): (r: Option<IntervalStats>)
    ensures r.None? <==> |intervals| == 0
    ensures r.Some? ==> r.value.minHours <= r.value.medianHours <= r.value.maxHours
    ensures r.Some? ==> r.value.minHours <= r.value.meanHours <= r.value.maxHours
    ensures r.Some? ==> r.value.minHours in intervals && r.value.maxHours in intervals
    ensures r.Some? ==> forall k :: 0 <= k < |intervals| ==> r.value.minHours <= intervals[k] <= r.value.maxHours
    ensures r.Some? ==> r.value.meanHours == Mean(intervals)
    ensures r.Some? ==> r.value.medianHours == Median(intervals)
  {
    if |intervals| == 0 then None
    else
      MedianBetween(intervals);
      MeanBetween(intervals);
      Some(IntervalStats(Mean(intervals), Median(intervals), MinOf(intervals), MaxOf(intervals)))
  }

  /** The mean gap times the number of gaps is the time from the first
      seizure to the last, in hours. */
  lemma MeanGapIsSpan(s: seq<Grid.SeizureRecord>)
    requires |s| >= 2
    ensures Mean(Gaps(s)) * ((|s| - 1) as real) * 3600.0 == (s[|s| - 1].time - s[0].time) as real
  {
    GapsTelescope(s);
    MeanTimesCount(Gaps(s));
  }



  // ---------------------------------------------------------------------------
  // The analyzer

  /** The keys of the results dictionary, one per section. */
  datatype SectionName = TemporalKey | PhysiologicalKey | SleepKey | PainKey | ActivityKey | FoodKey | IntervalsKey

  /** One entry of the results dictionary. */
  datatype Section =
    | Temporal(temporal: TemporalResult)
    | Physiological(heartRate: Option<HeartRateResult>)
    | Sleep(sleep: Option<SleepResult>)
    | Pain(pain: Option<PainResult>)
    | Activity(activity: Option<ActivityResult>)
    | Food(food: FoodResult)
    | Intervals(intervals: Option<IntervalStats>)

  /** The two sections read from the seizure table alone; the food section
      raises on an empty table, which `ok` false stands for. */
  method AnalyzeSeizures(s: seq<Grid.SeizureRecord>) returns (ok: bool, food: FoodResult, intervals: Option<IntervalStats>)
    ensures ok <==> |s| > 0
    ensures ok ==> Some(food) == FoodPatterns(s) && intervals == IntervalSummary(Gaps(s))
  {
    var r := FoodPatterns(s);
    intervals := None;
    if r.None? {
      return false, FoodResult(0, 0, 0.0), None;
    }
    var gaps := CollectIntervals(s);
    ok, food, intervals := true, r.value, IntervalSummary(gaps);
  }

  class TriggerAnalyzer {
    var results: map<SectionName, Section>

    constructor()
      ensures results == map[]
    {
      results := map[];
    }

    /** `analyze_all_triggers`: the sections are stored one after the other.
        The food section raises on an empty seizure table (`ok` false), which
        leaves the first five sections stored and the last two untouched. */
    method AnalyzeAll(f: Frame, s: seq<Grid.SeizureRecord>, ttest: (seq<real>, seq<real>) -> real, std: seq<real> -> real)
      returns (ok: bool)
      modifies this
      ensures ok <==> |s| > 0
      ensures var first := old(results)[TemporalKey := Temporal(TemporalPatterns(s))]
        [PhysiologicalKey := Physiological(HeartRateAnalysis(f, s, ttest))]
        [SleepKey := Sleep(SleepAnalysis(f, s, std))]
        [PainKey := Pain(PainAnalysis(f, s, std))]
        [ActivityKey := Activity(ActivityAnalysis(f, s))];
        results == if ok then first[FoodKey := Food(FoodPatterns(s).value)][IntervalsKey := Intervals(IntervalSummary(Gaps(s)))]
                   else first
    {
      var physiological, sleep, pain, activity := AnalyzeFrame(f, s, ttest, std);
      results := results[TemporalKey := Temporal(TemporalPatterns(s))][PhysiologicalKey := Physiological(physiological)]
        [SleepKey := Sleep(sleep)][PainKey := Pain(pain)][ActivityKey := Activity(activity)];
      var food, intervals;
      ok, food, intervals := AnalyzeSeizures(s);
      if ok {
        results := results[FoodKey := Food(food)][IntervalsKey := Intervals(intervals)];
      }
    }
  }
}
