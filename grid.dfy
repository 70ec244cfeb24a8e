/** The hourly grid both grid builders share: the boolean cell mapping of the
    loaders, the time span across the three source tables, and the hourly
    index from the floored earliest to the ceiled latest timestamp. */
module Grid {
  import opened Seqs
  import Clock

  /** The cell texts `read_csv` reads as missing by default. */
  const NaWords: set<string> := {"", "#N/A", "#N/A N/A", "#NA", "-1.#IND", "-1.#QNAN", "-NaN", "-nan",
    "1.#IND", "1.#QNAN", "<NA>", "N/A", "NA", "NULL", "NaN", "None", "n/a", "nan", "null"}

  /** The cell texts `read_csv` reads as `True` and as `False`. */
  const TrueWords: set<string> := {"True", "TRUE", "true"}
  const FalseWords: set<string> := {"False", "FALSE", "false"}

  /** A flag cell after `read_csv`: the text as written, a Python bool when
      the whole column was read as booleans, or NaN. */
  datatype Cell = Text(text: string) | Flag(flag: bool) | NaN

  /** `read_csv` reads a column as booleans when every cell that is not a
      missing-value word is a true or false word. */
  predicate BoolColumn(cells: seq<string>)
  {
    forall i :: 0 <= i < |cells| ==> cells[i] in NaWords || cells[i] in TrueWords || cells[i] in FalseWords
  }

  function ReadCell(cell: string, asBool: bool): Cell
  {
    if cell in NaWords then NaN else if asBool then Flag(cell in TrueWords) else Text(cell)
  }

  /** One column of flag cells as `read_csv` types it: missing-value words
      become NaN; the rest become bools in a boolean column and stay text
      otherwise. */
  function ReadFlagColumn(cells: seq<string>): (c: seq<Cell>)
    ensures |c| == |cells|
    ensures forall i :: 0 <= i < |cells| ==> (c[i].NaN? <==> cells[i] in NaWords)
    ensures BoolColumn(cells) ==> forall i :: 0 <= i < |cells| && cells[i] !in NaWords ==>
      c[i] == Flag(cells[i] in TrueWords)
    ensures !BoolColumn(cells) ==> forall i :: 0 <= i < |cells| && cells[i] !in NaWords ==> c[i] == Text(cells[i])
  {
    seq(|cells|, i requires 0 <= i < |cells| => ReadCell(cells[i], BoolColumn(cells)))
  }

  /** `map({'True': True, 'False': False, 'NULL': None})`: the keys are
      strings, so only the texts "True" and "False" are mapped; a bool, a NaN
      or any other text becomes missing. */
  function MapFlag(cell: Cell): (b: Option<bool>)
    ensures b == Some(true) <==> cell == Text("True")
    ensures b == Some(false) <==> cell == Text("False")
    ensures b.None? <==> cell != Text("True") && cell != Text("False")
  {
    if cell == Text("True") then Some(true) else if cell == Text("False") then Some(false) else None
  }

  /** A column `read_csv` reads as booleans (as in a file of Python's `True`
      and `False`) maps to missing in every row. */
  lemma BoolColumnMapsToMissing(cells: seq<string>)
    requires BoolColumn(cells)
    ensures forall i :: 0 <= i < |cells| ==> MapFlag(ReadFlagColumn(cells)[i]).None?
  {
  }

  /** Any other column maps the texts "True" and "False" as written and every
      other cell to missing. */
  lemma TextColumnMaps(cells: seq<string>)
    requires !BoolColumn(cells)
    ensures forall i :: 0 <= i < |cells| ==>
      MapFlag(ReadFlagColumn(cells)[i]) == if cells[i] == "True" then Some(true) else if cells[i] == "False" then Some(false) else None
  {
  }

  /** A seizure line of the CSV: the parsed `Date + Time`, the numeric
      duration (`to_numeric(errors='coerce')`, missing when not a number),
      the texts of the flag cells and the food cell. */
  datatype SeizureText = SeizureText(time: int, duration: Option<real>, period: string, eaten: string, food: Option<string>)

  /** A seizure row as `read_csv` returns it, with its flag cells typed. */
  datatype RawSeizure = RawSeizure(time: int, duration: Option<real>, period: Cell, eaten: Cell, food: Option<string>)

  function PeriodCells(lines: seq<SeizureText>): (c: seq<string>)
    ensures |c| == |lines| && forall i :: 0 <= i < |lines| ==> c[i] == lines[i].period
  {
    seq(|lines|, i requires 0 <= i < |lines| => lines[i].period)
  }

  function EatenCells(lines: seq<SeizureText>): (c: seq<string>)
    ensures |c| == |lines| && forall i :: 0 <= i < |lines| ==> c[i] == lines[i].eaten
  {
    seq(|lines|, i requires 0 <= i < |lines| => lines[i].eaten)
  }

  /** `read_csv` of the seizure file: each line with its flag cells typed by
      their column. */
  function ReadSeizures(lines: seq<SeizureText>): (raw: seq<RawSeizure>)
    ensures |raw| == |lines|
    ensures forall i :: 0 <= i < |lines| ==>
      && raw[i].time == lines[i].time && raw[i].duration == lines[i].duration && raw[i].food == lines[i].food
      && raw[i].period == ReadFlagColumn(PeriodCells(lines))[i]
      && raw[i].eaten == ReadFlagColumn(EatenCells(lines))[i]
  {
    var period, eaten := ReadFlagColumn(PeriodCells(lines)), ReadFlagColumn(EatenCells(lines));
    seq(|lines|, i requires 0 <= i < |lines| =>
      RawSeizure(lines[i].time, lines[i].duration, period[i], eaten[i], lines[i].food))
  }

  /** A cleaned seizure row. */
  datatype SeizureRecord = SeizureRecord(time: int, duration: Option<real>, period: Option<bool>, eaten: Option<bool>, food: Option<string>)

  function CleanSeizure(r: RawSeizure): (s: SeizureRecord)
    ensures s.time == r.time && s.duration == r.duration && s.food == r.food
    ensures s.period == MapFlag(r.period) && s.eaten == MapFlag(r.eaten)
  {
    SeizureRecord(r.time, r.duration, MapFlag(r.period), MapFlag(r.eaten), r.food)
  }

  function SeizureTime(s: SeizureRecord): real
  {
    s.time as real
  }

  predicate Chronological(s: seq<SeizureRecord>)
  {
    forall i, j :: 0 <= i < j < |s| ==> s[i].time <= s[j].time
  }

  /** `_load_seizures`: the flag cells mapped, then `sort_values('DateTime')`. */
  function LoadSeizures(raw: seq<RawSeizure>): (s: seq<SeizureRecord>)
    ensures multiset(s) == multiset(seq(|raw|, i requires 0 <= i < |raw| => CleanSeizure(raw[i])))
    ensures Chronological(s)
  {
    var cleaned := seq(|raw|, i requires 0 <= i < |raw| => CleanSeizure(raw[i]));
    var sorted := SortBy(cleaned, SeizureTime);
    assert forall i, j :: 0 <= i < j < |sorted| ==> SeizureTime(sorted[i]) <= SeizureTime(sorted[j]);
    sorted
  }

  /** Every loaded row comes from a raw row with the same time and duration
      and the mapped flags. */
  lemma LoadSeizuresOrigin(raw: seq<RawSeizure>, s: SeizureRecord)
    requires s in LoadSeizures(raw)
    ensures exists i :: 0 <= i < |raw| && s == CleanSeizure(raw[i])
  {
    var cleaned := seq(|raw|, i requires 0 <= i < |raw| => CleanSeizure(raw[i]));
    assert s in multiset(LoadSeizures(raw));
    assert s in multiset(cleaned);
    var i :| 0 <= i < |cleaned| && cleaned[i] == s;
  }

  /** A pain report: its time and its numeric value (missing when the cell is
      not a number). */
  datatype PainRecord = PainRecord(time: int, pain: Option<real>)

  /** Python's `min(a, b, c)` over timestamps where `None` is NaT: every
      comparison with NaT is false, so a NaT in first place is kept and a
      NaT later on is skipped. */
  function PyMin3(a: Option<int>, b: Option<int>, c: Option<int>): (m: Option<int>)
    ensures m.None? <==> a.None?
    ensures m.Some? ==> m.value <= a.value
    ensures m.Some? && b.Some? ==> m.value <= b.value
    ensures m.Some? && c.Some? ==> m.value <= c.value
    ensures m.Some? ==> m == a || m == b || m == c
  {
    if a.None? then None
    else
      var ab := if b.Some? && b.value < a.value then b.value else a.value;
      Some(if c.Some? && c.value < ab then c.value else ab)
  }

  /** Python's `max(a, b, c)` with NaT, as `PyMin3`. */
  function PyMax3(a: Option<int>, b: Option<int>, c: Option<int>): (m: Option<int>)
    ensures m.None? <==> a.None?
    ensures m.Some? ==> a.value <= m.value
    ensures m.Some? && b.Some? ==> b.value <= m.value
    ensures m.Some? && c.Some? ==> c.value <= m.value
    ensures m.Some? ==> m == a || m == b || m == c
  {
    if a.None? then None
    else
      var ab := if b.Some? && b.value > a.value then b.value else a.value;
      Some(if c.Some? && c.value > ab then c.value else ab)
  }

  /** Earliest and latest timestamp of one table; `None` for an empty table,
      whose `.min()` and `.max()` are both NaT. */
  type Extent = Option<(int, int)>

  predicate WellFormed(e: Extent)
  {
    e.Some? ==> e.value.0 <= e.value.1
  }

  function Lo(e: Extent): Option<int>
  {
    if e.Some? then Some(e.value.0) else None
  }

  function Hi(e: Extent): Option<int>
  {
    if e.Some? then Some(e.value.1) else None
  }

  /** `.min()` and `.max()` of a time column; none for an empty table. */
  function TimeExtent(times: seq<int>): (e: Extent)
    ensures WellFormed(e)
    ensures e.None? <==> |times| == 0
    ensures e.Some? ==> e.value.0 in times && e.value.1 in times
    ensures e.Some? ==> forall k :: 0 <= k < |times| ==> e.value.0 <= times[k] <= e.value.1
  {
    if |times| == 0 then None else Some((MinInt(times), MaxInt(times)))
  }

  /** The span of the grid over three tables in the order the loader lists
      them; `None` when the first table is empty, where building the range
      from NaT raises. */
  function Span(first: Extent, second: Extent, third: Extent): (r: Option<(int, int)>)
    requires WellFormed(first) && WellFormed(second) && WellFormed(third)
    ensures r.None? <==> first.None?
    ensures r.Some? ==> r.value.0 <= r.value.1
    ensures r.Some? ==> forall e :: e in [first, second, third] && e.Some? ==>
      r.value.0 <= e.value.0 && e.value.1 <= r.value.1
    ensures r.Some? ==> Some(r.value.0) in [Lo(first), Lo(second), Lo(third)]
    ensures r.Some? ==> Some(r.value.1) in [Hi(first), Hi(second), Hi(third)]
  {
    var lo := PyMin3(Lo(first), Lo(second), Lo(third));
    var hi := PyMax3(Hi(first), Hi(second), Hi(third));
    if lo.None? then None else Some((lo.value, hi.value))
  }

  /** An empty table in second or third place is ignored. */
  lemma SpanSkipsLaterEmpty(first: Extent, second: Extent)
    requires WellFormed(first) && WellFormed(second) && first.Some?
    ensures Span(first, second, None) == Span(first, None, second)
  {
  }

  /** `pd.date_range(floor(lo), ceil(hi), freq='H')`: every hour boundary from
      the floored start to the ceiled end, both included. */
  function HourlyIndex(lo: int, hi: int): (g: seq<int>)
    requires lo <= hi
    ensures |g| == (Clock.CeilHour(hi) - Clock.FloorHour(lo)) / Clock.SecondsPerHour + 1
    ensures forall k :: 0 <= k < |g| ==> g[k] == Clock.FloorHour(lo) + k * Clock.SecondsPerHour
    ensures g[0] == Clock.FloorHour(lo) && g[|g| - 1] == Clock.CeilHour(hi)
  {
    var start := Clock.FloorHour(lo);
    var n := (Clock.CeilHour(hi) - start) / Clock.SecondsPerHour + 1;
    Clock.DivisibleDifference(start, Clock.CeilHour(hi));
    seq(n, k requires 0 <= k < n => start + k * Clock.SecondsPerHour)
  }

  /** Every timestamp of the span falls in exactly one hour of the index: the
      one at position `(floor(t) - floor(lo)) / 1 hour`. */
  lemma HourlyIndexCovers(lo: int, hi: int, t: int)
    requires lo <= t <= hi
    ensures var g := HourlyIndex(lo, hi); var k := (Clock.FloorHour(t) - Clock.FloorHour(lo)) / Clock.SecondsPerHour;
      0 <= k < |g| && g[k] == Clock.FloorHour(t) &&
      forall j :: 0 <= j < |g| && g[j] == Clock.FloorHour(t) ==> j == k
  {
    var g := HourlyIndex(lo, hi);
    var start := Clock.FloorHour(lo);
    Clock.FloorHourMonotone(lo, t);
    Clock.DivisibleDifference(start, Clock.FloorHour(t));
    Clock.FloorHourMonotone(t, hi);
    assert Clock.FloorHour(hi) <= Clock.CeilHour(hi);
  }

  // ---------------------------------------------------------------------------
  // Mapping events onto the grid

  /** Some seizure falls in hour `h`. */
  function AnyInHour(s: seq<SeizureRecord>, h: int): (b: bool)
    ensures b <==> exists k :: 0 <= k < |s| && Clock.FloorHour(s[k].time) == h
  {
    if |s| == 0 then false
    else Clock.FloorHour(s[|s| - 1].time) == h || AnyInHour(s[..|s| - 1], h)
  }

  /** A row of the frame after the pain merge: its hour and its pain value. */
  datatype PainRow = PainRow(time: int, pain: Option<real>)

  /** The test "report falls in hour `h`" as a predicate value. */
  function InHour(h: int): PainRecord -> bool
  {
    (p: PainRecord) => Clock.FloorHour(p.time) == h
  }

  /** The merge partners of hour `h`: every report floored to `h`, in table order. */
  function Matches(h: int, pain: seq<PainRecord>): (m: seq<PainRow>)
    ensures |m| == CountWhere(pain, InHour(h))
    ensures forall k :: 0 <= k < |m| ==> m[k] == PainRow(h, Filter(pain, InHour(h))[k].pain)
  {
    if |pain| == 0 then []
    else
      var last := pain[|pain| - 1];
      Matches(h, pain[..|pain| - 1]) + (if InHour(h)(last) then [PainRow(h, last.pain)] else [])
  }

  /** The rows a left merge makes for hour `h`: one row without pain when no
      report falls in it, otherwise one row per report of that hour, carrying
      that report's pain, in table order. */
  function HourRows(h: int, pain: seq<PainRecord>): (r: seq<PainRow>)
    ensures CountWhere(pain, InHour(h)) == 0 ==> r == [PainRow(h, None)]
    ensures CountWhere(pain, InHour(h)) > 0 ==> r == Matches(h, pain)
    ensures |r| > 0 && forall k :: 0 <= k < |r| ==> r[k].time == h
  {
    var m := Matches(h, pain);
    if |m| == 0 then [PainRow(h, None)] else m
  }

  /** Row `x` of a left merge is accounted for by the reports: either its hour
      has no report and it has no pain, or some report floored to its hour
      carries its pain. */
  predicate FromReports(x: PainRow, pain: seq<PainRecord>)
  {
    (CountWhere(pain, InHour(x.time)) == 0 && x.pain.None?) ||
    exists i :: 0 <= i < |pain| && Clock.FloorHour(pain[i].time) == x.time && pain[i].pain == x.pain
  }

  /** Each row `HourRows` makes is either the pain-less row of an hour no
      report falls in, or carries the pain of a report floored to that hour. */
  lemma HourRowOrigin(h: int, pain: seq<PainRecord>, x: PainRow)
    requires x in HourRows(h, pain)
    ensures x.time == h && FromReports(x, pain)
  {
    var r := HourRows(h, pain);
    var k :| 0 <= k < |r| && r[k] == x;
    if CountWhere(pain, InHour(h)) > 0 {
      var f := Filter(pain, InHour(h));
      assert f[k] in multiset(f);
      assert f[k] in multiset(pain);
      var i :| 0 <= i < |pain| && pain[i] == f[k];
      assert InHour(h)(f[k]);
    }
  }

  /** Every report of hour `h` has its row among `HourRows(h, pain)`. */
  lemma HourRowsComplete(h: int, pain: seq<PainRecord>, i: nat)
    requires i < |pain| && Clock.FloorHour(pain[i].time) == h
    ensures PainRow(h, pain[i].pain) in HourRows(h, pain)
  {
    var f := Filter(pain, InHour(h));
    assert InHour(h)(pain[i]);
    assert pain[i] in f;
    CountPositiveIff(pain, InHour(h));
    var k :| 0 <= k < |f| && f[k] == pain[i];
    assert HourRows(h, pain)[k] == PainRow(h, pain[i].pain);
  }

  /** The hour column of merged rows. */
  function RowTimes(rows: seq<PainRow>): (t: seq<int>)
    ensures |t| == |rows| && forall k :: 0 <= k < |rows| ==> t[k] == rows[k].time
  {
    seq(|rows|, k requires 0 <= k < |rows| => rows[k].time)
  }

  /** `df.merge(pain, on='DateTime', how='left')` with the pain times floored
      to the hour: every grid hour keeps at least one row and no other hour
      gets one, an hour with several reports gets one row per report, and the
      rows follow grid order. */
  function MergeLeft(grid: seq<int>, pain: seq<PainRecord>): (r: seq<PainRow>)
    ensures |r| >= |grid|
    ensures forall k :: 0 <= k < |r| ==> r[k].time in grid
    ensures forall k :: 0 <= k < |grid| ==> grid[k] in RowTimes(r)
  {
    if |grid| == 0 then []
    else
      var g, h := grid[..|grid| - 1], grid[|grid| - 1];
      var init, last := MergeLeft(g, pain), HourRows(h, pain);
      assert grid == g + [h];
      RowTimesSnoc(g, h, init, last);
      init + last
  }

  /** Appending the rows of hour `h` to rows whose hours are those of `g`
      gives rows whose hours are those of `g + [h]`, in both directions. */
  lemma RowTimesSnoc(g: seq<int>, h: int, init: seq<PainRow>, last: seq<PainRow>)
    requires forall k :: 0 <= k < |init| ==> init[k].time in g
    requires forall k :: 0 <= k < |g| ==> g[k] in RowTimes(init)
    requires |last| > 0 && forall k :: 0 <= k < |last| ==> last[k].time == h
    ensures forall k :: 0 <= k < |init + last| ==> (init + last)[k].time in g + [h]
    ensures forall k :: 0 <= k < |g + [h]| ==> (g + [h])[k] in RowTimes(init + last)
  {
    var c, gh := init + last, g + [h];
    assert RowTimes(c) == RowTimes(init) + RowTimes(last);
    assert RowTimes(last)[0] == h;
    forall k | 0 <= k < |c| ensures c[k].time in gh {
      if k < |init| {
        assert c[k] == init[k];
      } else {
        assert c[k] == last[k - |init|];
      }
    }
    forall k | 0 <= k < |gh| ensures gh[k] in RowTimes(c) {
      if k < |g| {
        assert gh[k] == g[k];
      }
    }
  }

  /** Each merged row is a grid hour together with the pain of a report
      floored to that hour, or, for an hour no report falls in, no pain; and
      every report whose hour is on the grid has its row. */
  lemma {:induction false} MergeLeftRows(grid: seq<int>, pain: seq<PainRecord>)
    ensures forall x :: x in MergeLeft(grid, pain) ==> FromReports(x, pain)
    ensures forall i :: 0 <= i < |pain| && Clock.FloorHour(pain[i].time) in grid ==>
      PainRow(Clock.FloorHour(pain[i].time), pain[i].pain) in MergeLeft(grid, pain)
  {
    if |grid| > 0 {
      var g := grid[..|grid| - 1];
      var h := grid[|grid| - 1];
      MergeLeftRows(g, pain);
      var a, b := MergeLeft(g, pain), HourRows(h, pain);
      assert MergeLeft(grid, pain) == a + b;
      forall x | x in a + b
        ensures FromReports(x, pain)
      {
        if x !in a {
          HourRowOrigin(h, pain, x);
        }
      }
      forall i | 0 <= i < |pain| && Clock.FloorHour(pain[i].time) in grid
        ensures PainRow(Clock.FloorHour(pain[i].time), pain[i].pain) in a + b
      {
        if Clock.FloorHour(pain[i].time) == h {
          HourRowsComplete(h, pain, i);
        } else {
          assert Clock.FloorHour(pain[i].time) in g;
        }
      }
    }
  }

  /** On an ascending grid the merged rows are in ascending hour order. */
  lemma {:induction false} MergeLeftOrdered(grid: seq<int>, pain: seq<PainRecord>)
    requires forall i, j :: 0 <= i < j < |grid| ==> grid[i] < grid[j]
    ensures forall i, j :: 0 <= i < j < |MergeLeft(grid, pain)| ==>
      MergeLeft(grid, pain)[i].time <= MergeLeft(grid, pain)[j].time
  {
    if |grid| > 0 {
      var g := grid[..|grid| - 1];
      var h := grid[|grid| - 1];
      MergeLeftOrdered(g, pain);
      var a, b := MergeLeft(g, pain), HourRows(h, pain);
      forall j | 0 <= j < |b| ensures b[j].time == h {
        assert b[j] in b;
        HourRowOrigin(h, pain, b[j]);
      }
      forall i | 0 <= i < |a| ensures a[i].time <= h {
        assert a[i].time in g;
      }
      assert MergeLeft(grid, pain) == a + b;
    }
  }

  /** The pain column of the merged rows. */
  function PainColumn(rows: seq<PainRow>): (c: seq<Option<real>>)
    ensures |c| == |rows| && forall k :: 0 <= k < |rows| ==> c[k] == rows[k].pain
  {
    seq(|rows|, k requires 0 <= k < |rows| => rows[k].pain)
  }

  /** With at most one report per hour the merge adds no row: row `k` is
      hour `k` of the grid. */
  lemma {:induction false} MergeLeftOnePerHour(grid: seq<int>, pain: seq<PainRecord>)
    requires forall k :: 0 <= k < |grid| ==> CountWhere(pain, InHour(grid[k])) <= 1
    ensures |MergeLeft(grid, pain)| == |grid|
    ensures forall k :: 0 <= k < |grid| ==> MergeLeft(grid, pain)[k].time == grid[k]
  {
    if |grid| > 0 {
      var init, h := grid[..|grid| - 1], grid[|grid| - 1];
      assert forall k :: 0 <= k < |init| ==> init[k] == grid[k];
      MergeLeftOnePerHour(init, pain);
      var a: seq<PainRow>, b: seq<PainRow> := MergeLeft(init, pain), HourRows(h, pain);
      assert MergeLeft(grid, pain) == a + b;
      assert |b| == 1 by {
        if CountWhere(pain, InHour(h)) == 0 {
          assert b == [PainRow(h, None)];
        } else {
          assert b == Matches(h, pain);
        }
      }
      forall k | 0 <= k < |grid|
        ensures (a + b)[k].time == grid[k]
      {
        if k < |init| {
          assert (a + b)[k] == a[k];
        } else {
          assert k == |a| && grid[k] == h;
          assert (a + b)[|a|] == b[0];
          assert b[0].time == h;
        }
      }
    }
  }
}
