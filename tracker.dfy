/** The logging service: the seizure and pain routes append one row to a CSV
    file (writing its header first when the file does not exist), and the
    countdown route reads the last logged date back. Timestamps are local
    Unix seconds; "now" and "today" are parameters. A logged date or time is
    kept as its day number or second of the day, so formatting it as
    `%Y-%m-%d` / `%H:%M:%S` and parsing it back is the identity. */
module Tracker {
  import opened Seqs
  import Clock

  /** A flag query value counts as set only when it is exactly "Yes". */
  predicate IsYes(s: string)
  {
    s == "Yes"
  }

  /** A logged seizure: `[date, time, duration, period, eaten, foodEaten]`. */
  datatype SeizureEntry = SeizureEntry(date: int, time: int, duration: int, period: bool, eaten: bool, foodEaten: string)

  /** A logged pain report: `[date, time, pain]`. */
  datatype PainEntry = PainEntry(date: int, time: int, pain: int)

  /** A line of one of the CSV files. */
  datatype Line = HeaderLine(names: seq<string>) | SeizureLine(seizure: SeizureEntry) | PainLine(report: PainEntry)

  /** A CSV file on disk: absent, or present with its lines. */
  datatype File = Missing | Present(lines: seq<Line>)

  const SeizureHeader: seq<string> := ["Date", "Time", "Duration", "Period", "Eaten", "FoodEaten"]
  const PainHeader: seq<string> := ["Date", "Time", "Pain"]

  /** The file after appending `line`: a missing file is first created with
      the header row. */
  function Written(f: File, header: seq<string>, line: Line): (r: File)
    ensures r.Present? && |r.lines| > 0 && r.lines[|r.lines| - 1] == line
    ensures f.Present? ==> |r.lines| == |f.lines| + 1 && r.lines[..|f.lines|] == f.lines
    ensures f.Missing? ==> r.lines == [HeaderLine(header), line]
  {
    Present((if f.Missing? then [HeaderLine(header)] else f.lines) + [line])
  }

  /** The file after appending `rows` one after the other. */
  function WrittenAll(f: File, header: seq<string>, rows: seq<Line>): File
  {
    if |rows| == 0 then f else Written(WrittenAll(f, header, rows[..|rows| - 1]), header, rows[|rows| - 1])
  }

  /** Logging into a file that exists never writes a header: the rows follow
      the old lines. */
  lemma {:induction false} WrittenAllPresent(lines: seq<Line>, header: seq<string>, rows: seq<Line>)
    ensures WrittenAll(Present(lines), header, rows) == Present(lines + rows)
  {
    if |rows| > 0 {
      var init := rows[..|rows| - 1];
      WrittenAllPresent(lines, header, init);
      assert lines + init + [rows[|rows| - 1]] == lines + rows;
    }
  }

  /** Logging one or more rows into a missing file writes the header exactly
      once, as the first line, followed by the rows in order. */
  lemma {:induction false} WrittenAllMissing(header: seq<string>, rows: seq<Line>)
    requires |rows| > 0
    ensures WrittenAll(Missing, header, rows) == Present([HeaderLine(header)] + rows)
  {
    if |rows| == 1 {
      assert rows == [rows[0]];
    } else {
      var init := rows[..|rows| - 1];
      WrittenAllMissing(header, init);
      assert [HeaderLine(header)] + init + [rows[|rows| - 1]] == [HeaderLine(header)] + rows;
    }
  }

  /** One of the two CSV files, with the header it is created with. */
  class CsvFile {
    const header: seq<string>
    var file: File

    constructor (header: seq<string>, file: File)
      ensures this.header == header && this.file == file
    {
      this.header := header;
      this.file := file;
    }

    /** `csv.writer(...).writerow(line)` in append mode, after creating the
        file with its header row when it does not exist. */
    method WriteRow(line: Line)
      modifies this
      ensures file == Written(old(file), header, line)
    {
      if file.Missing? {
        file := Present([HeaderLine(header)]);
      }
      file := Present(file.lines + [line]);
    }
  }

  /** The row `trackSeizure` logs at time `now`. */
  function SeizureRowAt(now: int, duration: int, period: string, eaten: string, foodEaten: string): (e: SeizureEntry)
    ensures e.date == Clock.DayOf(now) && 0 <= e.time < Clock.SecondsPerDay
    ensures e.date * Clock.SecondsPerDay + e.time == now
    ensures e.duration == duration && e.foodEaten == foodEaten
    ensures e.period <==> IsYes(period)
    ensures e.eaten <==> IsYes(eaten)
  {
    SeizureEntry(Clock.DayOf(now), now % Clock.SecondsPerDay, duration, IsYes(period), IsYes(eaten), foodEaten)
  }

  /** The message `trackSeizure` returns, "Seizure for <duration> seconds has been logged". */
  datatype Logged = SeizureLogged(seconds: int) | PainLogged

  /** `trackSeizure`: appends the seizure row to the seizure file. */
  method TrackSeizure(store: CsvFile, now: int, duration: int, period: string, eaten: string, foodEaten: string)
    returns (msg: Logged)
    modifies store
    ensures store.file == Written(old(store.file), store.header, SeizureLine(SeizureRowAt(now, duration, period, eaten, foodEaten)))
    ensures msg == SeizureLogged(duration)
  {
    var entry := SeizureRowAt(now, duration, period, eaten, foodEaten);
    store.WriteRow(SeizureLine(entry));
    msg := SeizureLogged(duration);
  }

  /** `trackPain`: appends `[date, time, pain]` to the pain file. */
  method TrackPain(store: CsvFile, now: int, pain: int) returns (msg: Logged)
    modifies store
    ensures store.file == Written(old(store.file), store.header,
                                  PainLine(PainEntry(Clock.DayOf(now), now % Clock.SecondsPerDay, pain)))
    ensures msg == PainLogged
  {
    store.WriteRow(PainLine(PainEntry(Clock.DayOf(now), now % Clock.SecondsPerDay, pain)));
    msg := PainLogged;
  }

  /** Which query parameter a 400 answer complains about. */
  datatype QueryParam = DurationParam | PeriodParam | EatenParam | PainParam

  /** A seizure request that passed validation. */
  datatype SeizureRequest = SeizureRequest(duration: int, period: string, eaten: string, foodEaten: string)

  datatype Checked<T> = BadRequest(missing: QueryParam) | Accepted(request: T)

  /** The checks of the `/seizure` route, in order: duration (an integer),
      then period, then eaten must be given. `foodEaten` is forwarded only
      when eaten is not "No"; otherwise the default "" is logged, and an
      absent value is written by the CSV writer as "". */
  function CheckSeizureQuery(duration: Option<int>, period: Option<string>, eaten: Option<string>,
                             foodEaten: Option<string>): (r: Checked<SeizureRequest>)
    ensures r.Accepted? <==> duration.Some? && period.Some? && eaten.Some?
    ensures r == BadRequest(DurationParam) <==> duration.None?
    ensures r == BadRequest(PeriodParam) <==> duration.Some? && period.None?
    ensures r == BadRequest(EatenParam) <==> duration.Some? && period.Some? && eaten.None?
    ensures r.Accepted? ==> r.request.duration == duration.value && r.request.period == period.value
                            && r.request.eaten == eaten.value
    ensures r.Accepted? && eaten.value == "No" ==> r.request.foodEaten == ""
    ensures r.Accepted? && eaten.value != "No" && foodEaten.Some? ==> r.request.foodEaten == foodEaten.value
    ensures r.Accepted? && eaten.value != "No" && foodEaten.None? ==> r.request.foodEaten == ""
  {
    if duration.None? then BadRequest(DurationParam)
    else if period.None? then BadRequest(PeriodParam)
    else if eaten.None? then BadRequest(EatenParam)
    else
      var food := if eaten.value == "No" then "" else match foodEaten case None => "" case Some(s) => s;
      Accepted(SeizureRequest(duration.value, period.value, eaten.value, food))
  }

  datatype Response = Rejected(missing: QueryParam) | Done(message: Logged)

  /** The `/seizure` route: validate, then log. The e-mail it sends afterwards
      is not part of this model. */
  method SeizureRoute(store: CsvFile, now: int, duration: Option<int>, period: Option<string>,
                      eaten: Option<string>, foodEaten: Option<string>) returns (r: Response)
    modifies store
    ensures CheckSeizureQuery(duration, period, eaten, foodEaten).BadRequest? ==>
      r == Rejected(CheckSeizureQuery(duration, period, eaten, foodEaten).missing) && store.file == old(store.file)
    ensures CheckSeizureQuery(duration, period, eaten, foodEaten).Accepted? ==>
      var q := CheckSeizureQuery(duration, period, eaten, foodEaten).request;
      r == Done(SeizureLogged(q.duration)) &&
      store.file == Written(old(store.file), store.header, SeizureLine(SeizureRowAt(now, q.duration, q.period, q.eaten, q.foodEaten)))
  {
    var checked := CheckSeizureQuery(duration, period, eaten, foodEaten);
    match checked {
      case BadRequest(m) =>
        r := Rejected(m);
      case Accepted(q) =>
        var msg := TrackSeizure(store, now, q.duration, q.period, q.eaten, q.foodEaten);
        r := Done(msg);
    }
  }

  /** The `/pain` route: any integer is accepted (no 1..10 range check). */
  method PainRoute(store: CsvFile, now: int, pain: Option<int>) returns (r: Response)
    modifies store
    ensures pain.None? ==> r == Rejected(PainParam) && store.file == old(store.file)
    ensures pain.Some? ==>
      && r == Done(PainLogged)
      && store.file == Written(old(store.file), store.header, PainLine(PainEntry(Clock.DayOf(now), now % Clock.SecondsPerDay, pain.value)))
  {
    if pain.None? {
      return Rejected(PainParam);
    }
    var msg := TrackPain(store, now, pain.value);
    r := Done(msg);
  }

  /** The three countdown messages. */
  datatype Countdown = Overdue(daysAgo: nat) | DueIn(days: nat) | DueToday

  /** Days until the next expected seizure: 14 minus the days since the last one. */
  const CycleDays: int := 14

  /** The message for countdown `n`. */
  function CountdownMessage(n: int): (c: Countdown)
    ensures c.Overdue? <==> n < 0
    ensures c.DueIn? <==> n > 0
    ensures c.DueToday? <==> n == 0
  {
    if n < 0 then Overdue(-n) else if n > 0 then DueIn(n) else DueToday
  }

  /** The signed countdown a message stands for. */
  function SignedDays(c: Countdown): int
  {
    match c
    case Overdue(d) => -(d as int)
    case DueIn(d) => d
    case DueToday => 0
  }

  /** The message loses nothing: the countdown can be read back from it. */
  lemma CountdownRoundTrip(n: int)
    ensures SignedDays(CountdownMessage(n)) == n
  {
  }

  datatype NextAnswer = NoSeizureData | FileNotFound | ReadFailure | Next(countdown: Countdown)

  /** The day in the first comma-separated field of a line, when it parses as
      a date; the header's "Date" does not. */
  function LineDate(l: Line): (d: Option<int>)
    ensures d.None? <==> l.HeaderLine?
  {
    match l
    case HeaderLine(_) => None
    case SeizureLine(e) => Some(e.date)
    case PainLine(p) => Some(p.date)
  }

  /** `getnextseizure` on the seizure file with today's day number `today`:
      404 for a missing or empty file, 500 when the last line's date does not
      parse, otherwise the countdown 14 - (today - last date). */
  function NextSeizure(f: File, today: int): (r: NextAnswer)
    ensures r == FileNotFound <==> f.Missing?
    ensures r == NoSeizureData <==> f.Present? && |f.lines| == 0
    ensures r == ReadFailure <==> f.Present? && |f.lines| > 0 && f.lines[|f.lines| - 1].HeaderLine?
    ensures r.Next? ==> var last := LineDate(f.lines[|f.lines| - 1]).value;
      SignedDays(r.countdown) == CycleDays - (today - last)
  {
    match f
    case Missing => FileNotFound
    case Present(lines) =>
      if |lines| == 0 then NoSeizureData
      else
        match LineDate(lines[|lines| - 1])
        case None => ReadFailure
        case Some(last) => Next(CountdownMessage(CycleDays - (today - last)))
  }

  /** Right after a seizure is logged, the countdown read on the same day is
      the full 14 days, whether or not the file existed before. */
  lemma LoggedTodayIsFullCycle(f: File, now: int, duration: int, period: string, eaten: string, foodEaten: string)
    ensures NextSeizure(Written(f, SeizureHeader, SeizureLine(SeizureRowAt(now, duration, period, eaten, foodEaten))),
                        Clock.DayOf(now)) == Next(DueIn(14))
  {
    var g := Written(f, SeizureHeader, SeizureLine(SeizureRowAt(now, duration, period, eaten, foodEaten)));
    assert g.lines[|g.lines| - 1] == SeizureLine(SeizureRowAt(now, duration, period, eaten, foodEaten));
  }

  /** A file holding only the header row makes the countdown fail with 500. */
  lemma HeaderOnlyFails(today: int)
    ensures NextSeizure(Present([HeaderLine(SeizureHeader)]), today) == ReadFailure
  {
  }
}
