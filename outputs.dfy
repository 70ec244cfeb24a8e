/** The two outputs of a forecast run, written the same way by both
    forecasting entry points: the three-line `prediction.txt` (overwritten)
    and the `longTermPredictions.json` list (one entry appended per run). */
module Outputs {
  import opened Seqs

  /** Percentages for the 24, 48 and 72 hour horizons. */
  datatype Horizons = Horizons(h24: real, h48: real, h72: real)

  /** One line "<p>% chance of seizure in the next <hours> hours.", with `p`
      printed to one decimal. */
  datatype TextLine = TextLine(percent: real, hours: int)

  /** The lines of `prediction.txt`, in 24 / 48 / 72 order. */
  function OutputLines(p: Horizons): (lines: seq<TextLine>)
    ensures |lines| == 3
    ensures lines[0].hours == 24 && lines[1].hours == 48 && lines[2].hours == 72
    ensures lines[0].percent == Round1(p.h24) && lines[1].percent == Round1(p.h48) && lines[2].percent == Round1(p.h72)
  {
    [TextLine(Round1(p.h24), 24), TextLine(Round1(p.h48), 48), TextLine(Round1(p.h72), 72)]
  }

  /** `{"timestamp": ..., "predictions": {"24h": ..., "48h": ..., "72h": ...}}`. */
  datatype LogEntry = LogEntry(timestamp: int, predictions: Horizons)

  /** The log file as `json.load` sees it. */
  datatype LogFile = Absent | Unreadable | Entries(entries: seq<LogEntry>)

  /** What the run starts from: the stored list, or `[]` when the file is
      missing or is not valid JSON. */
  function Existing(f: LogFile): seq<LogEntry>
  {
    if f.Entries? then f.entries else []
  }

  /** The entry a run appends: its time and the values rounded to one decimal. */
  function NewEntry(now: int, p: Horizons): (e: LogEntry)
    ensures e.timestamp == now
    ensures e.predictions == Horizons(Round1(p.h24), Round1(p.h48), Round1(p.h72))
  {
    LogEntry(now, Horizons(Round1(p.h24), Round1(p.h48), Round1(p.h72)))
  }

  /** The list written back after one run. */
  function Appended(f: LogFile, now: int, p: Horizons): (r: seq<LogEntry>)
    ensures |r| == |Existing(f)| + 1
    ensures r[..|Existing(f)|] == Existing(f)
    ensures r[|r| - 1] == NewEntry(now, p)
  {
    Existing(f) + [NewEntry(now, p)]
  }

  /** A missing or unreadable log restarts from a one-entry list. */
  lemma AppendedRestarts(f: LogFile, now: int, p: Horizons)
    requires !f.Entries?
    ensures Appended(f, now, p) == [NewEntry(now, p)]
  {
  }

  /** Runs append in order: after a run on a readable log, the next run sees
      every earlier entry, then this one. */
  lemma AppendedTwice(f: LogFile, t1: int, p1: Horizons, t2: int, p2: Horizons)
    ensures var first := Appended(f, t1, p1);
      Appended(Entries(first), t2, p2) == Existing(f) + [NewEntry(t1, p1), NewEntry(t2, p2)]
  {
  }

  /** The two files a run writes. */
  class Store {
    var text: seq<TextLine>
    var log: LogFile

    constructor (text: seq<TextLine>, log: LogFile)
      ensures this.text == text && this.log == log
    {
      this.text := text;
      this.log := log;
    }

    /** `write_outputs` (and the tail of `predict.main`): overwrite the text
        file, then read the log, append the new entry and write it back. */
    method WriteOutputs(now: int, p: Horizons)
      modifies this
      ensures text == OutputLines(p)
      ensures log == Entries(Appended(old(log), now, p))
    {
      text := OutputLines(p);
      var predictionsList := Existing(log);
      predictionsList := predictionsList + [NewEntry(now, p)];
      log := Entries(predictionsList);
    }
  }
}
