/**
 * The record-shaping part of the chart generator (chart_generator.py): turning
 * the data file's entries into aligned time series, the valid-value filters,
 * the window of recent entries, and the guards that decide whether a chart is
 * made and which series it draws. The drawing itself is not modelled; a
 * chart is described by which of its parts would be drawn.
 */
module Charts {
  import opened Wrappers

  /** A temperature as stored in the data file: a number (hundredths of a degree) or JSON null. */
  datatype Stored = Number(centi: int) | JsonNull

  /**
   * The `temperatures` field of an entry: an object, or any other JSON value.
   * An entry without the field reads as the empty object (`get` with default `{}`).
   */
  datatype TempsField = TempMap(values: map<string, Stored>) | NotAMap

  /** A data-file entry; `timestamp` is `None` when the entry has no "timestamp" string. */
  datatype Entry = Entry(timestamp: Option<string>, temperatures: TempsField)

  /** `datetime.fromisoformat`: the instant a text denotes, `None` when it raises. */
  type FromIso = string -> Option<int>

  /**
   * One position of a temperature series: a reading, the `nan` placeholder,
   * or Python's `None` left in the list.
   */
  datatype Point = Reading(centi: int) | Nan | NoneValue

  /** The three lists the parsing loops build. */
  datatype Series = Series(timestamps: seq<int>, cpu: seq<Point>, gpu: seq<Point>)

  /** The outcome of an expression that may raise `TypeError`. */
  datatype Outcome<T> = Done(value: T) | TypeErrorRaised

  /** The instant of an entry, when it has a timestamp that parses. */
  function InstantOf(e: Entry, fromIso: FromIso): Option<int> {
    if e.timestamp.Some? then fromIso(e.timestamp.value) else None
  }

  /**
   * The point read for `key`. `parse_data` uses `get(key)` and replaces `None`
   * by `nan` (`nullAsNan`); the recent-trend loop uses `get(key, nan)`, which
   * leaves an explicit JSON null as `None`.
   */
  function PointOf(m: map<string, Stored>, key: string, nullAsNan: bool): (p: Point)
    ensures p.NoneValue? <==> !nullAsNan && key in m && m[key].JsonNull?
    ensures p.Reading? <==> key in m && m[key].Number?
    ensures p.Reading? ==> p.centi == m[key].centi
  {
    if key !in m then Nan
    else match m[key]
      case Number(c) => Reading(c)
      case JsonNull => if nullAsNan then Nan else NoneValue
  }

  /** What one entry adds to the three lists. */
  function EntrySeries(e: Entry, fromIso: FromIso, nullAsNan: bool): Series {
    match InstantOf(e, fromIso)
    case None => Series([], [], [])
    case Some(t) =>
      match e.temperatures
      case NotAMap => Series([t], [], [])  // `.get` raises after the timestamp was appended
      case TempMap(m) => Series([t], [PointOf(m, "cpu", nullAsNan)], [PointOf(m, "gpu", nullAsNan)])
  }

  function Concat(a: Series, b: Series): Series {
    Series(a.timestamps + b.timestamps, a.cpu + b.cpu, a.gpu + b.gpu)
  }

  predicate NoNone(ps: seq<Point>) {
    forall i :: 0 <= i < |ps| ==> !ps[i].NoneValue?
  }

  /**
   * The three lists built from `data`, entry by entry. The two temperature
   * lists always have the same length, no longer than the timestamps; with
   * `nullAsNan` they never hold `None`.
   */
  function SeriesOf(data: seq<Entry>, fromIso: FromIso, nullAsNan: bool): (s: Series)
    ensures |s.cpu| == |s.gpu| <= |s.timestamps| <= |data|
    ensures nullAsNan ==> NoNone(s.cpu) && NoNone(s.gpu)
  {
    if data == [] then Series([], [], [])
    else Concat(SeriesOf(data[..|data| - 1], fromIso, nullAsNan), EntrySeries(data[|data| - 1], fromIso, nullAsNan))
  }

  /** `parse_data`: the series of all entries, with `None` turned into `nan`. */
  function Parsed(data: seq<Entry>, fromIso: FromIso): Series {
    SeriesOf(data, fromIso, true)
  }

  /**
   * The loop of `parse_data` (and, with `nullAsNan` false, the recent-trend
   * loop): append to the three lists in lockstep, skipping an entry whose
   * timestamp is missing or does not parse.
   */
  method CollectSeries(data: seq<Entry>, fromIso: FromIso, nullAsNan: bool)
    returns (timestamps: seq<int>, cpuTemps: seq<Point>, gpuTemps: seq<Point>)
    ensures Series(timestamps, cpuTemps, gpuTemps) == SeriesOf(data, fromIso, nullAsNan)
  {
    timestamps, cpuTemps, gpuTemps := [], [], [];
    var i := 0;
    while i < |data|
      invariant 0 <= i <= |data|
      invariant Series(timestamps, cpuTemps, gpuTemps) == SeriesOf(data[..i], fromIso, nullAsNan)
    {
      assert data[..i + 1][..i] == data[..i] && data[..i + 1][i] == data[i];
      assert SeriesOf(data[..i + 1], fromIso, nullAsNan)
          == Concat(SeriesOf(data[..i], fromIso, nullAsNan), EntrySeries(data[i], fromIso, nullAsNan));
      var entry := data[i];
      if entry.timestamp.Some? {
        var t := fromIso(entry.timestamp.value);
        if t.Some? {
          timestamps := timestamps + [t.value];
          match entry.temperatures {
            case NotAMap =>
            case TempMap(m) =>
              cpuTemps := cpuTemps + [PointOf(m, "cpu", nullAsNan)];
              gpuTemps := gpuTemps + [PointOf(m, "gpu", nullAsNan)];
          }
        }
      }
      i := i + 1;
    }
    assert data[..i] == data;
  }

  /** `parse_data` */
  method ParseData(data: seq<Entry>, fromIso: FromIso) returns (timestamps: seq<int>, cpuTemps: seq<Point>, gpuTemps: seq<Point>)
    ensures Series(timestamps, cpuTemps, gpuTemps) == Parsed(data, fromIso)
    ensures NoNone(cpuTemps) && NoNone(gpuTemps)
  {
    timestamps, cpuTemps, gpuTemps := CollectSeries(data, fromIso, true);
  }

  /** The entries whose timestamp parses, in order. */
  function ParsableEntries(data: seq<Entry>, fromIso: FromIso): (good: seq<Entry>)
    ensures |good| <= |data|
    ensures forall k :: 0 <= k < |good| ==> good[k] in data && InstantOf(good[k], fromIso).Some?
  {
    if data == [] then []
    else
      var init := ParsableEntries(data[..|data| - 1], fromIso);
      var last := data[|data| - 1];
      assert forall e :: e in data[..|data| - 1] ==> e in data;
      if InstantOf(last, fromIso).Some? then init + [last] else init
  }

  /** The timestamps are exactly the instants of the entries that parse, in order. */
  lemma {:induction false} TimestampsOfParsable(data: seq<Entry>, fromIso: FromIso, nullAsNan: bool)
    ensures var s := SeriesOf(data, fromIso, nullAsNan);
      var good := ParsableEntries(data, fromIso);
      && |s.timestamps| == |good|
      && forall k :: 0 <= k < |good| ==> s.timestamps[k] == InstantOf(good[k], fromIso).value
  {
    if data != [] {
      TimestampsOfParsable(data[..|data| - 1], fromIso, nullAsNan);
    }
  }

  /** When every timestamp parses, every entry is kept. */
  lemma {:induction false} AllParsable(data: seq<Entry>, fromIso: FromIso)
    requires forall i :: 0 <= i < |data| ==> InstantOf(data[i], fromIso).Some?
    ensures ParsableEntries(data, fromIso) == data
  {
    if data != [] {
      AllParsable(data[..|data| - 1], fromIso);
      assert data[..|data| - 1] + [data[|data| - 1]] == data;
    }
  }

  /**
   * When the `temperatures` of every entry that parses is an object, the three
   * lists have one position per such entry, and position k of each comes from
   * the same entry; an absent or null reading is a placeholder at its position.
   */
  lemma {:induction false} SeriesAligned(data: seq<Entry>, fromIso: FromIso, nullAsNan: bool)
    requires forall e :: e in data && InstantOf(e, fromIso).Some? ==> e.temperatures.TempMap?
    ensures var s := SeriesOf(data, fromIso, nullAsNan);
      var good := ParsableEntries(data, fromIso);
      && |s.timestamps| == |s.cpu| == |s.gpu| == |good|
      && forall k :: 0 <= k < |good| ==>
           && s.timestamps[k] == InstantOf(good[k], fromIso).value
           && s.cpu[k] == PointOf(good[k].temperatures.values, "cpu", nullAsNan)
           && s.gpu[k] == PointOf(good[k].temperatures.values, "gpu", nullAsNan)
  {
    if data != [] {
      assert forall e :: e in data[..|data| - 1] ==> e in data;
      SeriesAligned(data[..|data| - 1], fromIso, nullAsNan);
    }
  }

  /**
   * An entry whose timestamp parses but whose `temperatures` is not an object
   * adds a timestamp and no temperature: the lists fall out of step.
   */
  lemma Misaligned(s: string, fromIso: FromIso)
    requires fromIso(s).Some?
    ensures var p := Parsed([Entry(Some(s), NotAMap)], fromIso);
      |p.timestamps| == 1 && |p.cpu| == 0 && |p.gpu| == 0
  {
    var data := [Entry(Some(s), NotAMap)];
    assert data[..0] == [];
  }

  /** The valid readings of a series, nan left out, in order. */
  function ValidTemps(ps: seq<Point>): (vs: seq<int>)
    ensures |vs| <= |ps|
    ensures forall v :: v in vs <==> Reading(v) in ps
  {
    if ps == [] then []
    else
      var rest := ValidTemps(ps[1..]);
      assert forall p :: p in ps <==> p == ps[0] || p in ps[1..];
      if ps[0].Reading? then [ps[0].centi] + rest else rest
  }

  /** Filtering a concatenation is concatenating the filtered parts: order is kept. */
  lemma {:induction false} ValidTempsConcat(a: seq<Point>, b: seq<Point>)
    ensures ValidTemps(a + b) == ValidTemps(a) + ValidTemps(b)
  {
    if a == [] {
      assert a + b == b;
    } else {
      assert (a + b)[0] == a[0] && (a + b)[1..] == a[1..] + b;
      ValidTempsConcat(a[1..], b);
    }
  }

  /**
   * Whether a series holds any valid reading, scanning left to right and
   * stopping at the first one; the nan test raises `TypeError` when the scan
   * reaches a `None`.
   */
  function AnyNotNan(ps: seq<Point>): (o: Outcome<bool>)
    ensures o.Done? ==> (o.value <==> ValidTemps(ps) != [])
  {
    if ps == [] then Done(false)
    else match ps[0]
      case Reading(_) => Done(true)
      case Nan =>
        assert ValidTemps(ps) == ValidTemps(ps[1..]);
        AnyNotNan(ps[1..])
      case NoneValue => TypeErrorRaised
  }

  /** The scan raises exactly when a `None` comes before every reading. */
  lemma {:induction false} AnyNotNanRaises(ps: seq<Point>)
    ensures AnyNotNan(ps) == TypeErrorRaised <==>
      exists i :: 0 <= i < |ps| && ps[i].NoneValue? && forall j :: 0 <= j < i ==> ps[j].Nan?
  {
    if ps != [] {
      AnyNotNanRaises(ps[1..]);
      if ps[0].Nan? {
        if exists i :: 0 <= i < |ps[1..]| && ps[1..][i].NoneValue? && forall j :: 0 <= j < i ==> ps[1..][j].Nan? {
          var i :| 0 <= i < |ps[1..]| && ps[1..][i].NoneValue? && forall j :: 0 <= j < i ==> ps[1..][j].Nan?;
          assert ps[i + 1].NoneValue? && forall j :: 0 <= j < i + 1 ==> ps[j].Nan?;
        }
        if exists i :: 0 <= i < |ps| && ps[i].NoneValue? && forall j :: 0 <= j < i ==> ps[j].Nan? {
          var i :| 0 <= i < |ps| && ps[i].NoneValue? && forall j :: 0 <= j < i ==> ps[j].Nan?;
          assert i > 0;
          assert ps[1..][i - 1].NoneValue? && forall j :: 0 <= j < i - 1 ==> ps[1..][j].Nan?;
        }
      }
    }
  }

  /** Without a `None` the scan never raises: it tells whether some reading is present. */
  lemma {:induction false} AnyNotNanTotal(ps: seq<Point>)
    ensures NoNone(ps) ==> AnyNotNan(ps) == Done(ValidTemps(ps) != [])
  {
    if ps != [] {
      AnyNotNanTotal(ps[1..]);
    }
  }

  /** The window of the recent-readings panel: the last 20 entries, or all of them when there are fewer. */
  function RecentWindow(data: seq<Entry>): (w: seq<Entry>)
    ensures |w| == if |data| > 20 then 20 else |data|
    ensures w == data[|data| - |w|..]
  {
    if |data| > 20 then data[|data| - 20..] else data
  }

  // ---------------------------------------------------------------------------
  // The two charts' guards.

  datatype TrendPlan = TrendNoData | NoTimestamps | TrendDrawn(cpu: bool, gpu: bool)

  /**
   * `create_temperature_chart`: no chart without entries or without a
   * timestamp that parses; otherwise a series is drawn when it holds a reading.
   */
  function TrendChart(data: seq<Entry>, fromIso: FromIso): (p: TrendPlan)
    ensures p == TrendNoData <==> data == []
    ensures p.TrendDrawn? ==> (p.cpu <==> ValidTemps(Parsed(data, fromIso).cpu) != [])
    ensures p.TrendDrawn? ==> (p.gpu <==> ValidTemps(Parsed(data, fromIso).gpu) != [])
  {
    if data == [] then TrendNoData
    else
      var s := Parsed(data, fromIso);
      if s.timestamps == [] then NoTimestamps
      else
        AnyNotNanTotal(s.cpu);
        AnyNotNanTotal(s.gpu);
        TrendDrawn(AnyNotNan(s.cpu).value, AnyNotNan(s.gpu).value)
  }

  /** The trend chart gives up for want of timestamps exactly when no entry's timestamp parses. */
  lemma TrendNeedsTimestamps(data: seq<Entry>, fromIso: FromIso)
    ensures TrendChart(data, fromIso) == NoTimestamps <==>
      data != [] && forall i :: 0 <= i < |data| ==> InstantOf(data[i], fromIso).None?
  {
    TimestampsOfParsable(data, fromIso, true);
    NoneParsable(data, fromIso);
  }

  lemma {:induction false} NoneParsable(data: seq<Entry>, fromIso: FromIso)
    ensures ParsableEntries(data, fromIso) == [] <==> forall i :: 0 <= i < |data| ==> InstantOf(data[i], fromIso).None?
  {
    if data != [] {
      var init := data[..|data| - 1];
      NoneParsable(init, fromIso);
      assert forall i :: 0 <= i < |init| ==> init[i] == data[i];
      if ParsableEntries(data, fromIso) == [] {
        assert ParsableEntries(init, fromIso) == [];
      }
    }
  }

  datatype RecentPlan = NoRecent | RecentDrawn(cpu: bool, gpu: bool)

  datatype StatsPlan =
    | StatsNoData
    | NoValidData
    | StatsDrawn(cpuStats: bool, gpuStats: bool, recent: RecentPlan)

  /**
   * The recent-trend panel of `create_statistics_chart` as written: the loop
   * keeps JSON null as `None`, and `any` over a series raises `TypeError` when
   * it meets that `None` before a reading.
   */
  function RecentPanelAsWritten(data: seq<Entry>, fromIso: FromIso): (o: Outcome<RecentPlan>)
    ensures var r := SeriesOf(RecentWindow(data), fromIso, false);
      && (o == Done(NoRecent) <==> r.timestamps == [])
      && (o.Done? && o.value.RecentDrawn? ==>
            (o.value.cpu <==> ValidTemps(r.cpu) != []) && (o.value.gpu <==> ValidTemps(r.gpu) != []))
      && (NoNone(r.cpu) && NoNone(r.gpu) ==> o.Done?)
  {
    var r := SeriesOf(RecentWindow(data), fromIso, false);
    if r.timestamps == [] then Done(NoRecent)
    else
      AnyNotNanTotal(r.cpu);
      AnyNotNanTotal(r.gpu);
      match AnyNotNan(r.cpu)
      case TypeErrorRaised => TypeErrorRaised
      case Done(cpu) =>
        match AnyNotNan(r.gpu)
        case TypeErrorRaised => TypeErrorRaised
        case Done(gpu) => Done(RecentDrawn(cpu, gpu))
  }

  /**
   * The recent-trend panel with JSON null read as `nan`, as `parse_data` reads
   * it: the recent series are the parsed series of the window.
   */
  function RecentPanel(data: seq<Entry>, fromIso: FromIso): (p: RecentPlan)
    ensures var r := Parsed(RecentWindow(data), fromIso);
      && (p == NoRecent <==> r.timestamps == [])
      && (p.RecentDrawn? ==> (p.cpu <==> ValidTemps(r.cpu) != []) && (p.gpu <==> ValidTemps(r.gpu) != []))
  {
    var r := Parsed(RecentWindow(data), fromIso);
    if r.timestamps == [] then NoRecent
    else
      AnyNotNanTotal(r.cpu);
      AnyNotNanTotal(r.gpu);
      RecentDrawn(AnyNotNan(r.cpu).value, AnyNotNan(r.gpu).value)
  }

  /** The statistics chart's decisions, given how the recent panel comes out. */
  function StatsWith(data: seq<Entry>, fromIso: FromIso, recent: RecentPlan): StatsPlan {
    if data == [] then StatsNoData
    else
      var s := Parsed(data, fromIso);
      var cpu := ValidTemps(s.cpu);
      var gpu := ValidTemps(s.gpu);
      if cpu == [] && gpu == [] then NoValidData
      else StatsDrawn(cpu != [], gpu != [], recent)
  }

  /** `create_statistics_chart` as written. */
  function StatisticsChartAsWritten(data: seq<Entry>, fromIso: FromIso): (o: Outcome<StatsPlan>)
    ensures o == Done(StatsNoData) <==> data == []
    ensures o == Done(NoValidData) <==>
      data != [] && ValidTemps(Parsed(data, fromIso).cpu) == [] && ValidTemps(Parsed(data, fromIso).gpu) == []
    ensures o.TypeErrorRaised? ==>
      RecentPanelAsWritten(data, fromIso).TypeErrorRaised?
      && (ValidTemps(Parsed(data, fromIso).cpu) != [] || ValidTemps(Parsed(data, fromIso).gpu) != [])
    ensures o.Done? && o.value.StatsDrawn? ==>
      (o.value.cpuStats <==> ValidTemps(Parsed(data, fromIso).cpu) != [])
      && (o.value.gpuStats <==> ValidTemps(Parsed(data, fromIso).gpu) != [])
      && Done(o.value.recent) == RecentPanelAsWritten(data, fromIso)
  {
    var s := StatsWith(data, fromIso, NoRecent);
    if !s.StatsDrawn? then Done(s)
    else match RecentPanelAsWritten(data, fromIso)
      case TypeErrorRaised => TypeErrorRaised
      case Done(recent) => Done(StatsWith(data, fromIso, recent))
  }

  /**
   * `create_statistics_chart`, with the recent panel reading null as `nan`:
   * no chart without entries or without a single valid reading; a statistics
   * column for each component with valid readings.
   */
  function StatisticsChart(data: seq<Entry>, fromIso: FromIso): (p: StatsPlan)
    ensures p == StatsNoData <==> data == []
    ensures p == NoValidData <==>
      data != [] && ValidTemps(Parsed(data, fromIso).cpu) == [] && ValidTemps(Parsed(data, fromIso).gpu) == []
    ensures p.StatsDrawn? ==> (p.cpuStats <==> ValidTemps(Parsed(data, fromIso).cpu) != [])
                              && (p.gpuStats <==> ValidTemps(Parsed(data, fromIso).gpu) != [])
                              && p.recent == RecentPanel(data, fromIso)
  {
    StatsWith(data, fromIso, RecentPanel(data, fromIso))
  }

  /** Without a JSON null among the window's readings, both loops build the same series. */
  lemma {:induction false} SameSeriesWithoutNull(w: seq<Entry>, fromIso: FromIso)
    requires forall e, k :: e in w && e.temperatures.TempMap? && k in e.temperatures.values
               ==> e.temperatures.values[k].Number?
    ensures SeriesOf(w, fromIso, false) == SeriesOf(w, fromIso, true)
  {
    if w != [] {
      assert forall e :: e in w[..|w| - 1] ==> e in w;
      SameSeriesWithoutNull(w[..|w| - 1], fromIso);
    }
  }

  /**
   * The correction changes nothing else: without a JSON null among the
   * window's readings, the chart as written raises nothing and decides the same.
   */
  lemma CorrectionAgrees(data: seq<Entry>, fromIso: FromIso)
    requires forall e, k :: e in RecentWindow(data) && e.temperatures.TempMap? && k in e.temperatures.values
               ==> e.temperatures.values[k].Number?
    ensures StatisticsChartAsWritten(data, fromIso) == Done(StatisticsChart(data, fromIso))
  {
    var w := RecentWindow(data);
    SameSeriesWithoutNull(w, fromIso);
    var r := Parsed(w, fromIso);
    AnyNotNanTotal(r.cpu);
    AnyNotNanTotal(r.gpu);
  }

  /**
   * A single entry whose cpu value is JSON null and whose gpu value is 50
   * degrees: parsing reads the null as `nan` and the statistics have a GPU
   * column, but the recent-trend panel as written raises `TypeError`.
   */
  lemma NullCrashesStatistics(s: string, fromIso: FromIso)
    requires fromIso(s).Some?
    ensures var data := [Entry(Some(s), TempMap(map["cpu" := JsonNull, "gpu" := Number(5000)]))];
      && StatisticsChartAsWritten(data, fromIso) == TypeErrorRaised
      && StatisticsChart(data, fromIso) == StatsDrawn(false, true, RecentDrawn(false, true))
  {
    var m := map["cpu" := JsonNull, "gpu" := Number(5000)];
    var data := [Entry(Some(s), TempMap(m))];
    assert data[..0] == [];
    assert RecentWindow(data) == data;
    var t := fromIso(s).value;
    assert SeriesOf(data, fromIso, false) == Series([t], [NoneValue], [Reading(5000)]);
    assert Parsed(data, fromIso) == Series([t], [Nan], [Reading(5000)]);
    assert [Nan][1..] == [] && [Reading(5000)][1..] == [];
  }
}
