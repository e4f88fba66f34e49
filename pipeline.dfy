/**
 * The two programs meet at the data file: the monitor writes records and the
 * chart generator reads them back. A record the monitor writes has a
 * timestamp, a `temperatures` object and only numbers in it.
 */
module Pipeline {
  import opened Wrappers
  import Monitor
  import opened Charts

  /** A saved record as the chart generator reads it. */
  function EntryOf(r: Monitor.Record): (e: Entry)
    ensures e.temperatures.TempMap?
    ensures forall k :: k in e.temperatures.values <==> k in r.temperatures
    ensures forall k :: k in r.temperatures ==> e.temperatures.values[k] == Number(r.temperatures[k])
  {
    Entry(Some(r.timestamp), TempMap(map k | k in r.temperatures :: Number(r.temperatures[k])))
  }

  function EntriesOf(rs: seq<Monitor.Record>): (es: seq<Entry>)
    ensures |es| == |rs|
    ensures forall i :: 0 <= i < |rs| ==> es[i] == EntryOf(rs[i])
  {
    seq(|rs|, i requires 0 <= i < |rs| => EntryOf(rs[i]))
  }

  /**
   * Charting what the monitor saved: the three series have one position per
   * record, and a component's position holds its reading exactly when the
   * record has one.
   */
  lemma MonitorDataAligned(rs: seq<Monitor.Record>, fromIso: FromIso)
    requires forall i :: 0 <= i < |rs| ==> fromIso(rs[i].timestamp).Some?
    ensures var s := Parsed(EntriesOf(rs), fromIso);
      && |s.timestamps| == |s.cpu| == |s.gpu| == |rs|
      && forall i :: 0 <= i < |rs| ==>
           && s.timestamps[i] == fromIso(rs[i].timestamp).value
           && (s.cpu[i].Reading? <==> "cpu" in rs[i].temperatures)
           && (s.gpu[i].Reading? <==> "gpu" in rs[i].temperatures)
           && (s.cpu[i].Reading? ==> s.cpu[i].centi == rs[i].temperatures["cpu"])
           && (s.gpu[i].Reading? ==> s.gpu[i].centi == rs[i].temperatures["gpu"])
  {
    var data := EntriesOf(rs);
    assert forall i :: 0 <= i < |data| ==> InstantOf(data[i], fromIso).Some?;
    AllParsable(data, fromIso);
    forall e | e in data && InstantOf(e, fromIso).Some? ensures e.temperatures.TempMap? {
      var i :| 0 <= i < |data| && data[i] == e;
    }
    SeriesAligned(data, fromIso, true);
  }

  /** The monitor never writes JSON null, so the statistics chart as written does not raise on its records. */
  lemma MonitorDataNeverRaises(rs: seq<Monitor.Record>, fromIso: FromIso)
    ensures StatisticsChartAsWritten(EntriesOf(rs), fromIso) == Done(StatisticsChart(EntriesOf(rs), fromIso))
  {
    var data := EntriesOf(rs);
    var w := RecentWindow(data);
    forall e, k | e in w && e.temperatures.TempMap? && k in e.temperatures.values
      ensures e.temperatures.values[k].Number?
    {
      var i :| 0 <= i < |w| && w[i] == e;
      assert e == data[|data| - |w| + i];
    }
    CorrectionAgrees(data, fromIso);
  }
}
