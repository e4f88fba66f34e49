/**
 * The monitor itself (`TemperatureMonitor` in main.py): configuration with its
 * defaults, the per-tick record, and the rule by which records reach the data
 * file. The data file is a field the save operation updates; reading and
 * writing JSON is abstracted into the three states the file can be in.
 */
module Monitor {
  import opened Wrappers
  import opened Units
  import opened Probes
  import opened GpuChain

  /**
   * The keys of the configuration file that the monitor reads; a key the file
   * does not hold is `None`. A file that cannot be opened or parsed reads as
   * the empty configuration.
   */
  datatype Config = Config(
    dataFile: Option<string>,
    intervalSeconds: Option<int>,
    monitorComponents: Option<map<string, bool>>,
    autoSave: Option<bool>)

  const EmptyConfig := Config(None, None, None, None)

  /** Both components are monitored when the configuration does not say otherwise. */
  const DefaultComponents: map<string, bool> := map["cpu" := true, "gpu" := true]

  /** A component is monitored only when its key is present and set; a missing key means disabled. */
  predicate Enabled(components: map<string, bool>, key: string) {
    key in components && components[key]
  }

  /** One tick's record: when it was taken and the readings, in hundredths of a degree. */
  datatype Record = Record(timestamp: string, temperatures: map<string, int>)

  /** The data file: not there yet, a list of records, or content that cannot be appended to. */
  datatype DataFile = Absent | Entries(records: seq<Record>) | Unreadable

  /** What the host gives one tick: the time stamp `isoformat` produces and the process results. */
  datatype Tick = Tick(now: string, host: Host)

  /** The CPU reading of a tick. */
  function CpuReading(host: Host): Option<int> {
    LineReading(ThermalCounterRule, host(ThermalZoneCounters))
  }

  /** The GPU reading of a tick: the probe chain's. */
  function GpuReading(host: Host): Option<int> {
    FirstReading(Runs(GpuOrder, host))
  }

  /**
   * The record built from a tick's readings: a component's key is present
   * exactly when the component is enabled and its probe yielded a reading.
   */
  function RecordOf(components: map<string, bool>, now: string, cpu: Option<int>, gpu: Option<int>): (r: Record)
    ensures r.timestamp == now
    ensures "cpu" in r.temperatures <==> Enabled(components, "cpu") && cpu.Some?
    ensures "gpu" in r.temperatures <==> Enabled(components, "gpu") && gpu.Some?
    ensures "cpu" in r.temperatures ==> r.temperatures["cpu"] == cpu.value
    ensures "gpu" in r.temperatures ==> r.temperatures["gpu"] == gpu.value
    ensures forall k :: k in r.temperatures ==> k == "cpu" || k == "gpu"
  {
    var withCpu := if Enabled(components, "cpu") && cpu.Some? then map["cpu" := cpu.value] else map[];
    var temps := if Enabled(components, "gpu") && gpu.Some? then withCpu["gpu" := gpu.value] else withCpu;
    Record(now, temps)
  }

  /** The record a tick produces under the given component flags. */
  function TickRecord(components: map<string, bool>, t: Tick): Record {
    RecordOf(components, t.now, CpuReading(t.host), GpuReading(t.host))
  }

  /** The commands a tick issues: the CPU probe's, then the GPU chain's, each only when enabled. */
  function TickCalls(components: map<string, bool>, host: Host): seq<Command> {
    (if Enabled(components, "cpu") then [ThermalZoneCounters] else [])
    + (if Enabled(components, "gpu") then CallsUntilReading(Runs(GpuOrder, host)) else [])
  }

  /** The records a run keeps: those whose temperature map is not empty, in order. */
  function Kept(rs: seq<Record>): (kept: seq<Record>)
    ensures |kept| <= |rs|
    ensures forall i :: 0 <= i < |kept| ==> kept[i].temperatures != map[] && kept[i] in rs
    ensures forall i :: 0 <= i < |rs| && rs[i].temperatures != map[] ==> rs[i] in kept
  {
    if rs == [] then []
    else
      var init := Kept(rs[..|rs| - 1]);
      assert forall r :: r in rs[..|rs| - 1] ==> r in rs;
      assert forall i :: 0 <= i < |rs| - 1 ==> rs[i] == rs[..|rs| - 1][i];
      if rs[|rs| - 1].temperatures != map[] then init + [rs[|rs| - 1]] else init
  }

  /**
   * The data file after `records` were handed to `save_data` in order: nothing
   * changes when saving is off or nothing is handed over; an absent file is
   * created, a list is extended, and content that cannot be appended to makes
   * every save fail and stays as it was.
   */
  function Appended(f: DataFile, autoSave: bool, records: seq<Record>): (g: DataFile)
    ensures g == f <==> !autoSave || records == [] || f.Unreadable?
    ensures g.Absent? <==> f.Absent? && (!autoSave || records == [])
    ensures f.Entries? ==> g.Entries? && |f.records| <= |g.records| && g.records[..|f.records|] == f.records
    ensures autoSave && g.Entries? ==> |records| <= |g.records| && g.records[|g.records| - |records|..] == records
    ensures autoSave && records != [] && !f.Unreadable? ==>
      g.Entries? && |g.records| == (if f.Entries? then |f.records| else 0) + |records|
    ensures g.Unreadable? <==> f.Unreadable?
  {
    if !autoSave || records == [] then f
    else match f
      case Absent => Entries(records)
      case Entries(es) => Entries(es + records)
      case Unreadable => Unreadable
  }

  /** Saving records one batch after another is saving them all at once. */
  lemma AppendedTwice(f: DataFile, autoSave: bool, xs: seq<Record>, ys: seq<Record>)
    ensures Appended(Appended(f, autoSave, xs), autoSave, ys) == Appended(f, autoSave, xs + ys)
  {
    if autoSave && xs != [] && ys != [] && f.Entries? {
      assert f.records + xs + ys == f.records + (xs + ys);
    } else if ys == [] {
      assert xs + ys == xs;
    } else if xs == [] {
      assert xs + ys == ys;
    }
  }

  /** Keeping distributes over concatenation. */
  lemma {:induction false} KeptConcat(xs: seq<Record>, ys: seq<Record>)
    ensures Kept(xs + ys) == Kept(xs) + Kept(ys)
    decreases |ys|
  {
    if ys == [] {
      assert xs + ys == xs;
    } else {
      var ys' := ys[..|ys| - 1];
      assert (xs + ys)[..|xs + ys| - 1] == xs + ys';
      assert (xs + ys)[|xs + ys| - 1] == ys[|ys| - 1];
      KeptConcat(xs, ys');
    }
  }

  /** One more record handed over: saved when its map is not empty, and the file is as if all were saved at once. */
  lemma SaveStep(f: DataFile, autoSave: bool, done: seq<Record>, rec: Record)
    ensures Appended(f, autoSave, Kept(done + [rec]))
            == if rec.temperatures != map[] then Appended(Appended(f, autoSave, Kept(done)), autoSave, [rec])
               else Appended(f, autoSave, Kept(done))
  {
    KeptConcat(done, [rec]);
    assert Kept([rec]) == if rec.temperatures != map[] then [rec] else [];
    AppendedTwice(f, autoSave, Kept(done), Kept([rec]));
    assert Kept(done) + [] == Kept(done);
  }

  /** The records a run's ticks produce, in order. */
  function TickRecords(components: map<string, bool>, ticks: seq<Tick>): (rs: seq<Record>)
    ensures |rs| == |ticks|
  {
    if ticks == [] then []
    else TickRecords(components, ticks[..|ticks| - 1]) + [TickRecord(components, ticks[|ticks| - 1])]
  }

  /** One more tick: one more record at the end. */
  lemma RunStep(components: map<string, bool>, ticks: seq<Tick>, i: nat)
    requires i < |ticks|
    ensures TickRecords(components, ticks[..i + 1]) == TickRecords(components, ticks[..i]) + [TickRecord(components, ticks[i])]
  {
    assert ticks[..i + 1][..i] == ticks[..i];
  }

  /** The record at position i of a run is the record of tick i. */
  lemma {:induction false} TickRecordsAt(components: map<string, bool>, ticks: seq<Tick>, i: nat)
    requires i < |ticks|
    ensures TickRecords(components, ticks)[i] == TickRecord(components, ticks[i])
  {
    if i < |ticks| - 1 {
      TickRecordsAt(components, ticks[..|ticks| - 1], i);
    }
  }

  /**
   * A component that is not enabled is never probed: none of its commands is
   * issued during the tick.
   */
  lemma DisabledNeverProbed(components: map<string, bool>, host: Host)
    ensures !Enabled(components, "cpu") ==> ThermalZoneCounters !in TickCalls(components, host)
    ensures !Enabled(components, "gpu") ==> forall c :: c in TickCalls(components, host) ==> c == ThermalZoneCounters
  {
    if !Enabled(components, "cpu") {
      ChainIssuesGpuCommands(host);
    }
  }

  /** The GPU chain issues only the GPU probes' commands, never the CPU counter query. */
  lemma ChainIssuesGpuCommands(host: Host)
    ensures ThermalZoneCounters !in CallsUntilReading(Runs(GpuOrder, host))
  {
    var runs := Runs(GpuOrder, host);
    CallsFromRuns(runs);
    forall i | 0 <= i < |runs| ensures ThermalZoneCounters !in runs[i].calls {
      ProbeCallsWithin(GpuOrder[i], host);
    }
  }

  /** Every reading in a record lies in the band of the probe that produced it. */
  lemma RecordReadingsInBand(components: map<string, bool>, t: Tick)
    ensures var temps := TickRecord(components, t).temperatures;
      && ("cpu" in temps ==> 0 < temps["cpu"] < 15000)
      && ("gpu" in temps ==> 0 <= temps["gpu"] <= 15000)
  {
    ChainReadingBound(t.host);
  }

  /**
   * End to end: whatever the ticks, a component that is not enabled never
   * appears in a record the run saves.
   */
  lemma DisabledNeverSaved(components: map<string, bool>, ticks: seq<Tick>, key: string)
    requires key == "cpu" || key == "gpu"
    requires !Enabled(components, key)
    ensures forall r :: r in Kept(TickRecords(components, ticks)) ==> key !in r.temperatures
  {
    var rs := TickRecords(components, ticks);
    forall r | r in Kept(rs) ensures key !in r.temperatures {
      var i :| 0 <= i < |rs| && rs[i] == r;
      TickRecordsAt(components, ticks, i);
    }
  }

  class TemperatureMonitor {
    const dataFile: string
    const interval: int
    const monitorComponents: map<string, bool>
    const autoSave: bool
    var file: DataFile

    /**
     * `__init__` with `load_config`: `read` is the parsed configuration file,
     * `None` when it could not be read; `existing` is the data file as found.
     */
    constructor(read: Option<Config>, existing: DataFile)
      ensures var c := read.GetOr(EmptyConfig);
        && dataFile == c.dataFile.GetOr("data.json")
        && interval == c.intervalSeconds.GetOr(5)
        && monitorComponents == c.monitorComponents.GetOr(DefaultComponents)
        && autoSave == c.autoSave.GetOr(true)
      ensures file == existing
    {
      var c := read.GetOr(EmptyConfig);
      dataFile := c.dataFile.GetOr("data.json");
      interval := c.intervalSeconds.GetOr(5);
      monitorComponents := c.monitorComponents.GetOr(DefaultComponents);
      autoSave := c.autoSave.GetOr(true);
      file := existing;
    }

    /** collect_temperature_data */
    method CollectTemperatureData(t: Tick) returns (rec: Record, calls: seq<Command>)
      ensures rec == TickRecord(monitorComponents, t)
      ensures calls == TickCalls(monitorComponents, t.host)
    {
      var temps: map<string, int> := map[];
      var cpuCalls: seq<Command> := [];
      var gpuCalls: seq<Command> := [];
      if Enabled(monitorComponents, "cpu") {
        var cpu;
        cpu, cpuCalls := CpuProbe(t.host);
        if cpu.Some? {
          temps := temps["cpu" := cpu.value];
        }
      }
      if Enabled(monitorComponents, "gpu") {
        var gpu;
        gpu, gpuCalls := GetGpuTemperature(t.host);
        if gpu.Some? {
          temps := temps["gpu" := gpu.value];
        }
      }
      calls := cpuCalls + gpuCalls;
      rec := Record(t.now, temps);
    }

    /** save_data: append one record to the data file when saving is on. */
    method SaveData(rec: Record)
      modifies this
      ensures file == Appended(old(file), autoSave, [rec])
    {
      if !autoSave {
        return;
      }
      match file {
        case Absent => file := Entries([rec]);
        case Entries(es) => file := Entries(es + [rec]);
        case Unreadable =>
      }
    }

    /**
     * run, for a finite sequence of ticks: collect a record each tick and save
     * it when its temperature map is not empty.
     */
    method Run(ticks: seq<Tick>)
      modifies this
      ensures file == Appended(old(file), autoSave, Kept(TickRecords(monitorComponents, ticks)))
    {
      var i := 0;
      while i < |ticks|
        invariant 0 <= i <= |ticks|
        invariant file == Appended(old(file), autoSave, Kept(TickRecords(monitorComponents, ticks[..i])))
      {
        ghost var done := TickRecords(monitorComponents, ticks[..i]);
        var rec, c := CollectTemperatureData(ticks[i]);
        RunStep(monitorComponents, ticks, i);
        SaveStep(old(file), autoSave, done, rec);
        if rec.temperatures != map[] {
          SaveData(rec);
        }
        i := i + 1;
      }
      assert ticks[..i] == ticks;
    }
  }
}
