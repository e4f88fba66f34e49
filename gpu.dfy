/**
 * The GPU probe chain (`get_gpu_temperature`): the four GPU probes are tried
 * in a fixed order and the first one that yields a reading wins; the probes
 * after it are not run. Every probe swallows its own failures, so a failing
 * probe simply yields nothing and the chain moves on.
 */
module GpuChain {
  import opened Wrappers
  import opened Decimals
  import opened Units
  import opened Probes

  datatype GpuProbe = NvidiaSmi | PowerShell | Wmi | Wmic

  /** The order in which the chain tries the probes. */
  const GpuOrder: seq<GpuProbe> := [NvidiaSmi, PowerShell, Wmi, Wmic]

  /** What one probe reads from the host. */
  function ProbeReading(p: GpuProbe, host: Host): Option<int> {
    match p
    case NvidiaSmi => NvidiaReading(host(NvidiaSmiQuery))
    case PowerShell => PowerShellReading(host(OpenHardwareMonitorQuery))
    case Wmi => LineReading(AcpiRule, host(AcpiThermalZone))
    case Wmic => WmicReading(host(VideoControllers), host(AcpiThermalZoneWmi))
  }

  /** The commands one probe issues, in order. */
  function ProbeCalls(p: GpuProbe, host: Host): seq<Command> {
    match p
    case NvidiaSmi => [NvidiaSmiQuery]
    case PowerShell => [OpenHardwareMonitorQuery]
    case Wmi => [AcpiThermalZone]
    case Wmic => if Succeeded(host(VideoControllers)) then [VideoControllers, AcpiThermalZoneWmi]
                 else [VideoControllers]
  }

  /** Every command a probe can issue, whatever the host answers. */
  function ProbeCommands(p: GpuProbe): set<Command> {
    match p
    case NvidiaSmi => {NvidiaSmiQuery}
    case PowerShell => {OpenHardwareMonitorQuery}
    case Wmi => {AcpiThermalZone}
    case Wmic => {VideoControllers, AcpiThermalZoneWmi}
  }

  /** Any GPU probe's reading lies in [0, 15000] hundredths of a degree. */
  lemma ProbeReadingBound(p: GpuProbe, host: Host)
    ensures ProbeReading(p, host).Some? ==> 0 <= ProbeReading(p, host).value <= 15000
  {
    match p
    case NvidiaSmi => NvidiaReadingIsHottest(host(NvidiaSmiQuery));
    case PowerShell => PowerShellReadingIsHottest(host(OpenHardwareMonitorQuery));
    case Wmi =>
    case Wmic =>
  }

  /** Runs one probe. */
  method InvokeProbe(p: GpuProbe, host: Host) returns (t: Option<int>, calls: seq<Command>)
    ensures t == ProbeReading(p, host)
    ensures calls == ProbeCalls(p, host)
    ensures forall c :: c in calls ==> c in ProbeCommands(p)
  {
    match p {
      case NvidiaSmi => t, calls := NvidiaProbe(host);
      case PowerShell => t, calls := PowerShellProbe(host);
      case Wmi => t, calls := WmiProbe(host);
      case Wmic => t, calls := WmicProbe(host);
    }
  }

  /** One probe's run: its reading and the commands it issued. */
  datatype ProbeRun = ProbeRun(reading: Option<int>, calls: seq<Command>)

  function RunOf(p: GpuProbe, host: Host): ProbeRun {
    ProbeRun(ProbeReading(p, host), ProbeCalls(p, host))
  }

  /** The run each probe of the list would have, were it invoked. */
  function Runs(ps: seq<GpuProbe>, host: Host): (runs: seq<ProbeRun>)
    ensures |runs| == |ps|
    ensures forall i :: 0 <= i < |ps| ==> runs[i] == RunOf(ps[i], host)
  {
    seq(|ps|, i requires 0 <= i < |ps| => RunOf(ps[i], host))
  }

  /** The first reading in a list of runs, or nothing when no run yields one. */
  function FirstReading(runs: seq<ProbeRun>): (t: Option<int>)
    ensures t.None? <==> forall i :: 0 <= i < |runs| ==> runs[i].reading.None?
    ensures t.Some? ==> exists i :: 0 <= i < |runs| && runs[i].reading == t
                                    && forall j :: 0 <= j < i ==> runs[j].reading.None?
  {
    if runs == [] then None
    else if runs[0].reading.Some? then runs[0].reading
    else
      assert forall i :: 1 <= i < |runs| ==> runs[i] == runs[1..][i - 1];
      FirstReading(runs[1..])
  }

  /** The commands issued by the runs up to and including the first that yields a reading. */
  function CallsUntilReading(runs: seq<ProbeRun>): seq<Command> {
    if runs == [] then []
    else if runs[0].reading.Some? then runs[0].calls
    else runs[0].calls + CallsUntilReading(runs[1..])
  }

  /** get_gpu_temperature */
  method GetGpuTemperature(host: Host) returns (t: Option<int>, calls: seq<Command>)
    ensures t == FirstReading(Runs(GpuOrder, host))
    ensures calls == CallsUntilReading(Runs(GpuOrder, host))
    ensures t.Some? ==> 0 <= t.value <= 15000
  {
    ghost var runs := Runs(GpuOrder, host);
    calls := [];
    var i := 0;
    while i < |GpuOrder|
      invariant 0 <= i <= |GpuOrder|
      invariant FirstReading(runs) == FirstReading(runs[i..])
      invariant CallsUntilReading(runs) == calls + CallsUntilReading(runs[i..])
    {
      assert runs[i..][1..] == runs[i + 1..];
      var r, c := InvokeProbe(GpuOrder[i], host);
      assert runs[i] == ProbeRun(r, c);
      calls := calls + c;
      if r.Some? {
        ProbeReadingBound(GpuOrder[i], host);
        return r, calls;
      }
      i := i + 1;
    }
    t := None;
  }

  /** The chain's reading, when there is one, lies in [0, 15000] hundredths of a degree. */
  lemma ChainReadingBound(host: Host)
    ensures FirstReading(Runs(GpuOrder, host)).Some? ==> 0 <= FirstReading(Runs(GpuOrder, host)).value <= 15000
  {
    var runs := Runs(GpuOrder, host);
    if FirstReading(runs).Some? {
      var k :| 0 <= k < |runs| && runs[k].reading == FirstReading(runs)
               && forall j :: 0 <= j < k ==> runs[j].reading.None?;
      ProbeReadingBound(GpuOrder[k], host);
    }
  }

  /**
   * The chain stops at the first run that yields a reading: the reading is
   * that run's, and the commands are those of the runs up to it.
   */
  lemma {:induction false} StopsAtFirstReading(runs: seq<ProbeRun>, k: nat)
    requires k < |runs| && runs[k].reading.Some?
    requires forall j :: 0 <= j < k ==> runs[j].reading.None?
    ensures FirstReading(runs) == runs[k].reading
    ensures CallsUntilReading(runs) == CallsUntilReading(runs[..k + 1])
  {
    if k > 0 {
      assert forall j :: 0 <= j < k - 1 ==> runs[1..][j] == runs[j + 1];
      StopsAtFirstReading(runs[1..], k - 1);
      assert runs[..k + 1][1..] == runs[1..][..k];
    }
  }

  /** Every command issued comes from one of the runs. */
  lemma {:induction false} CallsFromRuns(runs: seq<ProbeRun>)
    ensures forall c :: c in CallsUntilReading(runs) ==> exists i :: 0 <= i < |runs| && c in runs[i].calls
  {
    if runs != [] && runs[0].reading.None? {
      CallsFromRuns(runs[1..]);
      forall c | c in CallsUntilReading(runs)
        ensures exists i :: 0 <= i < |runs| && c in runs[i].calls
      {
        if c !in runs[0].calls {
          assert c in CallsUntilReading(runs[1..]);
          var i :| 0 <= i < |runs[1..]| && c in runs[1..][i].calls;
          assert runs[1..][i] == runs[i + 1];
        }
      }
    }
  }

  /** The chain's reading is that of the first probe of the fixed order that yields one. */
  lemma FirstProbeWins(host: Host, k: nat)
    requires k < |GpuOrder| && ProbeReading(GpuOrder[k], host).Some?
    requires forall j :: 0 <= j < k ==> ProbeReading(GpuOrder[j], host).None?
    ensures FirstReading(Runs(GpuOrder, host)) == ProbeReading(GpuOrder[k], host)
    ensures CallsUntilReading(Runs(GpuOrder, host)) == CallsUntilReading(Runs(GpuOrder, host)[..k + 1])
  {
    StopsAtFirstReading(Runs(GpuOrder, host), k);
  }

  /**
   * Once a probe of the fixed order yields a reading, no command of a later
   * probe is issued.
   */
  lemma LaterProbesNotInvoked(host: Host, k: nat)
    requires k < |GpuOrder| && ProbeReading(GpuOrder[k], host).Some?
    requires forall j :: 0 <= j < k ==> ProbeReading(GpuOrder[j], host).None?
    ensures forall c, j :: c in CallsUntilReading(Runs(GpuOrder, host)) && k < j < |GpuOrder|
                           ==> c !in ProbeCommands(GpuOrder[j])
  {
    FirstProbeWins(host, k);
    PrefixCommands(host, k, Runs(GpuOrder, host)[..k + 1]);
    forall c, j | c in CallsUntilReading(Runs(GpuOrder, host)) && k < j < |GpuOrder|
      ensures c !in ProbeCommands(GpuOrder[j])
    {
      var i :| 0 <= i <= k && c in ProbeCommands(GpuOrder[i]);
      DistinctCommands(i, j);
    }
  }

  /**
   * nvidia-smi is missing and the OpenHardwareMonitor query reports 70 and 85
   * degrees: the chain reads the hotter, 85 degrees, and never runs the two
   * ACPI thermal-zone probes.
   */
  lemma ChainExample(host: Host)
    requires host(NvidiaSmiQuery) == Unavailable
    requires host(OpenHardwareMonitorQuery) == Completed(0, "70\n85")
    ensures FirstReading(Runs(GpuOrder, host)) == Some(8500)
    ensures CallsUntilReading(Runs(GpuOrder, host)) == [NvidiaSmiQuery, OpenHardwareMonitorQuery]
  {
    ExampleRuns(host);
    SecondRunWins(Runs(GpuOrder, host));
  }

  lemma ExampleRuns(host: Host)
    requires host(NvidiaSmiQuery) == Unavailable
    requires host(OpenHardwareMonitorQuery) == Completed(0, "70\n85")
    ensures Runs(GpuOrder, host)[0] == ProbeRun(None, [NvidiaSmiQuery])
    ensures Runs(GpuOrder, host)[1] == ProbeRun(Some(8500), [OpenHardwareMonitorQuery])
  {
    NvidiaRunAbsent(host);
    PowerShellRun(host);
    assert GpuOrder[0] == NvidiaSmi && GpuOrder[1] == PowerShell;
  }

  lemma NvidiaRunAbsent(host: Host)
    requires host(NvidiaSmiQuery) == Unavailable
    ensures RunOf(NvidiaSmi, host) == ProbeRun(None, [NvidiaSmiQuery])
  {
  }

  lemma PowerShellRun(host: Host)
    requires host(OpenHardwareMonitorQuery) == Completed(0, "70\n85")
    ensures RunOf(PowerShell, host) == ProbeRun(Some(8500), [OpenHardwareMonitorQuery])
  {
    PowerShellTakesHottest();
  }

  lemma SecondRunWins(runs: seq<ProbeRun>)
    requires |runs| >= 2 && runs[0].reading.None? && runs[1].reading.Some?
    ensures FirstReading(runs) == runs[1].reading
    ensures CallsUntilReading(runs) == runs[0].calls + runs[1].calls
  {
    assert runs[1..][0] == runs[1];
  }

  /** The commands of the first k + 1 runs belong to the first k + 1 probes. */
  lemma PrefixCommands(host: Host, k: nat, prefix: seq<ProbeRun>)
    requires k < |GpuOrder| && prefix == Runs(GpuOrder, host)[..k + 1]
    ensures forall c :: c in CallsUntilReading(prefix) ==> exists i :: 0 <= i <= k && c in ProbeCommands(GpuOrder[i])
  {
    CallsFromRuns(prefix);
    forall i | 0 <= i < |prefix| ensures forall c :: c in prefix[i].calls ==> c in ProbeCommands(GpuOrder[i]) {
      ProbeCallsWithin(GpuOrder[i], host);
    }
  }

  /** No two probes of the fixed order share a command. */
  lemma DistinctCommands(i: nat, j: nat)
    requires i < j < |GpuOrder|
    ensures ProbeCommands(GpuOrder[i]) !! ProbeCommands(GpuOrder[j])
  {
  }

  lemma ProbeCallsWithin(p: GpuProbe, host: Host)
    ensures forall c :: c in ProbeCalls(p, host) ==> c in ProbeCommands(p)
  {
  }
}
