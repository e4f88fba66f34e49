/**
 * The five temperature probes of main.py. Each external command is an input:
 * the host says what running a command would give (`Unavailable` when the tool
 * is missing, times out or fails to start, otherwise its return code and its
 * newline-normalised standard output), and each probe method reports the
 * commands it ran, in order.
 */
module Probes {
  import opened Wrappers
  import opened Text
  import opened Decimals
  import opened Units

  datatype ProcessResult = Unavailable | Completed(returncode: int, stdout: string)

  /** The external commands main.py runs. */
  datatype Command =
    | ThermalZoneCounters       // wmic path win32_perfrawdata_counters_thermalzoneinformation get temperature
    | NvidiaSmiQuery            // nvidia-smi --query-gpu=temperature.gpu --format=csv,noheader,nounits
    | OpenHardwareMonitorQuery  // powershell Get-WmiObject -Namespace root/OpenHardwareMonitor -Class Sensor ...
    | AcpiThermalZone           // wmic path MSAcpi_ThermalZoneTemperature get CurrentTemperature
    | VideoControllers          // wmic path win32_videocontroller get name
    | AcpiThermalZoneWmi        // wmic /namespace:\\root\wmi path MSAcpi_ThermalZoneTemperature get CurrentTemperature

  /** What each command gives on this host at this moment. */
  type Host = Command -> ProcessResult

  predicate Succeeded(r: ProcessResult) {
    r.Completed? && r.returncode == 0
  }

  /** The lines of a tool's output: surrounding whitespace stripped, then split at each newline. */
  function OutputLines(stdout: string): (lines: seq<string>)
    ensures |lines| >= 1
  {
    Split(Strip(stdout), '\n')
  }

  // ---------------------------------------------------------------------------
  // Line-based probes: thermal-zone counters (CPU), ACPI thermal zone (WMI) and
  // ACPI thermal zone behind the video-controller query (WMIC).

  datatype LineRule =
    | ThermalCounterRule  // magnitude heuristic, band (0, 150)
    | AcpiRule            // deci-Kelvin only (raw > 2000), band (0, 150)
    | AcpiGpuRule         // deci-Kelvin only (raw > 2000), band (30, 120)

  /** The raw readings a rule accepts, worked out from its conversion and its band. */
  predicate AcceptedRaw(rule: LineRule, raw: nat) {
    match rule
    case ThermalCounterRule => 1 <= raw <= 149 || 274 <= raw <= 423 || 2732 <= raw <= 4231
    case AcpiRule => 2732 <= raw <= 4231
    case AcpiGpuRule => 3032 <= raw <= 3931
  }

  function Convert(rule: LineRule, raw: nat): int {
    if rule == ThermalCounterRule then Normalize(raw) else DeciKelvin(raw)
  }

  predicate InRuleBand(rule: LineRule, c: int) {
    if rule == AcpiGpuRule then InGpuBand(c) else InGeneralBand(c)
  }

  /**
   * What one output line contributes: the stripped line must be all digits; its
   * converted value must lie in the rule's band.
   */
  function Pick(rule: LineRule, line: string): (r: Option<int>)
    ensures r.Some? ==> IsDigits(Strip(line)) && InRuleBand(rule, r.value)
  {
    var t := Strip(line);
    if !IsDigits(t) then None
    else
      var raw := DigitsValue(t);
      match rule
      case ThermalCounterRule =>
        var c := Normalize(raw);
        if InGeneralBand(c) then Some(c) else None
      case AcpiRule =>
        if raw > 2000 && InGeneralBand(DeciKelvin(raw)) then Some(DeciKelvin(raw)) else None
      case AcpiGpuRule =>
        if raw > 2000 && InGpuBand(DeciKelvin(raw)) then Some(DeciKelvin(raw)) else None
  }

  /** A line is accepted exactly when it is all digits and its raw value lies in the rule's window. */
  lemma PickAccepts(rule: LineRule, line: string)
    ensures var r := Pick(rule, line);
      && (r.Some? <==> IsDigits(Strip(line)) && AcceptedRaw(rule, DigitsValue(Strip(line))))
      && (r.Some? ==> r.value == Convert(rule, DigitsValue(Strip(line))) && InRuleBand(rule, r.value))
  {
  }

  /** The first present value of a sequence of optional values. */
  function FirstSome(ps: seq<Option<int>>): (r: Option<int>)
    ensures r.None? <==> forall i :: 0 <= i < |ps| ==> ps[i].None?
    ensures r.Some? ==> exists i :: 0 <= i < |ps| && ps[i] == r && forall j :: 0 <= j < i ==> ps[j].None?
  {
    if ps == [] then None
    else if ps[0].Some? then ps[0]
    else
      assert forall i :: 1 <= i < |ps| ==> ps[i] == ps[1..][i - 1];
      FirstSome(ps[1..])
  }

  /** What each line contributes. */
  function Picks(rule: LineRule, lines: seq<string>): (ps: seq<Option<int>>)
    ensures |ps| == |lines|
    ensures forall i :: 0 <= i < |lines| ==> ps[i] == Pick(rule, lines[i])
  {
    seq(|lines|, i requires 0 <= i < |lines| => Pick(rule, lines[i]))
  }

  /** The value of the first line that `Pick` accepts; `None` when no line is accepted. */
  function FirstPick(rule: LineRule, lines: seq<string>): (r: Option<int>)
    ensures r.None? <==> forall i :: 0 <= i < |lines| ==> Pick(rule, lines[i]).None?
    ensures r.Some? ==> exists i :: 0 <= i < |lines| && Pick(rule, lines[i]) == r
                                    && forall j :: 0 <= j < i ==> Pick(rule, lines[j]).None?
  {
    FirstSome(Picks(rule, lines))
  }

  /** The loop the three line-based probes share: scan the lines, return at the first accepted one. */
  method ScanLines(rule: LineRule, lines: seq<string>) returns (t: Option<int>)
    ensures t == FirstPick(rule, lines)
  {
    ghost var ps := Picks(rule, lines);
    var i := 0;
    while i < |lines|
      invariant 0 <= i <= |lines|
      invariant FirstSome(ps) == FirstSome(ps[i..])
    {
      assert ps[i..][1..] == ps[i + 1..];
      var p := Pick(rule, lines[i]);
      assert p == ps[i..][0];
      if p.Some? {
        return p;
      }
      i := i + 1;
    }
    return None;
  }

  /** A line-based probe's reading: return code 0, header line skipped, first accepted line. */
  function LineReading(rule: LineRule, r: ProcessResult): (t: Option<int>)
    ensures t.Some? ==> Succeeded(r) && InRuleBand(rule, t.value)
  {
    if Succeeded(r) then FirstPick(rule, OutputLines(r.stdout)[1..]) else None
  }

  /** A line the rule accepts: stripped, all ASCII digits, and its raw value inside the rule's window. */
  predicate Accepts(rule: LineRule, line: string) {
    IsDigits(Strip(line)) && AcceptedRaw(rule, DigitsValue(Strip(line)))
  }

  /** `FirstPick` in terms of `Accepts`: the converted value of the first accepted line. */
  lemma FirstPickAccepts(rule: LineRule, lines: seq<string>)
    ensures var t := FirstPick(rule, lines);
      && (t.None? <==> forall i :: 0 <= i < |lines| ==> !Accepts(rule, lines[i]))
      && (t.Some? ==> exists i :: 0 <= i < |lines| && Accepts(rule, lines[i])
                        && t.value == Convert(rule, DigitsValue(Strip(lines[i])))
                        && forall j :: 0 <= j < i ==> !Accepts(rule, lines[j]))
  {
    forall i | 0 <= i < |lines| ensures Pick(rule, lines[i]).Some? <==> Accepts(rule, lines[i]) {
      PickSome(rule, lines[i]);
    }
    var t := FirstPick(rule, lines);
    if t.Some? {
      var k :| 0 <= k < |lines| && Pick(rule, lines[k]) == t
               && forall j :: 0 <= j < k ==> Pick(rule, lines[j]).None?;
      PickValue(rule, lines[k]);
    }
  }

  lemma PickSome(rule: LineRule, line: string)
    ensures Pick(rule, line).Some? <==> Accepts(rule, line)
  {
    PickAccepts(rule, line);
  }

  lemma PickValue(rule: LineRule, line: string)
    ensures Pick(rule, line).Some? ==> Pick(rule, line).value == Convert(rule, DigitsValue(Strip(line)))
  {
    PickAccepts(rule, line);
  }

  /**
   * A line-based probe reads the converted value of the first accepted line
   * after the header, and nothing when the command fails or no line after the
   * header is accepted.
   */
  lemma LineReadingFirstAccepted(rule: LineRule, r: ProcessResult)
    ensures !Succeeded(r) ==> LineReading(rule, r).None?
    ensures Succeeded(r) ==>
      var t := LineReading(rule, r);
      var body := OutputLines(r.stdout)[1..];
      && (t.None? <==> forall i :: 0 <= i < |body| ==> !Accepts(rule, body[i]))
      && (t.Some? ==> exists i :: 0 <= i < |body| && Accepts(rule, body[i])
                        && t.value == Convert(rule, DigitsValue(Strip(body[i])))
                        && forall j :: 0 <= j < i ==> !Accepts(rule, body[j]))
  {
    if Succeeded(r) {
      FirstPickAccepts(rule, OutputLines(r.stdout)[1..]);
    }
  }

  /** The value of the counter text "3100". */
  lemma DigitsValue3100()
    ensures AllDigits("3100") && DigitsValue("3100") == 3100
  {
    assert "3100"[..3] == "310";
    assert "310"[..2] == "31";
    assert "31"[..1] == "3";
    assert "3"[..0] == [];
  }

  lemma CounterOutputLines()
    ensures OutputLines("Temperature\n3100\n3200")[1..] == ["3100", "3200"]
  {
    var pieces := ["Temperature", "3100", "3200"];
    assert "Temperature\n3100\n3200" == Join(pieces, '\n');
    StripUnchanged("Temperature\n3100\n3200");
    SplitJoin(pieces, '\n');
  }

  lemma Counter3100()
    ensures Pick(ThermalCounterRule, "3100") == Some(3685)
  {
    StripUnchanged("3100");
    DigitsValue3100();
  }

  /**
   * The CPU probe takes the first plausible line, not the hottest: with
   * counters 3100 and 3200 deci-Kelvin it reads 36.85 degrees, not 46.85.
   */
  lemma CpuProbeTakesFirstLine()
    ensures LineReading(ThermalCounterRule, Completed(0, "Temperature\n3100\n3200")) == Some(3685)
  {
    CounterOutputLines();
    Counter3100();
    assert FirstPick(ThermalCounterRule, ["3100", "3200"]) == Some(3685);
  }

  /** Only the header line: nothing after it can be accepted, even a plausible number. */
  lemma HeaderOnlyReadsNothing(rule: LineRule)
    ensures LineReading(rule, Completed(0, "3100")) == None
  {
    StripUnchanged("3100");
    SplitPiece("3100", [], '\n');
    assert OutputLines("3100")[1..] == [];
  }

  /** The reading of the WMIC probe: the thermal zone counts only after the video-controller query succeeded. */
  function WmicReading(video: ProcessResult, thermal: ProcessResult): (t: Option<int>)
    ensures !Succeeded(video) ==> t.None?
    ensures Succeeded(video) ==> t == LineReading(AcpiGpuRule, thermal)
  {
    if Succeeded(video) then LineReading(AcpiGpuRule, thermal) else None
  }

  /** get_cpu_temperature */
  method CpuProbe(host: Host) returns (t: Option<int>, calls: seq<Command>)
    ensures calls == [ThermalZoneCounters]
    ensures t == LineReading(ThermalCounterRule, host(ThermalZoneCounters))
    ensures t.Some? ==> InGeneralBand(t.value)
  {
    calls := [ThermalZoneCounters];
    var r := host(ThermalZoneCounters);
    t := None;
    if r.Completed? && r.returncode == 0 {
      var lines := OutputLines(r.stdout);
      t := ScanLines(ThermalCounterRule, lines[1..]);
    }
  }

  /** get_amd_gpu_temp_via_wmi */
  method WmiProbe(host: Host) returns (t: Option<int>, calls: seq<Command>)
    ensures calls == [AcpiThermalZone]
    ensures t == LineReading(AcpiRule, host(AcpiThermalZone))
    ensures t.Some? ==> InGeneralBand(t.value)
  {
    calls := [AcpiThermalZone];
    var r := host(AcpiThermalZone);
    t := None;
    if r.Completed? && r.returncode == 0 {
      var lines := OutputLines(r.stdout);
      t := ScanLines(AcpiRule, lines[1..]);
    }
  }

  /** get_gpu_temp_via_wmic_gpu */
  method WmicProbe(host: Host) returns (t: Option<int>, calls: seq<Command>)
    ensures calls == if Succeeded(host(VideoControllers)) then [VideoControllers, AcpiThermalZoneWmi]
                     else [VideoControllers]
    ensures t == WmicReading(host(VideoControllers), host(AcpiThermalZoneWmi))
    ensures t.Some? ==> InGpuBand(t.value)
  {
    calls := [VideoControllers];
    var video := host(VideoControllers);
    t := None;
    if video.Completed? && video.returncode == 0 {
      calls := calls + [AcpiThermalZoneWmi];
      var r := host(AcpiThermalZoneWmi);
      if r.Completed? && r.returncode == 0 {
        var lines := OutputLines(r.stdout);
        t := ScanLines(AcpiGpuRule, lines[1..]);
      }
    }
  }

  // ---------------------------------------------------------------------------
  // nvidia-smi: every line, no header, no unit conversion, the hottest in-band value.

  datatype LineVerdict = Skip | Accept(d: Decimal) | Raise

  /**
   * One nvidia-smi line: skipped unless it is digits once its dots are removed;
   * `float` raises on two or more dots; otherwise accepted when in band.
   */
  function NvidiaLine(line: string): (v: LineVerdict)
    ensures v.Accept? ==> InBand(v.d)
  {
    var t := Strip(line);
    if !IsDigits(RemoveDots(t)) then Skip
    else match ParseFloatLiteral(t)
      case None => Raise
      case Some(d) => if InBand(d) then Accept(d) else Skip
  }

  /** The verdict on every output line. */
  function Verdicts(lines: seq<string>): (vs: seq<LineVerdict>)
    ensures |vs| == |lines|
    ensures forall i :: 0 <= i < |lines| ==> vs[i] == NvidiaLine(lines[i])
    ensures forall i :: 0 <= i < |vs| && vs[i].Accept? ==> InBand(vs[i].d)
  {
    seq(|lines|, i requires 0 <= i < |lines| => NvidiaLine(lines[i]))
  }

  /**
   * The list `temps` the loop builds from the verdicts, or `None` when a line
   * makes `float` raise: the exception leaves the loop and the probe returns None.
   */
  function Candidates(vs: seq<LineVerdict>): (r: Option<seq<Decimal>>)
    ensures r.None? <==> exists i :: 0 <= i < |vs| && vs[i].Raise?
  {
    if vs == [] then Some([])
    else
      var init := vs[..|vs| - 1];
      assert forall i :: 0 <= i < |init| ==> init[i] == vs[i];
      match Candidates(init)
      case None => None
      case Some(ts) =>
        match vs[|vs| - 1]
        case Skip => Some(ts)
        case Accept(d) => Some(ts + [d])
        case Raise => None
  }

  /** The candidates are exactly the values of the accepted lines. */
  lemma {:induction false} CandidatesExact(vs: seq<LineVerdict>)
    requires Candidates(vs).Some?
    ensures var ts := Candidates(vs).value;
      && (forall k :: 0 <= k < |ts| ==> exists i :: 0 <= i < |vs| && vs[i] == Accept(ts[k]))
      && (forall i :: 0 <= i < |vs| && vs[i].Accept? ==> vs[i].d in ts)
  {
    if vs != [] {
      var init := vs[..|vs| - 1];
      assert forall i :: 0 <= i < |init| ==> init[i] == vs[i];
      CandidatesExact(init);
      var ts := Candidates(vs).value;
      var ts' := Candidates(init).value;
      forall k | 0 <= k < |ts|
        ensures exists i :: 0 <= i < |vs| && vs[i] == Accept(ts[k])
      {
        if k < |ts'| {
          assert ts[k] == ts'[k];
          var i :| 0 <= i < |init| && init[i] == Accept(ts'[k]);
          assert vs[i] == Accept(ts[k]);
        } else {
          assert vs[|vs| - 1] == Accept(ts[k]);
        }
      }
    }
  }

  /** Every candidate lies in the band. */
  lemma CandidatesInBand(lines: seq<string>)
    requires Candidates(Verdicts(lines)).Some?
    ensures var ts := Candidates(Verdicts(lines)).value;
      forall k :: 0 <= k < |ts| ==> InBand(ts[k])
  {
    var vs := Verdicts(lines);
    CandidatesExact(vs);
  }

  /** The nvidia-smi reading: the rounded maximum of the candidates, if any. */
  function NvidiaReading(r: ProcessResult): (t: Option<int>)
    ensures t.Some? ==> Succeeded(r) && 0 <= t.value <= 15000
  {
    if !Succeeded(r) then None
    else match Candidates(Verdicts(OutputLines(r.stdout)))
      case None => None
      case Some(ts) =>
        if ts == [] then None
        else
          CandidatesInBand(OutputLines(r.stdout));
          Round2InBand(MaxOf(ts));
          Some(Round2(MaxOf(ts)))
  }

  /**
   * The nvidia-smi reading is the rounded value of the hottest accepted line; a
   * line `float` cannot parse voids the whole probe, and so does having no
   * accepted line. The reading lies in [0, 15000] hundredths.
   */
  lemma NvidiaReadingIsHottest(r: ProcessResult)
    ensures !Succeeded(r) ==> NvidiaReading(r).None?
    ensures Succeeded(r) ==> var lines := OutputLines(r.stdout);
      NvidiaReading(r).None? <==>
        (exists i :: 0 <= i < |lines| && NvidiaLine(lines[i]).Raise?)
        || forall i :: 0 <= i < |lines| ==> !NvidiaLine(lines[i]).Accept?
    ensures NvidiaReading(r).Some? ==> 0 <= NvidiaReading(r).value <= 15000
    ensures NvidiaReading(r).Some? ==> var lines := OutputLines(r.stdout);
      exists i :: 0 <= i < |lines| && NvidiaLine(lines[i]).Accept?
        && NvidiaReading(r).value == Round2(NvidiaLine(lines[i]).d)
        && forall j :: 0 <= j < |lines| && NvidiaLine(lines[j]).Accept?
             ==> Value(NvidiaLine(lines[j]).d) <= Value(NvidiaLine(lines[i]).d)
  {
    if Succeeded(r) {
      var lines := OutputLines(r.stdout);
      var vs := Verdicts(lines);
      if Candidates(vs).Some? {
        CandidatesEmpty(vs);
        if Candidates(vs).value != [] {
          CandidatesHottest(vs);
          Round2InBand(MaxOf(Candidates(vs).value));
        }
      }
    }
  }

  /** Without a raising line, the candidates are empty exactly when no line is accepted. */
  lemma CandidatesEmpty(vs: seq<LineVerdict>)
    requires Candidates(vs).Some?
    ensures Candidates(vs).value == [] <==> forall i :: 0 <= i < |vs| ==> !vs[i].Accept?
  {
    CandidatesExact(vs);
  }

  /** The maximum candidate is the value of an accepted line at least as hot as every other. */
  lemma CandidatesHottest(vs: seq<LineVerdict>)
    requires Candidates(vs).Some? && Candidates(vs).value != []
    ensures exists i :: 0 <= i < |vs| && vs[i].Accept? && vs[i].d == MaxOf(Candidates(vs).value)
              && forall j :: 0 <= j < |vs| && vs[j].Accept? ==> Value(vs[j].d) <= Value(vs[i].d)
  {
    CandidatesExact(vs);
    var ts := Candidates(vs).value;
    var m := MaxOf(ts);
    var k :| 0 <= k < |ts| && ts[k] == m;
    var i :| 0 <= i < |vs| && vs[i] == Accept(ts[k]);
    forall j | 0 <= j < |vs| && vs[j].Accept? ensures Value(vs[j].d) <= Value(m) {
      var kj :| 0 <= kj < |ts| && ts[kj] == vs[j].d;
    }
  }

  /** A line with two dots passes the digit check but makes `float` raise. */
  lemma NvidiaTwoDotsRaise()
    ensures NvidiaLine("1.2.3").Raise?
  {
    StripUnchanged("1.2.3");
    assert RemoveDots("1.2.3") == "123";
    assert DotCount("1.2.3") == 2;
  }

  /** One malformed line voids the probe even when another line holds a good reading. */
  lemma NvidiaMalformedLineVoids()
    ensures NvidiaReading(Completed(0, "45\n1.2.3")) == None
  {
    var pieces := ["45", "1.2.3"];
    assert "45\n1.2.3" == Join(pieces, '\n');
    StripUnchanged("45\n1.2.3");
    SplitJoin(pieces, '\n');
    NvidiaTwoDotsRaise();
    NvidiaReadingIsHottest(Completed(0, "45\n1.2.3"));
    assert OutputLines("45\n1.2.3")[1] == "1.2.3";
  }

  lemma DigitsValue149999()
    ensures AllDigits("149999") && DigitsValue("149999") == 149999
  {
    assert "149999"[..5] == "14999";
    assert "14999"[..4] == "1499";
    assert "1499"[..3] == "149";
    assert "149"[..2] == "14";
    assert "14"[..1] == "1";
    assert "1"[..0] == [];
  }

  lemma Parse149999()
    ensures IsDigits(RemoveDots("149.999"))
    ensures ParseFloatLiteral("149.999") == Some(Decimal(149999, 3))
  {
    assert "149.999" == "149" + ['.'] + "999";
    ParseWithDot("149", "999");
    assert "149" + "999" == "149999";
    DigitsValue149999();
  }

  lemma Round149999()
    ensures InBand(Decimal(149999, 3))
    ensures Round2(Decimal(149999, 3)) == 15000
  {
    assert Pow10(3) == 1000;
    assert Pow10(1) == 10;
  }

  /**
   * Just below the band's upper end: 149.999 is accepted and rounds to 150.00,
   * so the rounded reading can reach the band's open end.
   */
  lemma NvidiaRoundsUpToBandEnd()
    ensures NvidiaLine("149.999") == Accept(Decimal(149999, 3))
    ensures Round2(Decimal(149999, 3)) == 15000
  {
    StripUnchanged("149.999");
    Parse149999();
    Round149999();
  }

  /** One more verdict, as the loop of the nvidia-smi probe takes it. */
  lemma CandidatesSnoc(vs: seq<LineVerdict>, i: nat)
    requires i < |vs| && Candidates(vs[..i]).Some?
    ensures Candidates(vs[..i + 1]) == match vs[i]
      case Skip => Candidates(vs[..i])
      case Accept(d) => Some(Candidates(vs[..i]).value + [d])
      case Raise => None
  {
    assert vs[..i + 1][..i] == vs[..i];
    assert vs[..i + 1][i] == vs[i];
  }

  /** A line that makes `float` raise voids the whole list. */
  lemma RaiseVoids(vs: seq<LineVerdict>, i: nat)
    requires i < |vs| && vs[i].Raise?
    ensures Candidates(vs) == None
  {
  }

  /** get_nvidia_gpu_temp_via_smi */
  method NvidiaProbe(host: Host) returns (t: Option<int>, calls: seq<Command>)
    ensures calls == [NvidiaSmiQuery]
    ensures t == NvidiaReading(host(NvidiaSmiQuery))
  {
    calls := [NvidiaSmiQuery];
    var r := host(NvidiaSmiQuery);
    if !(r.Completed? && r.returncode == 0) {
      return None, calls;
    }
    var lines := OutputLines(r.stdout);
    ghost var vs := Verdicts(lines);
    var temps: seq<Decimal> := [];
    var i := 0;
    while i < |lines|
      invariant 0 <= i <= |lines|
      invariant Candidates(vs[..i]) == Some(temps)
    {
      var v := NvidiaLine(lines[i]);
      assert v == vs[i];
      CandidatesSnoc(vs, i);
      match v {
        case Skip =>
        case Accept(d) =>
          temps := temps + [d];
        case Raise =>
          RaiseVoids(vs, i);
          return None, calls;
      }
      i := i + 1;
    }
    assert vs[..i] == vs;
    if temps != [] {
      t := Some(Round2(MaxOf(temps)));
    } else {
      t := None;
    }
  }

  // ---------------------------------------------------------------------------
  // OpenHardwareMonitor through PowerShell: every number in the output.

  /** A match of the pattern \d+(?:\.\d+)?: digits, optionally a dot and more digits. */
  datatype NumberToken = NumberToken(whole: string, fraction: string)

  predicate WellFormed(tok: NumberToken) {
    IsDigits(tok.whole) && AllDigits(tok.fraction)
  }

  /** The text the pattern matched. */
  function TokenText(tok: NumberToken): string {
    if tok.fraction == [] then tok.whole else tok.whole + ['.'] + tok.fraction
  }

  function TokenValue(tok: NumberToken): Decimal
    requires WellFormed(tok)
  {
    AllDigitsConcat(tok.whole, tok.fraction);
    Decimal(DigitsValue(tok.whole + tok.fraction), |tok.fraction|)
  }

  /**
   * A match followed by `after` is as long as the pattern allows: no digit
   * follows it, and no dot and digit follow a match without a fraction.
   */
  predicate CannotExtend(tok: NumberToken, after: string) {
    (after == [] || !IsDigit(after[0]))
    && (tok.fraction == [] ==> !(|after| >= 2 && after[0] == '.' && IsDigit(after[1])))
  }

  /**
   * The match that starts at a digit: every following digit, then a dot and
   * its digits when a digit follows the dot. It is a prefix of `s` that the
   * rest of `s` cannot extend.
   */
  function FirstToken(s: string): (tok: NumberToken)
    requires s != [] && IsDigit(s[0])
    ensures WellFormed(tok)
    ensures 0 < |TokenText(tok)| <= |s| && s[..|TokenText(tok)|] == TokenText(tok)
    ensures CannotExtend(tok, s[|TokenText(tok)|..])
  {
    var n := LeadingDigits(s);
    assert IsDigits(s[..n]);
    if n + 1 < |s| && s[n] == '.' && IsDigit(s[n + 1]) then
      var m := LeadingDigits(s[n + 1..]);
      FractionFacts(s, n, m);
      NumberToken(s[..n], s[n + 1..n + 1 + m])
    else
      NumberToken(s[..n], [])
  }

  /** The text of a match with a fraction, and what follows it. */
  lemma FractionFacts(s: string, n: nat, m: nat)
    requires n + 1 < |s| && s[n] == '.' && IsDigit(s[n + 1]) && m == LeadingDigits(s[n + 1..])
    ensures 0 < m && n + 1 + m <= |s| && AllDigits(s[n + 1..n + 1 + m])
    ensures s[..n + 1 + m] == s[..n] + ['.'] + s[n + 1..n + 1 + m]
    ensures n + 1 + m == |s| || !IsDigit(s[n + 1 + m])
  {
    var d := s[n + 1..];
    assert forall i :: 0 <= i < m ==> s[n + 1..n + 1 + m][i] == d[i];
    if n + 1 + m < |s| {
      assert s[n + 1 + m] == d[m];
    }
  }

  /**
   * `re.findall(r'(\d+(?:\.\d+)?)', s)`: scanning left to right, a digit starts
   * a match (`FirstToken`) and the scan goes on after it. Other characters,
   * signs included, are passed over.
   */
  function Tokens(s: string): (ts: seq<NumberToken>)
    ensures forall k :: 0 <= k < |ts| ==> WellFormed(ts[k])
    decreases |s|
  {
    if s == [] then []
    else if !IsDigit(s[0]) then Tokens(s[1..])
    else
      var tok := FirstToken(s);
      WellFormedCons(tok, Tokens(s[|TokenText(tok)|..]));
      [tok] + Tokens(s[|TokenText(tok)|..])
  }

  lemma {:induction false} WellFormedCons(tok: NumberToken, ts: seq<NumberToken>)
    requires WellFormed(tok) && forall k :: 0 <= k < |ts| ==> WellFormed(ts[k])
    ensures forall k :: 0 <= k < |ts| + 1 ==> WellFormed(([tok] + ts)[k])
  {
    forall k | 0 <= k < |ts| + 1
      ensures WellFormed(([tok] + ts)[k])
    {
      if k > 0 {
        assert ([tok] + ts)[k] == ts[k - 1];
      }
    }
  }

  /** The values of the matches that lie strictly between 0 and 150 °C, in the order they occur. */
  function InBandValues(ts: seq<NumberToken>): (ds: seq<Decimal>)
    requires forall k :: 0 <= k < |ts| ==> WellFormed(ts[k])
    ensures forall k :: 0 <= k < |ds| ==> InBand(ds[k])
    ensures forall k :: 0 <= k < |ds| ==> exists i :: 0 <= i < |ts| && ds[k] == TokenValue(ts[i])
    ensures forall i :: 0 <= i < |ts| && InBand(TokenValue(ts[i])) ==> TokenValue(ts[i]) in ds
  {
    if ts == [] then []
    else
      var rest := InBandValues(ts[1..]);
      assert forall i :: 1 <= i < |ts| ==> ts[i] == ts[1..][i - 1];
      if InBand(TokenValue(ts[0])) then [TokenValue(ts[0])] + rest else rest
  }

  /** Each match means what `float` reads from its text. */
  lemma TokenValueIsFloat(tok: NumberToken)
    requires WellFormed(tok)
    ensures IsDigits(RemoveDots(TokenText(tok)))
    ensures ParseFloatLiteral(TokenText(tok)) == Some(TokenValue(tok))
  {
    if tok.fraction == [] {
      NoDots(tok.whole);
      assert tok.whole + tok.fraction == tok.whole;
    } else {
      ParseWithDot(tok.whole, tok.fraction);
    }
  }

  /** The pattern finds no number exactly when the text holds no ASCII digit. */
  lemma {:induction false} TokensEmpty(s: string)
    ensures Tokens(s) == [] <==> forall i :: 0 <= i < |s| ==> !IsDigit(s[i])
    decreases |s|
  {
    if s != [] && !IsDigit(s[0]) {
      TokensEmpty(s[1..]);
      assert forall i :: 1 <= i < |s| ==> s[i] == s[1..][i - 1];
    }
  }

  /** The pattern has no sign: "-5.5" yields the number 5.5. */
  lemma TokensIgnoreSign()
    ensures Tokens("-5.5") == [NumberToken("5", "5")]
  {
    var gs, ts := ["-", []], [NumberToken("5", "5")];
    assert Layout(gs[1..], ts[1..]) == [];
    assert Layout(gs, ts) == "-" + "5.5";
    assert DigitFree(gs[0]) && DigitFree(gs[1]);
    TokensUnique(gs, ts);
  }

  /** A character that is not a digit is passed over. */
  lemma TokensSkip(s: string)
    requires s != [] && !IsDigit(s[0])
    ensures Tokens(s) == Tokens(s[1..])
  {
  }

  /** A digit starts a match, and the scan goes on after it. */
  lemma TokensMatch(s: string)
    requires s != [] && IsDigit(s[0])
    ensures Tokens(s) == [FirstToken(s)] + Tokens(s[|TokenText(FirstToken(s))|..])
  {
  }

  /**
   * The text around the matches of `Tokens(s)`: before the first match,
   * between each two matches, and after the last.
   */
  function Gaps(s: string): (gs: seq<string>)
    ensures |gs| == |Tokens(s)| + 1
    decreases |s|
  {
    if s == [] then [[]]
    else if !IsDigit(s[0]) then
      var gs := Gaps(s[1..]);
      [[s[0]] + gs[0]] + gs[1..]
    else
      [[]] + Gaps(s[|TokenText(FirstToken(s))|..])
  }

  /** The gaps and the matched texts in turn: g0 + t0 + g1 + t1 + ... + gn. */
  function Layout(gaps: seq<string>, ts: seq<NumberToken>): string
    requires |gaps| == |ts| + 1
  {
    if ts == [] then gaps[0] else gaps[0] + TokenText(ts[0]) + Layout(gaps[1..], ts[1..])
  }

  /** The text that follows match `k` in a layout. */
  function After(gaps: seq<string>, ts: seq<NumberToken>, k: nat): string
    requires |gaps| == |ts| + 1 && k < |ts|
  {
    Layout(gaps[k + 1..], ts[k + 1..])
  }

  predicate DigitFree(g: string) {
    forall i :: 0 <= i < |g| ==> !IsDigit(g[i])
  }

  /**
   * The matches cover the text: it is the gaps and the matched texts in turn,
   * and no gap holds a digit, so every digit of the text is in some match.
   */
  lemma {:induction false} TokensCover(s: string)
    ensures s == Layout(Gaps(s), Tokens(s))
    ensures forall k :: 0 <= k < |Gaps(s)| ==> DigitFree(Gaps(s)[k])
    decreases |s|
  {
    if s == [] {
    } else if !IsDigit(s[0]) {
      TokensSkip(s);
      GapsSkip(s);
      TokensCover(s[1..]);
      CoverSkip(s, Gaps(s[1..]), Tokens(s[1..]));
    } else {
      var tok := FirstToken(s);
      var after := s[|TokenText(tok)|..];
      TokensMatch(s);
      GapsMatch(s);
      TokensCover(after);
      assert s == TokenText(tok) + after;
      CoverMatch(s, tok, after, Gaps(after), Tokens(after));
    }
  }

  /** A character that is not a digit goes into the first gap. */
  lemma GapsSkip(s: string)
    requires s != [] && !IsDigit(s[0])
    ensures Gaps(s) == [[s[0]] + Gaps(s[1..])[0]] + Gaps(s[1..])[1..]
  {
  }

  /** A match at the start leaves the first gap empty. */
  lemma GapsMatch(s: string)
    requires s != [] && IsDigit(s[0])
    ensures Gaps(s) == [[]] + Gaps(s[|TokenText(FirstToken(s))|..])
  {
  }

  /** Putting a character that is not a digit in front of a covering layout. */
  lemma {:induction false} CoverSkip(s: string, gs: seq<string>, ts: seq<NumberToken>)
    requires s != [] && !IsDigit(s[0]) && |gs| == |ts| + 1
    requires s[1..] == Layout(gs, ts)
    requires forall k :: 0 <= k < |gs| ==> DigitFree(gs[k])
    ensures s == Layout([[s[0]] + gs[0]] + gs[1..], ts)
    ensures forall k :: 0 <= k < |gs| ==> DigitFree(([[s[0]] + gs[0]] + gs[1..])[k])
  {
    LayoutExtend([s[0]], gs, ts);
    assert s == [s[0]] + s[1..];
    var gs' := [[s[0]] + gs[0]] + gs[1..];
    forall k | 0 <= k < |gs|
      ensures DigitFree(gs'[k])
    {
      if k == 0 {
        assert DigitFree(gs[0]);
      } else {
        assert gs'[k] == gs[k];
      }
    }
  }

  /** Putting a match in front of a covering layout. */
  lemma {:induction false} CoverMatch(s: string, tok: NumberToken, after: string, gs: seq<string>, ts: seq<NumberToken>)
    requires |gs| == |ts| + 1 && s == TokenText(tok) + after && after == Layout(gs, ts)
    requires forall k :: 0 <= k < |gs| ==> DigitFree(gs[k])
    ensures s == Layout([[]] + gs, [tok] + ts)
    ensures forall k :: 0 <= k < |gs| + 1 ==> DigitFree(([[]] + gs)[k])
  {
    LayoutMatch(tok, gs, ts);
    forall k | 0 <= k < |gs| + 1
      ensures DigitFree(([[]] + gs)[k])
    {
      if k > 0 {
        assert ([[]] + gs)[k] == gs[k - 1];
      }
    }
  }

  /** Text put in front of the first gap is put in front of the layout. */
  lemma {:induction false} LayoutExtend(c: string, gs: seq<string>, ts: seq<NumberToken>)
    requires |gs| == |ts| + 1
    ensures Layout([c + gs[0]] + gs[1..], ts) == c + Layout(gs, ts)
  {
    var gs' := [c + gs[0]] + gs[1..];
    assert gs'[1..] == gs[1..];
  }

  /** A match at the very start of the text comes before the rest of the layout. */
  lemma {:induction false} LayoutMatch(tok: NumberToken, gs: seq<string>, ts: seq<NumberToken>)
    requires |gs| == |ts| + 1
    ensures Layout([[]] + gs, [tok] + ts) == TokenText(tok) + Layout(gs, ts)
  {
    assert ([[]] + gs)[1..] == gs && ([tok] + ts)[1..] == ts;
  }

  /**
   * Every match is as long as the pattern allows: the text after it does not
   * go on with a digit, and after a match without a fraction it does not go on
   * with a dot and a digit.
   */
  lemma {:induction false} TokensMaximal(s: string)
    ensures forall k :: 0 <= k < |Tokens(s)| ==> CannotExtend(Tokens(s)[k], After(Gaps(s), Tokens(s), k))
    decreases |s|
  {
    if s == [] {
    } else if !IsDigit(s[0]) {
      TokensSkip(s);
      GapsSkip(s);
      TokensMaximal(s[1..]);
      MaximalSkip([s[0]], Gaps(s[1..]), Tokens(s[1..]));
    } else {
      var tok := FirstToken(s);
      var after := s[|TokenText(tok)|..];
      TokensMatch(s);
      GapsMatch(s);
      TokensMaximal(after);
      TokensCover(after);
      MaximalMatch(tok, after, Gaps(after), Tokens(after));
    }
  }

  /** Text put in front of the first gap leaves what follows each match alone. */
  lemma {:induction false} MaximalSkip(c: string, gs: seq<string>, ts: seq<NumberToken>)
    requires |gs| == |ts| + 1
    requires forall k :: 0 <= k < |ts| ==> CannotExtend(ts[k], After(gs, ts, k))
    ensures forall k :: 0 <= k < |ts| ==> CannotExtend(ts[k], After([c + gs[0]] + gs[1..], ts, k))
  {
    var gs' := [c + gs[0]] + gs[1..];
    forall k | 0 <= k < |ts|
      ensures After(gs', ts, k) == After(gs, ts, k)
    {
      assert gs'[k + 1..] == gs[k + 1..];
    }
  }

  /** A match that cannot be extended, in front of a layout whose matches cannot be. */
  lemma {:induction false} MaximalMatch(tok: NumberToken, after: string, gs: seq<string>, ts: seq<NumberToken>)
    requires |gs| == |ts| + 1 && after == Layout(gs, ts) && CannotExtend(tok, after)
    requires forall k :: 0 <= k < |ts| ==> CannotExtend(ts[k], After(gs, ts, k))
    ensures forall k :: 0 <= k < |ts| + 1 ==> CannotExtend(([tok] + ts)[k], After([[]] + gs, [tok] + ts, k))
  {
    var gs', ts' := [[]] + gs, [tok] + ts;
    assert After(gs', ts', 0) == after by {
      assert gs'[1..] == gs && ts'[1..] == ts;
    }
    forall k | 1 <= k < |ts'|
      ensures CannotExtend(ts'[k], After(gs', ts', k))
    {
      assert gs'[k + 1..] == gs[k..] && ts'[k + 1..] == ts[k..] && ts'[k] == ts[k - 1];
    }
  }

  /**
   * The converse of `TokensCover` and `TokensMaximal`: a text laid out as
   * digit-free gaps and well-formed matches none of which the text after it
   * can extend has exactly those matches.
   */
  lemma {:induction false} TokensUnique(gs: seq<string>, ts: seq<NumberToken>)
    requires |gs| == |ts| + 1
    requires forall k :: 0 <= k < |gs| ==> DigitFree(gs[k])
    requires forall k :: 0 <= k < |ts| ==> WellFormed(ts[k])
    requires forall k :: 0 <= k < |ts| ==> CannotExtend(ts[k], After(gs, ts, k))
    ensures Tokens(Layout(gs, ts)) == ts
    decreases |Layout(gs, ts)|, 1
  {
    if gs[0] != [] {
      UniqueSkip(gs, ts);
    } else if ts != [] {
      UniqueMatch(gs, ts);
    }
  }

  /** `TokensUnique` when the text starts with a gap character. */
  lemma {:induction false} UniqueSkip(gs: seq<string>, ts: seq<NumberToken>)
    requires |gs| == |ts| + 1 && gs[0] != []
    requires forall k :: 0 <= k < |gs| ==> DigitFree(gs[k])
    requires forall k :: 0 <= k < |ts| ==> WellFormed(ts[k])
    requires forall k :: 0 <= k < |ts| ==> CannotExtend(ts[k], After(gs, ts, k))
    ensures Tokens(Layout(gs, ts)) == ts
    decreases |Layout(gs, ts)|, 0
  {
    var g := gs[0];
    var gs' := [g[1..]] + gs[1..];
    assert gs'[0] == g[1..] && gs'[1..] == gs[1..] && [g[0]] + g[1..] == g;
    assert gs == [[g[0]] + gs'[0]] + gs'[1..];
    LayoutExtend([g[0]], gs', ts);
    var s := Layout(gs, ts);
    assert s == [g[0]] + Layout(gs', ts);
    assert DigitFree(g);
    forall k | 0 <= k < |gs'|
      ensures DigitFree(gs'[k])
    {
      if k > 0 {
        assert gs'[k] == gs[k];
      }
    }
    forall k | 0 <= k < |ts|
      ensures After(gs', ts, k) == After(gs, ts, k)
    {
      assert gs'[k + 1..] == gs[k + 1..];
    }
    TokensSkip(s);
    assert s[1..] == Layout(gs', ts);
    TokensUnique(gs', ts);
  }

  /** `TokensUnique` when the text starts with a match. */
  lemma {:induction false} UniqueMatch(gs: seq<string>, ts: seq<NumberToken>)
    requires |gs| == |ts| + 1 && gs[0] == [] && ts != []
    requires forall k :: 0 <= k < |gs| ==> DigitFree(gs[k])
    requires forall k :: 0 <= k < |ts| ==> WellFormed(ts[k])
    requires forall k :: 0 <= k < |ts| ==> CannotExtend(ts[k], After(gs, ts, k))
    ensures Tokens(Layout(gs, ts)) == ts
    decreases |Layout(gs, ts)|, 0
  {
    var tok, after := ts[0], Layout(gs[1..], ts[1..]);
    var s := Layout(gs, ts);
    assert s == TokenText(tok) + after;
    assert After(gs, ts, 0) == after;
    FirstTokenOf(tok, after);
    assert s[0] == tok.whole[0];
    TokensMatch(s);
    assert s[|TokenText(tok)|..] == after;
    var gs', ts' := gs[1..], ts[1..];
    forall k | 0 <= k < |ts'|
      ensures CannotExtend(ts'[k], After(gs', ts', k))
    {
      assert gs'[k + 1..] == gs[k + 2..] && ts'[k + 1..] == ts[k + 2..];
      assert After(gs', ts', k) == After(gs, ts, k + 1);
    }
    TokensUnique(gs', ts');
    assert ts == [tok] + ts';
  }

  /** A well-formed match that the text after it cannot extend is the match `FirstToken` finds. */
  lemma FirstTokenOf(tok: NumberToken, after: string)
    requires WellFormed(tok) && CannotExtend(tok, after)
    ensures TokenText(tok) + after != [] && IsDigit((TokenText(tok) + after)[0])
    ensures FirstToken(TokenText(tok) + after) == tok
  {
    if tok.fraction == [] {
      WholeFirst(tok.whole, after);
    } else {
      FractionFirst(tok.whole, tok.fraction, after);
      assert TokenText(tok) + after == tok.whole + ['.'] + tok.fraction + after;
    }
  }

  lemma WholeFirst(w: string, after: string)
    requires IsDigits(w) && CannotExtend(NumberToken(w, []), after)
    ensures FirstToken(w + after) == NumberToken(w, [])
  {
    var s, n := w + after, |w|;
    assert s[0] == w[0];
    LeadingDigitsConcat(w, after);
    assert s[..n] == w && s[n..] == after;
  }

  lemma FractionFirst(w: string, f: string, after: string)
    requires IsDigits(w) && IsDigits(f) && (after == [] || !IsDigit(after[0]))
    ensures w + ['.'] + f + after != [] && IsDigit((w + ['.'] + f + after)[0])
    ensures FirstToken(w + ['.'] + f + after) == NumberToken(w, f)
  {
    var s, n := w + ['.'] + f + after, |w|;
    assert s == w + (['.'] + f + after);
    assert s[0] == w[0];
    LeadingDigitsConcat(w, ['.'] + f + after);
    assert s[n] == '.' && s[n + 1] == f[0];
    assert s[n + 1..] == f + after;
    LeadingDigitsConcat(f, after);
    assert FirstToken(s) == NumberToken(s[..n], s[n + 1..n + 1 + |f|]);
    assert s[..n] == w && s[n + 1..n + 1 + |f|] == f;
  }

  /** The PowerShell reading: return code 0, non-blank output, the rounded maximum in-band number. */
  function PowerShellReading(r: ProcessResult): (t: Option<int>)
    ensures t.Some? ==> Succeeded(r) && Strip(r.stdout) != [] && 0 <= t.value <= 15000
  {
    if Succeeded(r) && Strip(r.stdout) != [] then
      var temps := InBandValues(Tokens(r.stdout));
      if temps == [] then None
      else
        Round2InBand(MaxOf(temps));
        Some(Round2(MaxOf(temps)))
    else None
  }

  /**
   * The PowerShell reading is the rounded value of the hottest in-band number
   * in the output; nothing when the command fails, prints only whitespace or
   * prints no number in the band. It lies in [0, 15000] hundredths.
   */
  lemma PowerShellReadingIsHottest(r: ProcessResult)
    ensures !Succeeded(r) ==> PowerShellReading(r).None?
    ensures Succeeded(r) ==> var ts := Tokens(r.stdout);
      PowerShellReading(r).None? <==>
        Strip(r.stdout) == [] || forall i :: 0 <= i < |ts| ==> !InBand(TokenValue(ts[i]))
    ensures PowerShellReading(r).Some? ==> 0 <= PowerShellReading(r).value <= 15000
    ensures PowerShellReading(r).Some? ==> var ts := Tokens(r.stdout);
      exists i :: 0 <= i < |ts| && InBand(TokenValue(ts[i]))
        && PowerShellReading(r).value == Round2(TokenValue(ts[i]))
        && forall j :: 0 <= j < |ts| && InBand(TokenValue(ts[j]))
             ==> Value(TokenValue(ts[j])) <= Value(TokenValue(ts[i]))
  {
    if Succeeded(r) && Strip(r.stdout) != [] {
      var ts := Tokens(r.stdout);
      InBandValuesEmpty(ts);
      if InBandValues(ts) != [] {
        InBandValuesHottest(ts);
        Round2InBand(MaxOf(InBandValues(ts)));
      }
    }
  }

  lemma InBandValuesEmpty(ts: seq<NumberToken>)
    requires forall k :: 0 <= k < |ts| ==> WellFormed(ts[k])
    ensures InBandValues(ts) == [] <==> forall i :: 0 <= i < |ts| ==> !InBand(TokenValue(ts[i]))
  {
    var ds := InBandValues(ts);
    if ds != [] {
      assert InBand(ds[0]);
    }
  }

  lemma InBandValuesHottest(ts: seq<NumberToken>)
    requires forall k :: 0 <= k < |ts| ==> WellFormed(ts[k])
    requires InBandValues(ts) != []
    ensures exists i :: 0 <= i < |ts| && InBand(TokenValue(ts[i]))
              && TokenValue(ts[i]) == MaxOf(InBandValues(ts))
              && forall j :: 0 <= j < |ts| && InBand(TokenValue(ts[j]))
                   ==> Value(TokenValue(ts[j])) <= Value(TokenValue(ts[i]))
  {
    var ds := InBandValues(ts);
    var m := MaxOf(ds);
    var k :| 0 <= k < |ds| && ds[k] == m;
    var i :| 0 <= i < |ts| && ds[k] == TokenValue(ts[i]);
    forall j | 0 <= j < |ts| && InBand(TokenValue(ts[j])) ensures Value(TokenValue(ts[j])) <= Value(m) {
      var kj :| 0 <= kj < |ds| && ds[kj] == TokenValue(ts[j]);
    }
  }

  lemma TokensTwoNumbers()
    ensures Tokens("70\n85") == [NumberToken("70", []), NumberToken("85", [])]
  {
    var gs, ts := [[], "\n", []], [NumberToken("70", []), NumberToken("85", [])];
    assert Layout(gs[2..], ts[2..]) == [];
    assert Layout(gs[1..], ts[1..]) == "\n85";
    assert Layout(gs, ts) == "70\n85";
    assert DigitFree(gs[1]);
    TokensUnique(gs, ts);
  }

  lemma DigitsValueTwo(s: string)
    requires |s| == 2 && AllDigits(s)
    ensures DigitsValue(s) == 10 * (s[0] as int - '0' as int) + (s[1] as int - '0' as int)
  {
    var h := s[..1];
    assert h[..0] == [];
    assert DigitsValue(h) == 10 * DigitsValue([]) + (h[0] as int - '0' as int);
    assert h[0] == s[0];
    assert DigitsValue(s) == 10 * DigitsValue(h) + (s[1] as int - '0' as int);
  }

  lemma InBandTwoNumbers()
    ensures InBandValues([NumberToken("70", []), NumberToken("85", [])]) == [Decimal(70, 0), Decimal(85, 0)]
  {
    var t70, t85 := NumberToken("70", []), NumberToken("85", []);
    TwoDigitToken(t70);
    TwoDigitToken(t85);
    assert Value(Decimal(70, 0)) == 70.0 && Value(Decimal(85, 0)) == 85.0;
    InBandPair(t70, t85);
  }

  /** Two in-band tokens are both kept, in order. */
  lemma InBandPair(a: NumberToken, b: NumberToken)
    requires WellFormed(a) && WellFormed(b) && InBand(TokenValue(a)) && InBand(TokenValue(b))
    ensures InBandValues([a, b]) == [TokenValue(a), TokenValue(b)]
  {
    InBandCons(b, []);
    InBandCons(a, [b]);
    assert [a] + [b] == [a, b];
    assert [b] + [] == [b];
  }

  lemma TwoDigitToken(tok: NumberToken)
    requires |tok.whole| == 2 && AllDigits(tok.whole) && tok.fraction == []
    ensures WellFormed(tok)
    ensures TokenValue(tok) == Decimal(10 * (tok.whole[0] as int - '0' as int) + (tok.whole[1] as int - '0' as int), 0)
  {
    DigitsValueTwo(tok.whole);
    assert tok.whole + tok.fraction == tok.whole;
  }

  /** Filtering a list with a token in front. */
  lemma InBandCons(t: NumberToken, rest: seq<NumberToken>)
    requires WellFormed(t) && forall k :: 0 <= k < |rest| ==> WellFormed(rest[k])
    ensures forall k :: 0 <= k < |[t] + rest| ==> WellFormed(([t] + rest)[k])
    ensures InBandValues([t] + rest)
            == (if InBand(TokenValue(t)) then [TokenValue(t)] else []) + InBandValues(rest)
  {
    assert ([t] + rest)[0] == t && ([t] + rest)[1..] == rest;
  }

  /** Two readings in the OpenHardwareMonitor output: the hotter one, 85 degrees, is taken. */
  lemma PowerShellTakesHottest()
    ensures PowerShellReading(Completed(0, "70\n85")) == Some(8500)
  {
    TokensTwoNumbers();
    StripUnchanged("70\n85");
    InBandTwoNumbers();
    HotterOfTwo();
  }

  lemma HotterOfTwo()
    ensures Round2(MaxOf([Decimal(70, 0), Decimal(85, 0)])) == 8500
  {
    var ds := [Decimal(70, 0), Decimal(85, 0)];
    assert Value(ds[0]) == 70.0 && Value(ds[1]) == 85.0;
    assert ds[..1] == [Decimal(70, 0)];
    assert MaxOf(ds) == Decimal(85, 0);
    assert Pow10(2) == 100;
  }

  /** get_gpu_temp_via_powershell */
  method PowerShellProbe(host: Host) returns (t: Option<int>, calls: seq<Command>)
    ensures calls == [OpenHardwareMonitorQuery]
    ensures t == PowerShellReading(host(OpenHardwareMonitorQuery))
  {
    calls := [OpenHardwareMonitorQuery];
    t := PowerShellReading(host(OpenHardwareMonitorQuery));
  }
}
