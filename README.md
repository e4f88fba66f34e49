# Temperature monitor: a Dafny model

This project models a small Windows temperature monitor and its chart generator.

**The monitor (main.py):**
- It reads a configuration and polls the CPU temperature through one `wmic` query.
- It polls the GPU temperature through a chain of four probes, in a fixed order: `nvidia-smi`, an OpenHardwareMonitor query through PowerShell, and two ACPI thermal-zone queries through `wmic`.
- Each tick becomes a record: a timestamp plus the readings that were obtained.
- A record is appended to a JSON data file when it holds at least one reading.

**The chart generator (chart_generator.py):**
- It reads the data file back into three aligned series: timestamps, CPU and GPU.
- It filters out the missing values.
- It takes the 20 most recent entries for a "recent trend" panel.
- It decides, through a few guards, whether each chart is made and which series it draws.

**Conventions of the model:**
- Temperatures are integers in hundredths of a degree Celsius.
  - A raw line reading is converted exactly.
  - The `nvidia-smi` and PowerShell values are exact decimals, rounded half-to-even to two places. That is what `round(x, 2)` promises.
- External commands are inputs. A `Host` says what each command gives: `Unavailable`, or a return code and its output.
  - Every probe reports the commands it ran, so "this probe was not run" is a provable statement.
  - The clock reading (`isoformat`) is an input of each tick.
  - `datetime.fromisoformat` is a parameter of the chart functions.
- The data file the monitor writes is a field of the monitor class with three states: absent, a list of records, or content that cannot be appended to. The save operation reassigns this field.

**Edge cases the model pins down:**
- The unit thresholds are strict. A thermal-counter reading of 2500 is deci-Kelvin and gives −23.15 °C; 23.85 °C needs 2970 (`Units.NormalizeExamples`).
- The `nvidia-smi` and PowerShell probes compare the unrounded value with the open band (0, 150) and round afterwards. A line `149.999` is therefore reported as 150.00, so the GPU chain's bound is the closed range [0, 150] °C (`Probes.NvidiaRoundsUpToBandEnd`).

**Modules:**
- `Wrappers`: Option.
- `Text`: strip, split, digit tests.
- `Decimals`: float literals, rounding, maximum.
- `Units`: unit heuristics and bands.
- `Probes`: the five probes.
- `GpuChain`: the probe chain.
- `Monitor`: configuration, records, the data file and the monitor class.
- `Charts`: parsing, filters and chart guards.
- `Pipeline`: monitor output read by the chart generator.

## Model

| member | source | states |
|---|---|---|
| Text.Strip | main.py:41 | the result is the input with leading and trailing whitespace removed, and nothing else |
| Text.JoinSplit | main.py:41 | joining the pieces of `split('\n')` with the separator gives back the text |
| Text.SplitJoin | main.py:41 | splitting a join of separator-free pieces gives back the pieces |
| Text.DotCount | main.py:71 | the dots removed by `replace('.', '')` are counted: count plus remaining length is the length; no dot iff count 0 |
| Decimals.ParseFloatLiteral | main.py:72 | a digits-and-dots literal fails to parse as `float` exactly when it has two or more dots |
| Decimals.ParseWithDot | main.py:72 | `whole.fraction` parses to the decimal with mantissa `whole+fraction` and scale `|fraction|` |
| Decimals.ShiftValue | main.py:72 | that decimal's value is whole + fraction / 10^|fraction| |
| Decimals.ParseFloatLiteralInteger | main.py:72 | a dot-free digit string parses to its integer value |
| Decimals.Round2 | main.py:77 | `round(x, 2)` in hundredths lies within half a hundredth of 100·x, and keeps a value with at most two decimals exactly |
| Decimals.Round2InBand | main.py:73-77 | a value strictly inside (0, 150) rounds into [0, 15000] hundredths |
| Decimals.MaxOf | main.py:77 | `max` returns an element of the list that is at least every element |
| Units.DeciKelvin | main.py:99-100 | raw/10 − 273.15, exactly, in hundredths |
| Units.Normalize | main.py:47-53 | above 2000 deci-Kelvin, above 200 Kelvin, otherwise Celsius, each conversion exact |
| Units.NormalizeExamples | main.py:47-53 | 2500 → −23.15, 2970 → 23.85, 300 → 26.85, 45 → 45; the boundaries 2000/2001 and 200/201 fall on the sides the strict `>` puts them |
| Probes.OutputLines | main.py:41 | stripping and splitting yields at least one line, so the model's `[1..]` (the lines after the header) is well defined |
| Probes.Pick | main.py:43-56 | a line yields a reading only when its stripped text is all digits, and the reading lies in the rule's band |
| Probes.PickAccepts | main.py:42-56 | a line yields a reading iff it is all digits and its raw value lies in the rule's accepted window; the reading is the converted value and lies in the rule's band |
| Probes.PickSome | main.py:44-56 | a line yields a reading iff the rule accepts it |
| Probes.PickValue | main.py:45-56 | a line's reading is the conversion of its raw value |
| Probes.FirstPick | main.py:42-56 | nothing iff no line yields a reading; otherwise the reading of the first line that yields one |
| Probes.FirstPickAccepts | main.py:42-56 | the same, stated with the accepted raw windows: nothing iff no line is accepted, else the conversion of the first accepted line |
| Probes.ScanLines | main.py:42-56 | the scanning loop returns the first accepted line's reading |
| Probes.LineReading | main.py:40-60 | a reading requires return code 0 and lies in the rule's band |
| Probes.LineReadingFirstAccepted | main.py:40-60 | no reading without return code 0; with it, the header line is skipped and the first accepted line after it gives the reading |
| Probes.CpuProbeTakesFirstLine | main.py:35-60 | output `Temperature/3100/3200` gives 36.85 °C from the first data line |
| Probes.HeaderOnlyReadsNothing | main.py:42 | output that is only the header line gives no reading |
| Probes.CpuProbe | main.py:35-60 | runs the thermal-zone counter query once; its reading is the line reading under the magnitude heuristic, in (0, 150) |
| Probes.WmiProbe | main.py:86-106 | runs the ACPI thermal-zone query once; deci-Kelvin only; reading in (0, 150) |
| Probes.WmicReading | main.py:133-161 | nothing when the video-controller query fails; otherwise the ACPI reading under the GPU band |
| Probes.WmicProbe | main.py:133-161 | runs the second query only when the first succeeds; reading in (30, 120) |
| Probes.NvidiaLine | main.py:70-74 | an accepted line lies in the band (0, 150) |
| Probes.Verdicts | main.py:69-74 | one verdict per output line, each the verdict on that line; no header line is skipped |
| Probes.Candidates | main.py:68-74 | the loop fails exactly when some line is digits-and-dots with two or more dots |
| Probes.CandidatesExact | main.py:68-74 | the candidates are exactly the accepted lines' values |
| Probes.NvidiaReading | main.py:62-84 | a reading requires return code 0 and lies in [0, 15000] hundredths |
| Probes.NvidiaReadingIsHottest | main.py:62-84 | no reading without return code 0; none when a line makes `float` raise or no line is accepted; otherwise the rounded value of the hottest accepted line, in [0, 15000] |
| Probes.NvidiaTwoDotsRaise | main.py:71-72 | the line `1.2.3` passes the digit check and makes `float` raise |
| Probes.NvidiaMalformedLineVoids | main.py:71-84 | output `45/1.2.3` gives no reading at all, although 45 was accepted |
| Probes.NvidiaRoundsUpToBandEnd | main.py:73-77 | the in-band line `149.999` is reported as 150.00 |
| Probes.NvidiaProbe | main.py:62-84 | runs `nvidia-smi` once and reports its reading |
| Probes.FirstToken | main.py:123 | the match starting at a digit is well formed, is a prefix of the text, and the text after it cannot extend it: no digit follows, and no dot and digit follow a match without fraction |
| Probes.Tokens | main.py:123 | every number the regular expression finds is digits, optionally `.` and digits |
| Probes.TokensCover | main.py:123 | the text is the gaps and the matched texts in turn, g0 + t0 + g1 + … + gn, and no gap holds a digit: every digit is in some match |
| Probes.TokensMaximal | main.py:123 | every match is as long as the pattern allows: the text after it does not go on with a digit, and after a match without fraction not with a dot and a digit |
| Probes.TokensUnique | main.py:123 | the converse: any layout of the text as digit-free gaps and well-formed matches that cannot be extended has exactly the matches the scan finds |
| Probes.TokenValueIsFloat | main.py:123-125 | `float` of each match succeeds and gives the match's value |
| Probes.TokensEmpty | main.py:123-124 | no match iff the output has no digit |
| Probes.TokensIgnoreSign | main.py:123 | `-5.5` is found as the number 5.5: a minus sign is not part of a match |
| Probes.InBandValues | main.py:125 | the kept values are exactly the in-band matches |
| Probes.PowerShellReading | main.py:108-131 | a reading requires return code 0 and non-blank output, and lies in [0, 15000] hundredths |
| Probes.PowerShellReadingIsHottest | main.py:108-131 | no reading without return code 0; none when no match is in band; otherwise the rounded hottest in-band match, in [0, 15000] |
| Probes.PowerShellTakesHottest | main.py:121-127 | output `70/85` gives 85 °C |
| Probes.PowerShellProbe | main.py:108-131 | runs the OpenHardwareMonitor query once and reports its reading |
| GpuChain.ProbeReadingBound | main.py:163-182 | every GPU probe's reading lies in [0, 15000] |
| GpuChain.InvokeProbe | main.py:172-174 | one probe's reading and the commands it ran, all from that probe's command set |
| GpuChain.FirstReading | main.py:172-182 | nothing iff no probe yields a reading; otherwise the first probe's reading that exists |
| GpuChain.GetGpuTemperature | main.py:163-182 | the chain returns the first reading in probe order, runs exactly the probes up to it, and the reading lies in [0, 15000] |
| GpuChain.ChainReadingBound | main.py:163-182 | the chain's reading lies in [0, 15000] |
| GpuChain.StopsAtFirstReading | main.py:175-177 | the chain stops at the first run with a reading: the reading is that run's, the commands are those of the runs up to it |
| GpuChain.CallsFromRuns | main.py:172-180 | every command issued comes from some run |
| GpuChain.FirstProbeWins | main.py:165-177 | the reading is that of the first probe in the order nvidia-smi, PowerShell, WMI, WMIC that yields one |
| GpuChain.LaterProbesNotInvoked | main.py:172-177 | once a probe yields a reading, no command of a later probe is run |
| GpuChain.ChainExample | main.py:163-182 | nvidia-smi missing and OpenHardwareMonitor reporting 70 and 85: the chain reads 85 °C and runs exactly those two commands |
| Monitor.RecordOf | main.py:184-207 | a component's key is in the record iff the component is enabled and its probe gave a reading; the value is that reading; no other key |
| Monitor.RecordReadingsInBand | main.py:184-207 | a record's CPU value lies in (0, 150) °C and its GPU value in [0, 150] °C |
| Monitor.DisabledNeverProbed | main.py:191-200 | a disabled CPU is never probed; with the GPU disabled, only the CPU query runs |
| Monitor.Kept | main.py:272-273 | exactly the records with a non-empty temperature map are saved, and nothing else |
| Monitor.KeptConcat | main.py:265-273 | the records saved over two stretches of ticks are those of each stretch, in order |
| Monitor.Appended | main.py:209-229 | the file is unchanged iff saving is off, nothing is handed over or it cannot be appended to; it stays absent only when unchanged; earlier entries stay in front, in order; the new records end the list, and nothing else is added (the length is the old length plus the batch); the file becomes unreadable only if it already was |
| Monitor.AppendedTwice | main.py:209-226 | appending twice is appending the concatenation |
| Monitor.TickRecords | main.py:265-273 | one record per tick |
| Monitor.RunStep | main.py:265-273 | one more tick adds its own record at the end |
| Monitor.TickRecordsAt | main.py:269 | the i-th record is the record of the i-th tick |
| Monitor.DisabledNeverSaved | main.py:191-207 | a disabled component never appears in a saved record |
| Monitor.TemperatureMonitor.constructor | main.py:20-33 | defaults when the configuration is unreadable or lacks a key: `data.json`, 5 seconds, both components enabled, saving on |
| Monitor.TemperatureMonitor.CollectTemperatureData | main.py:184-207 | the record holds the enabled components' readings, and the commands run are the CPU query (if enabled) followed by the GPU chain's (if enabled) |
| Monitor.TemperatureMonitor.SaveData | main.py:209-229 | with saving off, nothing changes; an absent file becomes a one-record list; a list grows by the record; an unreadable file is left as it is |
| Monitor.TemperatureMonitor.Run | main.py:253-279 | after a run of ticks, the file has gained exactly the non-empty records of those ticks, in order |
| Charts.PointOf | chart_generator.py:55-63 | a reading iff the key holds a number; with `parse_data`'s treatment JSON null becomes `nan`, with `get(key, nan)` it stays `None` |
| Charts.SeriesOf | chart_generator.py:48-69 | the two temperature series always have equal length, no more than the timestamps; `parse_data` never leaves `None` |
| Charts.CollectSeries | chart_generator.py:48-67 | the lockstep loop builds exactly the series of the entries |
| Charts.ParseData | chart_generator.py:42-69 | `parse_data` returns the series of all entries, with no `None` in it |
| Charts.ParsableEntries | chart_generator.py:50-52 | the entries kept are data entries whose timestamp parses |
| Charts.TimestampsOfParsable | chart_generator.py:48-67 | the timestamps are exactly the parsed instants of the entries that parse, in order |
| Charts.AllParsable | chart_generator.py:48-67 | when every timestamp parses, every entry is kept |
| Charts.SeriesAligned | chart_generator.py:48-67 | when every such entry's `temperatures` is an object, position k of all three series comes from the k-th entry that parses |
| Charts.Misaligned | chart_generator.py:51-58 | an entry whose `temperatures` is not an object adds a timestamp and no temperature |
| Charts.ValidTemps | chart_generator.py:132-133 | the valid list holds exactly the readings of the series |
| Charts.ValidTempsConcat | chart_generator.py:258-259 | filtering keeps the order: filtering a concatenation concatenates the filtered parts |
| Charts.AnyNotNan | chart_generator.py:87-92 | when the test completes, it is true iff the series has a valid reading (the same `any` is used at lines 225-228) |
| Charts.AnyNotNanRaises | chart_generator.py:225-227 | `any(not np.isnan(t) ...)` raises exactly when a `None` comes before every reading |
| Charts.AnyNotNanTotal | chart_generator.py:87-92 | without `None` the test never raises and is true iff the valid list is non-empty |
| Charts.RecentWindow | chart_generator.py:208 | the last 20 entries, or all entries when there are at most 20 |
| Charts.TrendChart | chart_generator.py:73-92 | no chart without entries; when drawn, a series is drawn iff it has a valid reading |
| Charts.TrendNeedsTimestamps | chart_generator.py:77-81 | the chart gives up for want of timestamps iff there are entries and none has a timestamp that parses |
| Charts.NoneParsable | chart_generator.py:48-52 | no entry is kept iff no entry's timestamp parses |
| Charts.RecentPanelAsWritten | chart_generator.py:207-228 | as written: no panel iff no timestamp in the window parses; a drawn series has a valid reading in the window; the panel cannot raise when the window's series hold no `None` |
| Charts.RecentPanel | chart_generator.py:207-228 | corrected (JSON null read as missing): the recent panel is drawn iff the window has a timestamp that parses; a series is drawn iff the window has a valid reading for it |
| Charts.StatisticsChartAsWritten | chart_generator.py:123-228 | as written: no chart without entries; none when both valid lists are empty; it raises only through the recent panel, and only when there is something to chart; when drawn, a statistics column for each component with valid readings and the recent panel as written |
| Charts.StatisticsChart | chart_generator.py:123-228 | no chart without entries; none when both valid lists are empty; a statistics column for each component with valid readings; the recent panel as above |
| Charts.SameSeriesWithoutNull | chart_generator.py:213-222 | without a JSON null, the recent loop builds the same series as `parse_data` |
| Charts.CorrectionAgrees | chart_generator.py:207-228 | without a JSON null in the window, the chart as written raises nothing and decides exactly as the corrected chart |
| Charts.NullCrashesStatistics | chart_generator.py:219-227 | one entry with a null CPU value and a GPU value of 50: the chart as written raises `TypeError`; the corrected chart draws the GPU statistics and the recent GPU series |
| Pipeline.EntryOf | main.py:186-202 | a saved record reads back as an object holding exactly its readings, as numbers |
| Pipeline.MonitorDataAligned | chart_generator.py:42-69 | the monitor's own records chart aligned: one position per record, holding a reading exactly when the record has one |
| Pipeline.MonitorDataNeverRaises | chart_generator.py:207-228 | the monitor never writes JSON null, so the statistics chart as written does not raise on its records and decides as the corrected one |

## Left out

- Running processes: the `subprocess` calls, their timeouts and `FileNotFoundError` are modelled as a command either completing or being `Unavailable`. Output text is taken as already newline-normalised.
- The clock: `datetime.now().isoformat()` is an input of each tick. `datetime.fromisoformat` is a parameter `string -> Option<int>`.
- JSON reading and writing: files are values. A configuration file that is not an object, and configuration values of the wrong type, are not modelled.
- `time.sleep`, `KeyboardInterrupt` and the endless loop: `Run` processes a finite sequence of ticks.
- `test_gpu_methods`, the probing round `run` makes before its loop (main.py:231-260): it only prints, and its commands are not modelled.
- All `print` output, the chart generator's `main` menu, `print_summary` (beyond its valid filters) and the plotting calls: charts are described only by what would be drawn.
- Binary floating point: readings are exact decimals. A value that a binary float would round differently at the last digit is not modelled.
- `str.isdigit` (main.py:44, 71, 96, 152) and the regular expression's `\d` (main.py:123) accept Unicode digits beyond ASCII; the model accepts only `0`-`9`.
- Data-file values that are neither numbers nor null, and a data file that is not a list, are not modelled.
- The write-failure path of `save_data` (an exception on writing) is not modelled. A file that cannot be read or appended to is `Unreadable` and stays as it is.
- Monitor.TemperatureMonitor.Run: does not return the commands run over the whole run. Each tick's commands are stated by `CollectTemperatureData`.
- Charts.RecentPanel: reads JSON null in the window as missing, the corrected behaviour. The code as written keeps it as `None` and raises `TypeError` (`Charts.RecentPanelAsWritten`, see Findings).
- Charts.StatisticsChart: models the recent panel with JSON null read as missing, the corrected behaviour. The code as written is `Charts.StatisticsChartAsWritten` (see Findings).
- Plotting series of unequal length (which matplotlib rejects) after a misaligned parse: the misalignment itself is modelled (`Charts.Misaligned`), what the plotting library does with it is not.

## Findings

| source | as written | input that shows it | evidently intended | confidence | as-written member | corrected member |
|---|---|---|---|---|---|---|
| chart_generator.py:219-227 | the recent-trend loop reads `temperatures.get('cpu', np.nan)`, so an explicit JSON null stays `None`; `np.isnan(None)` in the `any` test then raises `TypeError`, and the statistics chart is not produced | data file `[{"timestamp": "<valid ISO time>", "temperatures": {"cpu": null, "gpu": 50}}]` | read null as missing, as `parse_data` does (lines 58-59), so the recent panel shows the GPU series | not executed | Charts.NullCrashesStatistics | Charts.RecentPanel |
