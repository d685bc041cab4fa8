# Ventilator control module, modelled in Dafny

This project models the controller state machine of the ventilator software
(`vent/controller/control_module.py`): the object that the control loop
rewrites once per iteration, and that a coordinator talks to through
`set_control`, `get_control`, `get_sensors`, `get_alarms`,
`get_past_waveforms` and `get_heartbeat`.

The model is one class, `ControlModule.ControlModuleDevice`, that holds the
fields of `ControlModuleBase` and `ControlModuleDevice` together. Its methods
change those fields in place, as the source does. Pure pieces are functions
in separate modules:

- `Values`: the six control settings (`COPY_SET_*` is the field `shared`,
  `__SET_*` is `working`), the derived cycle duration, measured metrics and
  the sensor snapshot.
- `Stats`: the numpy and `collections` helpers the controller uses. These
  are the mean, min and max, the boolean-mask selections `s[s < m]` and
  `s[s > m]`, `np.min`/`np.max` of `np.where`, and `deque(maxlen=...)`. Also
  numpy's default linear-interpolation percentile, proved to have the two
  properties the controller relies on.
- `Breath`: waveforms as sequences of (phase, pressure, volume) rows, the
  new-breath test and the analysis of an archived breath
  (`__analyze_last_waveform`).
- `Alarms`: HAPA and the technical alarm list `TECHA`, with
  deduplication by type, the plausibility and heartbeat tests, and the
  four shapes of the `get_alarms` result.
- `Valves`: the inlet command `max(min(100, int(v)), 0)` and the writes
  `_set_HAL` sends when a command differs from the cached setting.
- `ControlModule`: the controller class, the sensor-read step of `_get_HAL`,
  the resync countdown of the main loop and its closed form.

The wall clock, every hardware read and the feedback controller's outputs
(`dt`, `cycle_phase`, `feed`) are inputs. A `HalReading` carries one
hardware read and the phase reported for its time. A `LoopInput` carries
everything one loop iteration consumes. The hardware setpoints are two
fields, and every setpoint write is appended to `halWrites`.
`np.percentile` is a parameter `percentile` of type `PercentileFn`. The
controller's proofs rely only on `PercentileLike`: the value lies between
the input's min and max and grows with the percentage. `NumpyPercentile`,
the concrete linear-interpolation definition, is proved to satisfy it. The
breath analysis is stored in the object as the function `analyze`, equal to
`Analyzer(percentile)`.

## Model

| member | source | states |
|---|---|---|
| Values.Settings.Get | vent/controller/control_module.py:377-400 | a name yields a value exactly when it is one of the six control names |
| Values.Settings.Set | vent/controller/control_module.py:346-362 | writing an unknown name leaves the settings unchanged |
| Values.SetThenGet | vent/controller/control_module.py:343-392 | reading back a setting just written gives the written value |
| Values.SetLeavesOthers | vent/controller/control_module.py:346-359 | writing one setting leaves every other name unchanged |
| Values.CycleDuration | vent/controller/control_module.py:243-248 | the cycle duration times bpm is 60; it is 20 when bpm is zero |
| Stats.Min | vent/controller/control_module.py:262 | np.min is an element of the input and below all of them |
| Stats.Max | vent/controller/control_module.py:262 | np.max is an element of the input and above all of them |
| Stats.MeanWithin | vent/controller/control_module.py:259 | bounds on every sample bound np.mean |
| Stats.MeanBounds | vent/controller/control_module.py:770 | the averaged pressure lies between the smallest and the largest sample of the window |
| Stats.Sort | vent/controller/control_module.py:268-272 | the sorted copy numpy interpolates in is sorted and a permutation of the input |
| Stats.Rank | vent/controller/control_module.py:268-272 | the fractional rank of a percentage in [0, 100] lies in [0, n - 1] |
| Stats.PercentileBounds | vent/controller/control_module.py:268-272 | numpy's percentile lies between the input's min and max |
| Stats.PercentileMonotone | vent/controller/control_module.py:268-272 | a higher percentage never gives a lower percentile |
| Stats.NumpyPercentileIsPercentileLike | vent/controller/control_module.py:730-732 | numpy's percentile satisfies everything the controller assumes of the percentile |
| Stats.PercentileOfConstant | vent/controller/control_module.py:730-732 | any percentile of equal samples is that value |
| Stats.Below | vent/controller/control_module.py:268 | `s[s < m]` holds exactly the elements of s below m, each as often as in s |
| Stats.Above | vent/controller/control_module.py:269-272 | `s[s > m]` holds exactly the elements of s above m, each as often as in s |
| Stats.FirstAbove | vent/controller/control_module.py:273-275 | the earliest index over x, or none when no element is over x |
| Stats.LastAbove | vent/controller/control_module.py:277-279 | the latest index over x, or none when no element is over x |
| Stats.FirstBelow | vent/controller/control_module.py:276 | the earliest index under x, or none when no element is under x |
| Stats.FirstNotAfterLast | vent/controller/control_module.py:273-279 | PIP_TIME's index and I_PHASE's index exist together, the first not after the second |
| Stats.BoundedAppend | vent/controller/control_module.py:155-157 | a deque append never grows past maxlen |
| Stats.BoundedAppendSuffix | vent/controller/control_module.py:171-173 | the deque keeps the newest elements, the appended one last |
| Stats.BoundedAppendRoom | vent/controller/control_module.py:155-157 | appending to a deque that is not full keeps every element |
| Stats.BoundedAppendFull | vent/controller/control_module.py:155-157 | appending to a full deque evicts exactly the oldest element |
| Stats.AppendThenTrim | vent/controller/control_module.py:712-716 | append followed by pop(0) beyond five elements is a deque of length five |
| Breath.Phases | vent/controller/control_module.py:257 | column 0 of the waveform |
| Breath.Pressures | vent/controller/control_module.py:258 | column 1 of the waveform |
| Breath.Volumes | vent/controller/control_module.py:260 | column 2 of the waveform |
| Breath.PhaseWrapExample | vent/controller/control_module.py:777-786 | a rising phase run that wraps once starts a breath at the wrap, and at the first reading of a loop |
| Breath.BreathStartsSnoc | vent/controller/control_module.py:777-786 | one more phase reading adds its own position to the breath starts exactly when the loop's test starts a breath there, and changes nothing else |
| Breath.BreathStartsCount | vent/controller/control_module.py:777-786 | so the number of breath starts grows by one or by none per reading |
| Breath.Rate | vent/controller/control_module.py:288-295 | BPM is a number exactly when the last phase is not 0, and then that number times the phase is 60; it is non-finite exactly when the last phase is 0 |
| Breath.Analyze | vent/controller/control_module.py:253-295 | PEEP is found exactly when some pressure is below the mean, the plateau exactly when some pressure is also above it; each later field is found only when the one before it was, and BPM exactly when I_PHASE was |
| Breath.VteIsVolumeSpread | vent/controller/control_module.py:262 | VTE is the difference of two volumes of the breath (the largest minus the smallest): not negative, and no difference of two volumes exceeds it |
| Breath.PressureLevelsOrdered | vent/controller/control_module.py:264-272 | PEEP lies below the mean pressure, the plateau above it, PIP not below the plateau |
| Breath.InspirationLandmarks | vent/controller/control_module.py:273-279 | when PIP_TIME is found it is the phase of the earliest sample over 90 % of the plateau; when it is not, no sample is over that level and nothing later is found; when I_PHASE is found it is the phase of the latest such sample, not before PIP_TIME |
| Breath.ExpirationLandmark | vent/controller/control_module.py:276 | PEEP_TIME is the phase of the earliest sample below PEEP; once PIP_TIME is found, PEEP_TIME is found exactly when some sample is below PEEP |
| Breath.AnalysisCompletes | vent/controller/control_module.py:253-279 | the analysis runs to its end exactly when both pressure selections are non-empty, some sample is over 90 % of the plateau and some sample is under PEEP |
| Breath.FlatWaveformRaises | vent/controller/control_module.py:259-268 | a flat pressure trace makes the PEEP percentile raise on an empty selection |
| Breath.NothingBelowPeepRaises | vent/controller/control_module.py:276 | with no sample strictly below PEEP the PEEP_TIME search raises |
| Breath.LevelTroughRaises | vent/controller/control_module.py:268-276 | when every sample below the mean is equal, PEEP equals it and the PEEP_TIME search raises |
| Breath.SquareWaveLevels | vent/controller/control_module.py:259-272 | the mean and both selections of a square wave |
| Breath.SquareWaveTimes | vent/controller/control_module.py:273-276 | on the square wave PIP_TIME is 0.5 and the PEEP_TIME search raises |
| Breath.SquareWaveRaises | vent/controller/control_module.py:253-279 | the analysis of a square wave sets PEEP and PIP_TIME, then raises |
| Alarms.TechnicalAlarm | vent/controller/control_module.py:470 | a raised technical alarm has the requested type and technical severity |
| Alarms.RaiseIf | vent/controller/control_module.py:467-494 | an alarm of a type is appended only when its test fires and the type is not listed; nothing is removed; deduplication is kept |
| Alarms.RaiseIdempotent | vent/controller/control_module.py:480-481 | raising the same type a second time changes nothing |
| Alarms.TechnicalBound | vent/controller/control_module.py:467-494 | a deduplicated technical list holds at most three alarms |
| Alarms.HeartbeatNeverMissed | vent/controller/control_module.py:485-486 | as written, the heartbeat test cannot fire for a past last contact and a non-negative timeout |
| Alarms.HapaAfter | vent/controller/control_module.py:421-445 | HAPA after one test: none at or below the limit; over the limit, the open HAPA is kept, or a new high-severity high-pressure alarm opens with the current time and pressure |
| Alarms.HapaKeepsStart | vent/controller/control_module.py:421-429 | while the pressure stays over the limit, the next test keeps the HAPA, with the start time of the test that opened it |
| Alarms.NoReleaseAtOpening | vent/controller/control_module.py:421-434 | with the single clock read of the model, the test that opens HAPA never forces a release, for any non-negative cough duration |
| Alarms.StuckSinceAfter | vent/controller/control_module.py:447-472 | the stuck timer starts at the first stuck test, is kept while stuck and is cleared by a test that is not stuck; the first test is never stuck |
| Alarms.StuckTimerKept | vent/controller/control_module.py:459-466 | two stuck tests in a row keep the time the timer started at |
| Alarms.TechnicalAfter | vent/controller/control_module.py:447-494 | the technical list only grows, by at most three, keeps deduplication and technical severity, and has each type exactly when it had it or that type's test fired |
| Alarms.AlarmTest | vent/controller/control_module.py:406-494 | the whole alarm test on values: the readings become the previous ones, the technical list only grows, and its invariant is kept |
| Alarms.Report | vent/controller/control_module.py:329-336 | each of the four result shapes is returned exactly in its case |
| Alarms.ReportIsComplete | vent/controller/control_module.py:320-341 | the report carries HAPA, if any, and then the whole technical list |
| Valves.Trunc | vent/controller/control_module.py:694 | int() truncates toward zero |
| Valves.InletCommand | vent/controller/control_module.py:694-696 | the inlet command lies in [0, 100] and is the truncated request clamped to that range |
| Valves.InletCommandOfWhole | vent/controller/control_module.py:694 | a whole request in [0, 100] reaches the valve unchanged |
| Valves.InletCommandMonotone | vent/controller/control_module.py:694 | a larger request never opens the inlet less |
| Valves.ValveWrites | vent/controller/control_module.py:690-700 | each valve is written exactly when its command differs from its cache, and only with that command; at most two writes, the inlet first |
| Valves.RepeatWritesNothing | vent/controller/control_module.py:690-700 | once the caches hold a request, repeating it writes nothing |
| ControlModule.ExpiratoryFlow | vent/controller/control_module.py:728-736 | the subtracted baseline lies between the smallest and the largest flow of the history including the new reading |
| ControlModule.SteadyBypassCancels | vent/controller/control_module.py:728-736 | a steady bypass flow is subtracted in full |
| ControlModule.Merge | vent/controller/control_module.py:268-279 | a measurement keeps its old value when the analysis raised before it |
| ControlModule.HalStep | vent/controller/control_module.py:703-736 | a read keeps both windows bounded and ends them with the new readings; in inspiration the outflow is 0, the alarm test's oxygen is refreshed and the flow history and oxygen are untouched; otherwise oxygen is read exactly when five seconds have passed |
| ControlModule.HalStepWindows | vent/controller/control_module.py:703-736 | the pressure joins the five-sample window, which drops its oldest sample once full; after inspiration the flow joins the flow history in the same way, and the patient's flow is the reading minus the 5th percentile of that new history |
| ControlModule.ReadingsOf | vent/controller/control_module.py:449-458 | the alarm test compares the oxygen copy, the outflow and the pressure |
| ControlModule.StoreOverwrites | vent/controller/control_module.py:253-295 | a complete analysis overwrites every measurement; one that raised before PEEP overwrites only VTE |
| ControlModule.Snapshot | vent/controller/control_module.py:672-687 | the snapshot fields from the measurements, the counters and the read, FIO2 from the outlet setpoint and FLOWOUT from the inlet setpoint |
| ControlModule.CountdownClosedForm | vent/controller/control_module.py:795-800 | after k iterations the countdown stands at N - k mod (N + 1), and k div (N + 1) resyncs happened |
| ControlModule.BreathStartsStep | vent/controller/control_module.py:777-786 | each loop iteration adds one breath start when its phase starts a breath after the phase before, or none |
| ControlModule.ControlModuleDevice.constructor | vent/controller/control_module.py:631-661 | the defaults as the shared settings and, except for the device's PEEP and PIP, as the working ones, with the derived cycle timing; no alarms, no previous readings and no stuck timer; all measurements absent; volume, dp/dt and both control signals 0; a single zero row and an empty archive; counters 0; one hardware read and its snapshot; valve caches and setpoints from the hardware; all invariants hold |
| ControlModule.ControlModuleDevice.InitializeSetToCopy | vent/controller/control_module.py:215-223 | the shared settings become the working ones |
| ControlModule.ControlModuleDevice.ControlsFromCopy | vent/controller/control_module.py:232-251 | the working settings become the shared ones; cycle 60 / bpm or 20, then E_PHASE and T_PEEP |
| ControlModule.ControlModuleDevice.SetControl | vent/controller/control_module.py:343-375 | a known name is written and reads back; an unknown name changes nothing; PIP's max value becomes the HAPA limit |
| ControlModule.ControlModuleDevice.GetControl | vent/controller/control_module.py:377-400 | the shared value of a known name, None for any other |
| ControlModule.ControlModuleDevice.GetAlarms | vent/controller/control_module.py:320-341 | the report of the HAPA slot and the technical list, carrying every alarm once |
| ControlModule.ControlModuleDevice.GetSensors | vent/controller/control_module.py:313-318 | the snapshot, with the contact recorded |
| ControlModule.ControlModuleDevice.GetHeartbeat | vent/controller/control_module.py:617-622 | the loop counter, with the contact recorded |
| ControlModule.ControlModuleDevice.GetPastWaveforms | vent/controller/control_module.py:546-558 | drains the archive in order and reseeds it with its newest entry; fails on an empty archive |
| ControlModule.ControlModuleDevice.GetHal | vent/controller/control_module.py:703-736 | one hardware read, windows kept bounded |
| ControlModule.ControlModuleDevice.SensorToCopy | vent/controller/control_module.py:667-687 | a hardware read followed by a new snapshot |
| ControlModule.ControlModuleDevice.AnalyzeLastWaveform | vent/controller/control_module.py:253-295 | the newest archived breath is analysed only when the archive holds more than one; the call raises exactly when the analysis is incomplete |
| ControlModule.ControlModuleDevice.ArchiveWaveform | vent/controller/control_module.py:502-508 | volume 0, the next breath number, the waveform archived only with more than one row, a new single-row waveform |
| ControlModule.ControlModuleDevice.SnapshotUnlessRaised | vent/controller/control_module.py:509-510 | the snapshot after an analysis, skipped when it raised |
| ControlModule.ControlModuleDevice.StartNewBreathCycle | vent/controller/control_module.py:498-514 | the whole breath start: bookkeeping, analysis and snapshot |
| ControlModule.ControlModuleDevice.TestHapa | vent/controller/control_module.py:421-445 | HAPA becomes HapaAfter of the old one; when the release is due the working PIP is 30 and the openings (0, 1), otherwise both are untouched |
| ControlModule.ControlModuleDevice.TestStuck | vent/controller/control_module.py:447-472 | the readings become the previous ones, the timer becomes StuckSinceAfter, and a stuck alarm is raised once stuck longer than 0.2 s |
| ControlModule.ControlModuleDevice.TestReadingsAndHeartbeat | vent/controller/control_module.py:474-494 | plausibility and heartbeat alarms, one per type |
| ControlModule.ControlModuleDevice.TestForAlarms | vent/controller/control_module.py:406-494 | the alarm fields become AlarmTest of the old ones; the release clause of TestHapa; the alarm invariant is kept |
| ControlModule.ControlModuleDevice.FeedAndTest | vent/controller/control_module.py:772-776 | the alarm fields become AlarmTest of the old ones; the openings are (0, 1) and the working PIP 30 exactly when the release is due, otherwise the controller's openings with the working settings unchanged |
| ControlModule.ControlModuleDevice.SetHal | vent/controller/control_module.py:690-700 | the caches end up holding the commands; only differing commands are written |
| ControlModule.ControlModuleDevice.SetValvesStandby | vent/controller/control_module.py:738-746 | inlet 0 and outlet 1 through the same suppressed writes |
| ControlModule.ControlModuleDevice.Sample | vent/controller/control_module.py:757-770 | loop counter + 1, stall clamp, one read, volume += dt * Qout, pressure averaged over the window |
| ControlModule.ControlModuleDevice.SampleAndTest | vent/controller/control_module.py:757-776 | the sample (counter, clamp, read, volume, averaged pressure), then the alarm fields as AlarmTest on the sampled readings and the openings and working PIP as in FeedAndTest |
| ControlModule.ControlModuleDevice.Record | vent/controller/control_module.py:777-784 | a breath start, which succeeds exactly when the newest archived breath (if more than one is archived) analyses completely, stores that analysis, resets dp/dt, and then reads the hardware and takes a snapshot; or exactly one appended row, with the measurements, dp/dt, sensors and snapshot unchanged |
| ControlModule.ControlModuleDevice.RecordAndActuate | vent/controller/control_module.py:777-800 | the breath bookkeeping with Record's effects on the archive, the measurements, dp/dt, the sensors and the snapshot; when it raised, no valve write and no resync; otherwise the valve command and a resync exactly when the countdown is 0, whose read and snapshot come last |
| ControlModule.ControlModuleDevice.ActuateUnlessRaised | vent/controller/control_module.py:787-800 | nothing when the analysis raised; otherwise the valve command and the countdown, with a resync (working settings, read and snapshot) exactly when it is 0 |
| ControlModule.ControlModuleDevice.FinishIteration | vent/controller/control_module.py:777-800 | the breath counter, the raise and the countdown of RecordAndActuate, that a resync leaves the working settings equal to the shared ones, and the waveform step: at a breath start volume 0, a single new row and the old waveform archived only with more than one row; otherwise exactly the sampled row appended, volume and archive unchanged |
| ControlModule.ControlModuleDevice.Resync | vent/controller/control_module.py:795-797 | working settings from the shared ones, then a new snapshot |
| ControlModule.ControlModuleDevice.Actuate | vent/controller/control_module.py:791-800 | the valve command, and a resync exactly when the countdown is 0, which then restarts at N; the resync read updates the sensors and the snapshot |
| ControlModule.ControlModuleDevice.LoopIteration | vent/controller/control_module.py:756-800 | one iteration: loop counter + 1; the breath counter + 1 exactly at a new breath, which raises exactly when the analysis is incomplete; the countdown and resync, which makes the working settings the shared ones; the waveform step in terms of the iteration's inputs: at a breath start volume 0, the single row (0, averaged pressure, 0) and the old waveform archived only with more than one row; otherwise the volume integrated over the clamped dt and the row (previous phase, averaged pressure, new volume) appended |
| ControlModule.ControlModuleDevice.Shutdown | vent/controller/control_module.py:802-805 | the exit resync: working settings from the shared ones, one read and a snapshot with the setpoints from before standby; then standby |
| ControlModule.ControlModuleDevice.RunIterations | vent/controller/control_module.py:753-800 | the loop counter counts the iterations and the breath counter the breath starts of the phases seen; a stop before the end means the newest breath analysed incompletely; without it, one resync every N + 1 iterations |
| ControlModule.ControlModuleDevice.MainLoop | vent/controller/control_module.py:748-805 | the iterations, then, unless the loop stopped on a raise, the exit resync, a snapshot of the final read with the final measurements and counters, and standby |

## Left out

- Threads, the lock, `start`, `stop`, `interrupt`, `is_running` and the
  `_running` event: the loop runs over a given sequence of iterations and
  every method runs alone.
- Logging and persistence (`DataLogger`, `__save_values`, the flush and
  rotation of the log files, `print` and logger calls): they do not change
  the controller's state.
- Hardware I/O, `time.time()` and `time.sleep`: readings and clock values
  are parameters. A forced release (lines 434-439) assigns the two control
  signals five times with a 20 ms sleep after each, blocking the loop for
  100 ms; the model makes one assignment and does not model the delay. No
  valve is written there; the signals reach the valves at the iteration's
  `_set_HAL`.
- The feedback controller (`feed`, `cycle_phase`, `dt`) and the
  `BreathWaveform` built in the device's `__init__`: their outputs are
  parameters. Files opened by `__init__` are not part of this model.
- Floating point: all arithmetic is over exact reals, so `np.isfinite` of
  the mean always holds and the NaN branch of the analysis (lines 280-286)
  is not modelled. A BPM from a zero last phase is the `NonFinite` metric
  (numpy returns infinity there).
- `_DATA_P`, `_DATA_I`, `_DATA_D`, `breath_pressure_drop`, the control
  signal helpers and `__DATA_LAST_PEEP` are never read by the modelled code.
- `ControlModule.ControlModuleDevice.SetHal`: `is not` is modelled as
  value inequality. The source compares object identity, which for Python
  floats and large ints can report a difference between equal values and
  then write again.
- `ControlModule.ControlModuleDevice.TestHapa`: the alarm's start time and
  the release test read the clock twice in the source; the model reads it
  once (`alarmTime`).
- `ControlModule.ControlModuleDevice.TestStuck`: the stuck timer's start
  (line 462) and its elapsed time (line 465) are two clock reads in the
  source; the model uses the same `alarmTime` for both.
- `ControlModule.ControlModuleDevice.GetAlarms`: `get_alarms` (lines
  325-335) returns the list object `TECHA` itself, so a caller that
  changes the returned list changes the controller's list. The model
  returns a value copy and does not model that aliasing.
- `ControlModule.ControlModuleDevice.MainLoop`: an analysis that raises
  ends the loop at once, with no exit resync and no standby, as an
  exception ends the loop thread. After such a stop the model states the
  invariants, the counters and that the newest archived breath analysed
  incompletely, and nothing else.
- `ControlModule.ControlModuleDevice.LoopIteration`: the three hardware
  reads of an iteration (the main one, the one at a breath start, the one
  at a resync) are separate inputs; they are not related to each other.
  Its contract states the counters, the raise, the countdown, the resync
  and the waveform step. What an iteration does to the alarm fields and
  the control signals is stated by `SampleAndTest`; what it does to the
  valves, the measurements and the snapshot is stated by
  `RecordAndActuate`, which `FinishIteration` calls. It is not repeated
  here.
- `ControlModule.ControlModuleDevice.MainLoop`: the FIO2 and FLOWOUT fields
  of the exit snapshot are the setpoints of the last iteration's valve
  write; `MainLoop` does not state them (`Shutdown` does, in terms of the
  setpoints it finds).
- `ControlModule.HalStep`: the oxygen-due test (line 723), the stamp of the
  last oxygen read (line 726) and the snapshot's timestamp (line 683) each
  read the clock in the source; the model uses the reading's one time
  `r.time` for all three.
- The constructor makes the first hardware read (`HalStep`) and snapshot
  (`Snapshot`) itself instead of calling `SensorToCopy`, which needs the
  object's invariants first; the result is the same.
