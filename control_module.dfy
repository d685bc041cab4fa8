// The controller state machine: one object whose fields the control loop
// rewrites once per iteration. It holds the shared and the working copy of
// the settings, the alarm state, the current breath's waveform and the
// archive of past ones, the sensor history windows and the valve caches.
// Time, the hardware readings and the outputs of the feedback controller are
// inputs to the methods.

module ControlModule {
  import opened Values
  import opened Stats
  import opened Breath
  import opened Alarms
  import opened Valves

  /** The controller preferences read at start-up. */
  datatype Prefs = Prefs(
    loopUpdateTime: real,
    loopsUntilUpdate: nat,
    ringbufferSize: nat,
    coughDuration: real,
    heartbeatTimeout: real)

  /** What one hardware read returns: the clock at the read, the breath
      phase the feedback controller reports for that time, the airway
      pressure, the expiratory flow (l/min) and the oxygen reading. */
  datatype HalReading = HalReading(time: real, phase: real, pressure: real, flowEx: real, oxygen: real)

  /** What one loop iteration consumes: the time step the feedback controller
      reports, the breath phase at the iteration's clock, the two valve
      openings the controller feeds back, the clock at the alarm test, and
      the hardware reads of the iteration (the main one, the one a breath
      start makes and the one a resync makes). */
  datatype LoopInput = LoopInput(
    dt: real,
    phase: real,
    feedIn: real,
    feedOut: real,
    alarmTime: real,
    sample: HalReading,
    breathSample: HalReading,
    resyncSample: HalReading)

  /** Length of the pressure averaging window. */
  const PressureWindow: nat := 5
  /** Length of the expiratory-flow history. */
  const FlowHistory: nat := 500
  /** Seconds between two oxygen reads. */
  const OxygenInterval: real := 5.0

  /** The expiratory flow through the patient: the reading in l/s minus the
      5th percentile of the flow history (the bypass flow), the history
      including the new reading. The subtracted baseline lies between the
      smallest and the largest flow of that history. */
  function ExpiratoryFlow(pct: PercentileFn, flows: seq<real>, flowEx: real): (q: real)
    ensures var h := BoundedAppend(flows, flowEx / 60.0, FlowHistory);
      PercentileLike(pct) ==> Min(h) <= flowEx / 60.0 - q <= Max(h)
  {
    var pq := flowEx / 60.0;
    pq - pct(BoundedAppend(flows, pq, FlowHistory), 5.0)
  }

  /** A steady bypass flow is subtracted in full: when every flow in the
      history equals the new reading, no flow is left for the patient. */
  lemma SteadyBypassCancels(pct: PercentileFn, flows: seq<real>, flowEx: real)
    requires PercentileLike(pct)
    requires forall i :: 0 <= i < |flows| ==> flows[i] == flowEx / 60.0
    ensures ExpiratoryFlow(pct, flows, flowEx) == 0.0
  {
    var pq := flowEx / 60.0;
    var h := BoundedAppend(flows, pq, FlowHistory);
    BoundedAppendSuffix(flows, pq, FlowHistory);
    assert h == (flows + [pq])[|flows| + 1 - |h|..];
    forall x | x in h ensures x == pq {
      var k :| 0 <= k < |h| && h[k] == x;
      assert h[k] == (flows + [pq])[|flows| + 1 - |h| + k];
    }
    PercentileOfConstant(pct, h, 5.0, pq);
    assert pct(h, 5.0) == pq;
    assert ExpiratoryFlow(pct, flows, flowEx) == pq - pct(h, 5.0);
  }

  /** A measured value after an analysis step: the value it computed, or
      the value from before when it raised first. */
  function Merge(m: Metric, x: Option<real>): (r: Metric)
    ensures x.None? ==> r == m
    ensures x.Some? ==> r == Value(x.value)
  {
    if x.Some? then Value(x.value) else m
  }

  /** The volume after the flow q has run for dt seconds. */
  function Integrate(volume: real, dt: real, q: real): real
  {
    volume + dt * q
  }

  /** The sensor side of the controller's state: the pressure and its
      averaging window, the expiratory flow and its history, and the oxygen
      values. */
  datatype SensorState = SensorState(
    pressure: real,
    pressureList: seq<real>,
    qOut: real,
    copyOxygen: real,
    oxygen: real,
    oxygenLastRead: real,
    flowList: seq<real>)

  /** One hardware read. The reading becomes the current pressure and joins
      the pressure window. During inspiration (the phase before the shared
      I_PHASE) the outflow counts as zero and the alarm test's oxygen value is
      refreshed; otherwise the oxygen sensor is read at most every five
      seconds and the flow joins the flow history, its baseline subtracted. */
  function HalStep(s: SensorState, r: HalReading, iPhase: real, pct: PercentileFn): (t: SensorState)
    ensures |t.pressureList| <= PressureWindow && (|s.flowList| <= FlowHistory ==> |t.flowList| <= FlowHistory)
    ensures t.pressure == r.pressure && |t.pressureList| > 0 && t.pressureList[|t.pressureList| - 1] == r.pressure
    ensures r.phase < iPhase ==>
      t.qOut == 0.0 && t.flowList == s.flowList && t.oxygen == s.oxygen && t.copyOxygen == s.oxygen
      && t.oxygenLastRead == s.oxygenLastRead
    ensures r.phase >= iPhase ==>
      t.copyOxygen == s.copyOxygen && |t.flowList| > 0 && t.flowList[|t.flowList| - 1] == r.flowEx / 60.0
      && (r.time - s.oxygenLastRead > OxygenInterval ==> t.oxygen == r.oxygen && t.oxygenLastRead == r.time)
      && (r.time - s.oxygenLastRead <= OxygenInterval ==> t.oxygen == s.oxygen && t.oxygenLastRead == s.oxygenLastRead)
  {
    var pressures := BoundedAppend(s.pressureList, r.pressure, PressureWindow);
    BoundedAppendSuffix(s.pressureList, r.pressure, PressureWindow);
    assert |pressures| > 0 && pressures[|pressures| - 1] == r.pressure;
    var sampled := s.(pressure := r.pressure, pressureList := pressures);
    if r.phase < iPhase then
      sampled.(qOut := 0.0, copyOxygen := s.oxygen)
    else
      var flows := BoundedAppend(s.flowList, r.flowEx / 60.0, FlowHistory);
      BoundedAppendSuffix(s.flowList, r.flowEx / 60.0, FlowHistory);
      assert |flows| > 0 && flows[|flows| - 1] == r.flowEx / 60.0;
      var due := r.time - s.oxygenLastRead > OxygenInterval;
      sampled.(oxygen := if due then r.oxygen else s.oxygen,
               oxygenLastRead := if due then r.time else s.oxygenLastRead,
               qOut := ExpiratoryFlow(pct, s.flowList, r.flowEx),
               flowList := flows)
  }

  /** The windows of a hardware read: the pressure joins the five-sample
      window, which drops its oldest sample once full; after inspiration the
      flow joins the flow history in the same way, and the patient's flow is
      the reading minus the 5th percentile of that new history. */
  lemma HalStepWindows(s: SensorState, r: HalReading, iPhase: real, pct: PercentileFn)
    ensures var t := HalStep(s, r, iPhase, pct);
      (|s.pressureList| < PressureWindow ==> t.pressureList == s.pressureList + [r.pressure])
      && (|s.pressureList| == PressureWindow ==> t.pressureList == s.pressureList[1..] + [r.pressure])
    ensures var t := HalStep(s, r, iPhase, pct);
      r.phase >= iPhase ==>
        (|s.flowList| < FlowHistory ==> t.flowList == s.flowList + [r.flowEx / 60.0])
        && (|s.flowList| == FlowHistory ==> t.flowList == s.flowList[1..] + [r.flowEx / 60.0])
        && t.qOut == r.flowEx / 60.0 - pct(t.flowList, 5.0)
  {
    var t := HalStep(s, r, iPhase, pct);
    assert t.pressureList == BoundedAppend(s.pressureList, r.pressure, PressureWindow);
    if |s.pressureList| == PressureWindow {
      BoundedAppendFull(s.pressureList, r.pressure, PressureWindow);
    }
    if r.phase >= iPhase {
      var flows := BoundedAppend(s.flowList, r.flowEx / 60.0, FlowHistory);
      assert t.flowList == flows;
      if |s.flowList| == FlowHistory {
        BoundedAppendFull(s.flowList, r.flowEx / 60.0, FlowHistory);
      }
      assert t.qOut == ExpiratoryFlow(pct, s.flowList, r.flowEx);
    }
  }

  /** The three readings the alarm test compares: the oxygen value, the
      expiratory flow and the pressure. */
  function ReadingsOf(s: SensorState): (r: Readings)
    ensures r.oxygen == s.copyOxygen && r.flowOut == s.qOut && r.pressure == s.pressure
  {
    Readings(s.copyOxygen, s.qOut, s.pressure)
  }

  /** The measured values of the last analysed breath. */
  datatype Measurements = Measurements(
    pip: Metric,
    pipPlateau: Metric,
    pipTime: Metric,
    peep: Metric,
    peepTime: Metric,
    iPhase: Metric,
    bpm: Metric,
    vte: Metric)

  /** The measurements after an analysis: each field the analysis reached
      takes its value, the others keep theirs. */
  function Store(m: Measurements, a: Analysis): Measurements
  {
    Measurements(Merge(m.pip, a.pip), Merge(m.pipPlateau, a.pipPlateau), Merge(m.pipTime, a.pipTime),
                 Merge(m.peep, a.peep), Merge(m.peepTime, a.peepTime), Merge(m.iPhase, a.iPhase),
                 if a.bpm.Some? then a.bpm.value else m.bpm, Value(a.vte))
  }

  /** A complete analysis of a breath overwrites every measurement; one
      that raised before PEEP overwrites only VTE. */
  lemma StoreOverwrites(m: Measurements, w: Waveform, pct: PercentileFn)
    requires |w| > 0
    ensures var a := Analyze(w, pct); a.Complete() ==> var n := Store(m, a);
      n.pip.Value? && n.pipPlateau.Value? && n.pipTime.Value? && n.peep.Value?
      && n.peepTime.Value? && n.iPhase.Value? && n.vte == Value(a.vte)
    ensures var a := Analyze(w, pct); a.peep.None? ==> Store(m, a) == m.(vte := Value(a.vte))
  {
  }

  /** The snapshot the coordinator reads after a hardware read r, taken
      from the measurements m, the hardware's inlet and outlet setpoints, the
      loop counter and the breath number. Its FIO2 is the outlet setpoint and
      its FLOWOUT the inlet setpoint. */
  function Snapshot(m: Measurements, setpointIn: real, setpointEx: real, loops: nat, breath: nat, r: HalReading)
    : (v: SensorValues)
    ensures v.pip == m.pip && v.peep == m.peep && v.vte == m.vte
    ensures v.breathsPerMinute == m.bpm && v.inspirationTimeSec == m.iPhase
    ensures v.pressure == r.pressure && v.timestamp == r.time
    ensures v.fio2 == setpointEx && v.flowOut == setpointIn
    ensures v.loopCounter == loops && v.breathCount == breath
  {
    SensorValues(m.pip, m.peep, setpointEx, r.pressure, m.vte, m.bpm, m.iPhase, setpointIn, r.time, loops, breath)
  }

  /** The phase readings of a run of loop inputs. */
  function InputPhases(inputs: seq<LoopInput>): seq<real>
  {
    seq(|inputs|, i requires 0 <= i < |inputs| => inputs[i].phase)
  }

  /** Each iteration adds one breath start, when its phase starts a breath
      after the phase before, or none. */
  lemma BreathStartsStep(inputs: seq<LoopInput>, n: nat)
    requires n < |inputs|
    ensures var previous := if n == 0 then None else Some(inputs[n - 1].phase);
      |BreathStarts(None, InputPhases(inputs[..n + 1]))|
        == |BreathStarts(None, InputPhases(inputs[..n]))| + (if IsNewBreath(previous, inputs[n].phase) then 1 else 0)
  {
    var ps := InputPhases(inputs[..n]);
    assert InputPhases(inputs[..n + 1]) == ps + [inputs[n].phase];
    BreathStartsCount(None, ps, inputs[n].phase);
  }

  /** The resync countdown after k iterations that started at n. */
  function CountdownAfter(k: nat, n: nat): nat
  {
    if k == 0 then n
    else
      var c := CountdownAfter(k - 1, n);
      if c == 0 then n else c - 1
  }

  /** The number of resyncs in the first k iterations. */
  function ResyncsAfter(k: nat, n: nat): nat
  {
    if k == 0 then 0
    else ResyncsAfter(k - 1, n) + (if CountdownAfter(k - 1, n) == 0 then 1 else 0)
  }

  lemma MulAtLeast(a: int, d: int)
    requires 1 <= a && 0 < d
    ensures d <= a * d
  {
    assert a * d == d + (a - 1) * d;
    assert 0 <= (a - 1) * d;
  }

  /** x = q * d + r with 0 <= r < d fixes the quotient and remainder. */
  lemma DivModUnique(x: int, d: int, q: int, r: int)
    requires 0 < d && 0 <= r < d && x == q * d + r
    ensures x / d == q && x % d == r
  {
    var q0, r0 := x / d, x % d;
    assert x == q0 * d + r0;
    assert (q - q0) * d == r0 - r;
    if q - q0 >= 1 {
      MulAtLeast(q - q0, d);
    } else if q0 - q >= 1 {
      assert (q0 - q) * d == r - r0;
      MulAtLeast(q0 - q, d);
    }
  }

  /** Going from k - 1 to k either wraps the remainder to 0 and adds one to
      the quotient, or adds one to the remainder. */
  lemma DivModSucc(k: int, d: int)
    requires 0 < k && 0 < d
    ensures (k - 1) % d == d - 1 ==> k % d == 0 && k / d == (k - 1) / d + 1
    ensures (k - 1) % d < d - 1 ==> k % d == (k - 1) % d + 1 && k / d == (k - 1) / d
  {
    var q, r := (k - 1) / d, (k - 1) % d;
    assert k - 1 == q * d + r && 0 <= r < d;
    if r == d - 1 {
      assert k == (q + 1) * d + 0;
      DivModUnique(k, d, q + 1, 0);
    } else {
      assert k == q * d + (r + 1);
      DivModUnique(k, d, q, r + 1);
    }
  }

  /** The countdown resyncs once every n + 1 iterations: after k iterations
      it stands at n - k mod (n + 1), and k div (n + 1) resyncs happened. */
  lemma {:induction false} CountdownClosedForm(k: nat, n: nat)
    ensures CountdownAfter(k, n) == n - k % (n + 1)
    ensures ResyncsAfter(k, n) == k / (n + 1)
  {
    if k > 0 {
      CountdownClosedForm(k - 1, n);
      DivModSucc(k, n + 1);
    }
  }

  /** The controller object: the Base and Device halves of the original
      class in one. The sensor attributes and the measurements of the last
      breath are held as one record field each. */
  class ControlModuleDevice {
    const prefs: Prefs
    /** numpy's percentile, used for the flow baseline and the breath
        analysis. */
    const percentile: PercentileFn
    /** The breath analysis, numpy's percentile built in. */
    const analyze: Waveform -> Analysis
    /** The default of each setting. */
    const defaults: Settings

    /** COPY_SET_*: written by the coordinator, read by the loop at resync. */
    var shared: Settings
    /** __SET_*: what the loop works with. */
    var working: Settings
    /** Derived timing of the working settings. */
    var cycleDuration: real
    var ePhase: real
    var tPeep: real

    /** Valve openings the loop requests. */
    var controlIn: real
    var controlOut: real

    var hapa: Option<Alarm>
    var techa: seq<Alarm>
    var limitHapa: real
    var sensorStuckSince: Option<real>
    /** The readings of the previous alarm test (None on the first one). */
    var previousReadings: Option<Readings>

    /** _DATA_PIP, _DATA_PIP_PLATEAU, ... _DATA_VTE. */
    var measured: Measurements

    var breathCount: nat
    /** The next value the breath counter hands out. */
    var breathCounter: nat
    var waveform: Waveform
    var archive: seq<Waveform>

    /** _DATA_PRESSURE, _DATA_PRESSURE_LIST, _DATA_Qout, COPY_DATA_OXYGEN,
        _DATA_OXYGEN, _OXYGEN_LAST_READ and _flow_list. */
    var sensors: SensorState
    var volume: real
    var dpdt: real

    var copySensorValues: SensorValues
    var loopCounter: nat
    var timeLastContact: real

    /** Cached valve settings and the hardware's two setpoints. */
    var currentSettingIn: real
    var currentSettingEx: real
    var halSetpointIn: real
    var halSetpointEx: real
    /** Every setpoint write sent to the hardware, oldest first. */
    var halWrites: seq<ValveWrite>

    /** The current waveform is never empty; the archive holds at most
        ringbufferSize waveforms, each of more than one row. */
    ghost predicate WaveformsValid()
      reads this`waveform, this`archive
    {
      |waveform| >= 1
      && |archive| <= prefs.ringbufferSize
      && (forall k :: 0 <= k < |archive| ==> |archive[k]| > 1)
    }

    /** The pressure window and the flow history keep their bounds. */
    ghost predicate WindowsValid()
      reads this`sensors
    {
      |sensors.pressureList| <= PressureWindow && |sensors.flowList| <= FlowHistory
    }

    /** At most one technical alarm per type, none of them a HAPA; the HAPA
        slot holds a high-pressure alarm with its start time. */
    ghost predicate AlarmsValid()
      reads this`techa, this`hapa
    {
      Deduplicated(techa) && TechnicalOnly(techa)
      && (hapa.Some? ==> hapa.value.alarmType == HighPressure && hapa.value.startTime.Some?)
    }

    /** The valve caches mirror the hardware setpoints. */
    ghost predicate ValvesValid()
      reads this`currentSettingIn, this`currentSettingEx, this`halSetpointIn, this`halSetpointEx
    {
      halSetpointIn == currentSettingIn && halSetpointEx == currentSettingEx
    }

    /** The breath number is the last value the counter handed out. */
    ghost predicate CounterValid()
      reads this`breathCount, this`breathCounter
    {
      (breathCounter == 0 ==> breathCount == 0)
      && (breathCounter > 0 ==> breathCount == breathCounter - 1)
    }

    /** The derived timing follows the working settings. */
    ghost predicate TimingValid()
      reads this`working, this`cycleDuration, this`ePhase, this`tPeep
    {
      cycleDuration == CycleDuration(working.bpm)
      && ePhase == cycleDuration - working.iPhase
      && tPeep == ePhase - working.peepTime
    }

    ghost predicate Valid()
      reads this`waveform, this`archive, this`sensors, this`techa, this`hapa,
            this`currentSettingIn, this`currentSettingEx, this`halSetpointIn, this`halSetpointEx,
            this`breathCount, this`breathCounter, this`working, this`cycleDuration, this`ePhase, this`tPeep
    {
      WaveformsValid() && WindowsValid() && AlarmsValid() && ValvesValid() && CounterValid() && TimingValid()
    }

    /** The controller after start-up: settings at their defaults except
        the working PEEP and PIP, which the device overrides; no alarm, no
        breath, an empty archive; one hardware read into the snapshot; the
        valve caches taken from the hardware. */
    constructor (prefs: Prefs, percentile: PercentileFn, defaults: Settings, hapaLimit: real, peep: real, pip: real,
                 halIn: real, halEx: real, first: HalReading, now: real)
      ensures Valid()
      ensures this.prefs == prefs && this.percentile == percentile && this.defaults == defaults
      ensures analyze == Analyzer(percentile)
      ensures shared == defaults && working == defaults.(peep := peep, pip := pip)
      ensures hapa.None? && techa == [] && limitHapa == hapaLimit
      ensures waveform == [Row(0.0, 0.0, 0.0)] && archive == []
      ensures breathCount == 0 && breathCounter == 0 && loopCounter == 0
      ensures currentSettingIn == halIn && currentSettingEx == halEx && halWrites == []
      ensures timeLastContact == now
      ensures previousReadings.None? && sensorStuckSince.None?
      ensures volume == 0.0 && dpdt == 0.0 && controlIn == 0.0 && controlOut == 0.0
      ensures measured == Measurements(Absent, Absent, Absent, Absent, Absent, Absent, Absent, Absent)
      ensures halSetpointIn == halIn && halSetpointEx == halEx
      ensures cycleDuration == CycleDuration(defaults.bpm) && ePhase == cycleDuration - defaults.iPhase
      ensures tPeep == ePhase - defaults.peepTime
      ensures sensors == HalStep(SensorState(0.0, [], 0.0, 0.0, 0.0, 0.0, []), first, defaults.iPhase, percentile)
      ensures copySensorValues ==
        SensorValues(Absent, Absent, halEx, first.pressure, Absent, Absent, Absent, halIn, first.time, 0, 0)
    {
      this.prefs := prefs;
      this.percentile := percentile;
      analyze := Analyzer(percentile);
      this.defaults := defaults;
      // The base initialisation copies the default settings into the
      // shared ones before the device overrides PEEP and PIP.
      shared := defaults;
      working := defaults.(peep := peep, pip := pip);
      cycleDuration := CycleDuration(defaults.bpm);
      ePhase := CycleDuration(defaults.bpm) - defaults.iPhase;
      tPeep := CycleDuration(defaults.bpm) - defaults.iPhase - defaults.peepTime;
      controlIn, controlOut := 0.0, 0.0;
      hapa, techa, limitHapa := None, [], hapaLimit;
      sensorStuckSince, previousReadings := None, None;
      measured := Measurements(Absent, Absent, Absent, Absent, Absent, Absent, Absent, Absent);
      breathCount, breathCounter := 0, 0;
      waveform, archive := [Row(0.0, 0.0, 0.0)], [];
      // The device's first hardware read and snapshot.
      var start := SensorState(0.0, [], 0.0, 0.0, 0.0, 0.0, []);
      sensors := HalStep(start, first, defaults.iPhase, percentile);
      volume, dpdt := 0.0, 0.0;
      loopCounter := 0;
      timeLastContact := now;
      currentSettingIn, currentSettingEx := halIn, halEx;
      halSetpointIn, halSetpointEx := halIn, halEx;
      halWrites := [];
      new;
      copySensorValues := Snapshot(measured, halSetpointIn, halSetpointEx, loopCounter, breathCount, first);
    }

    /** Start-up copy of the working settings into the shared ones. */
    method InitializeSetToCopy()
      modifies this`shared
      ensures shared == working
    {
      shared := working;
    }

    /** Resync: the working settings take the shared values and the derived
        timing follows them (cycle 60 / bpm, or 20 when bpm is zero). */
    method ControlsFromCopy()
      modifies this`working, this`cycleDuration, this`ePhase, this`tPeep
      ensures working == shared
      ensures TimingValid()
      ensures working.bpm != 0.0 ==> cycleDuration * working.bpm == 60.0
      ensures working.bpm == 0.0 ==> cycleDuration == 20.0
      ensures ePhase == cycleDuration - working.iPhase && tPeep == ePhase - working.peepTime
    {
      working := shared;
      if working.bpm == 0.0 {
        cycleDuration := 20.0;
      } else {
        cycleDuration := 60.0 / working.bpm;
      }
      ePhase := cycleDuration - working.iPhase;
      tPeep := ePhase - working.peepTime;
    }

    /** A coordinator write. A value under one of the six names goes into
        the shared settings; a value under any other name makes the call
        return at once, with nothing changed. A PIP setting's maximum
        becomes the high-pressure limit, even without a value. Every call
        that does not return early records the contact. */
    method SetControl(cs: ControlSetting, now: real)
      modifies this`shared, this`limitHapa, this`timeLastContact
      ensures cs.value.Some? && !IsControlName(cs.name) ==>
        shared == old(shared) && limitHapa == old(limitHapa) && timeLastContact == old(timeLastContact)
      ensures cs.value.Some? && IsControlName(cs.name) ==> shared == old(shared).Set(cs.name, cs.value.value)
      ensures cs.value.Some? && IsControlName(cs.name) ==> shared.Get(cs.name) == cs.value
      ensures cs.value.None? ==> shared == old(shared)
      ensures !(cs.value.Some? && !IsControlName(cs.name)) ==>
        timeLastContact == now &&
        limitHapa == (if cs.name == Pip && cs.maxValue.Some? then cs.maxValue.value else old(limitHapa))
    {
      if cs.value.Some? {
        if !IsControlName(cs.name) {
          return;
        }
        shared := shared.Set(cs.name, cs.value.value);
        SetThenGet(old(shared), cs.name, cs.value.value);
      }
      if cs.name == Pip && cs.maxValue.Some? {
        limitHapa := cs.maxValue.value;
      }
      timeLastContact := now;
    }

    /** A coordinator read of a shared setting; None for a name that is not
        a setting. */
    method GetControl(name: ValueName, now: real) returns (r: Option<ControlSetting>)
      modifies this`timeLastContact
      ensures r.Some? <==> IsControlName(name)
      ensures r.Some? ==> r.value.name == name && r.value.value == shared.Get(name)
      ensures timeLastContact == now
    {
      var v := shared.Get(name);
      if v.Some? {
        r := Some(ControlSetting(name, v, None, None));
      } else {
        r := None;
      }
      timeLastContact := now;
    }

    /** The alarm report; reading it does not count as contact. */
    method GetAlarms() returns (r: Option<AlarmReport>)
      ensures r == Report(hapa, techa)
      ensures Reported(r) == Slot(hapa) + techa
    {
      r := Report(hapa, techa);
      ReportIsComplete(hapa, techa);
    }

    /** The sensor snapshot, recording the contact. */
    method GetSensors(now: real) returns (r: SensorValues)
      modifies this`timeLastContact
      ensures r == copySensorValues && timeLastContact == now
    {
      r := copySensorValues;
      timeLastContact := now;
    }

    /** The loop counter as a heartbeat, recording the contact. */
    method GetHeartbeat(now: real) returns (r: nat)
      modifies this`timeLastContact
      ensures r == loopCounter && timeLastContact == now
    {
      r := loopCounter;
      timeLastContact := now;
    }

    /** Drains the archive, oldest first, and reseeds it with its newest
        entry. On an empty archive the call fails after the archive has been
        replaced by an empty one, and the contact is not recorded. */
    method GetPastWaveforms(now: real) returns (ok: bool, r: seq<Waveform>)
      requires WaveformsValid()
      modifies this`archive, this`timeLastContact
      ensures WaveformsValid()
      ensures ok <==> |old(archive)| > 0
      ensures ok ==> r == old(archive) && archive == [r[|r| - 1]] && timeLastContact == now
      ensures !ok ==> archive == [] && timeLastContact == old(timeLastContact)
    {
      r := archive;
      archive := [];
      if |r| == 0 {
        ok := false;
        return;
      }
      archive := BoundedAppend(archive, r[|r| - 1], prefs.ringbufferSize);
      ok := true;
      timeLastContact := now;
    }

    /** One hardware read. */
    method GetHal(r: HalReading)
      requires WindowsValid()
      modifies this`sensors
      ensures WindowsValid()
      ensures sensors == HalStep(old(sensors), r, shared.iPhase, percentile)
    {
      sensors := HalStep(sensors, r, shared.iPhase, percentile);
    }

    /** A hardware read followed by a new snapshot. */
    method SensorToCopy(r: HalReading)
      requires WindowsValid()
      modifies this`sensors, this`copySensorValues
      ensures WindowsValid()
      ensures sensors == HalStep(old(sensors), r, shared.iPhase, percentile)
      ensures copySensorValues == Snapshot(measured, halSetpointIn, halSetpointEx, loopCounter, breathCount, r)
    {
      GetHal(r);
      copySensorValues := Snapshot(measured, halSetpointIn, halSetpointEx, loopCounter, breathCount, r);
    }

    /** Analyses the newest archived waveform, but only when the archive
        holds more than one. ok is false when the analysis raised. */
    method AnalyzeLastWaveform() returns (ok: bool)
      requires WaveformsValid()
      modifies this`measured
      ensures |archive| <= 1 ==> ok && measured == old(measured)
      ensures |archive| > 1 ==> var a := analyze(archive[|archive| - 1]);
        measured == Store(old(measured), a) && (ok <==> a.Complete())
    {
      ok := true;
      if |archive| > 1 {
        var a := analyze(archive[|archive| - 1]);
        measured := measured.(vte := Value(a.vte));
        measured := measured.(peep := Merge(measured.peep, a.peep));
        measured := measured.(pipPlateau := Merge(measured.pipPlateau, a.pipPlateau));
        measured := measured.(pip := Merge(measured.pip, a.pip));
        measured := measured.(pipTime := Merge(measured.pipTime, a.pipTime));
        measured := measured.(peepTime := Merge(measured.peepTime, a.peepTime));
        measured := measured.(iPhase := Merge(measured.iPhase, a.iPhase));
        if a.bpm.Some? {
          measured := measured.(bpm := a.bpm.value);
        }
        ok := a.Complete();
      }
    }

    /** The bookkeeping at the start of a breath: volume back to zero, the
        next breath number, the finished waveform archived when it has more
        than one row and a new waveform holding the single row
        (0, pressure, 0). */
    method ArchiveWaveform()
      requires WaveformsValid() && CounterValid()
      modifies this`volume, this`dpdt, this`breathCount, this`breathCounter, this`archive, this`waveform
      ensures WaveformsValid() && CounterValid()
      ensures volume == 0.0 && dpdt == 0.0
      ensures breathCount == old(breathCounter) && breathCounter == old(breathCounter) + 1
      ensures archive == if |old(waveform)| > 1 then BoundedAppend(old(archive), old(waveform), prefs.ringbufferSize)
                         else old(archive)
      ensures waveform == [Row(0.0, sensors.pressure, 0.0)]
    {
      volume := 0.0;
      dpdt := 0.0;
      breathCount := breathCounter;
      breathCounter := breathCounter + 1;
      if |waveform| > 1 {
        BoundedAppendSuffix(archive, waveform, prefs.ringbufferSize);
        archive := BoundedAppend(archive, waveform, prefs.ringbufferSize);
      }
      waveform := [Row(0.0, sensors.pressure, volume)];
    }

    /** The snapshot after an analysis, skipped when the analysis raised. */
    method SnapshotUnlessRaised(ok: bool, r: HalReading)
      requires WindowsValid()
      modifies this`sensors, this`copySensorValues
      ensures WindowsValid()
      ensures sensors == if ok then HalStep(old(sensors), r, shared.iPhase, percentile) else old(sensors)
      ensures copySensorValues ==
        if ok then Snapshot(measured, halSetpointIn, halSetpointEx, loopCounter, breathCount, r)
        else old(copySensorValues)
    {
      if ok {
        SensorToCopy(r);
      }
    }

    /** A breath starts: volume back to zero, the next breath number, the
        finished waveform archived when it has more than one row, a new
        waveform holding the single row (0, pressure, 0), the newest archived
        waveform analysed and, unless the analysis raised, a new snapshot. */
    method StartNewBreathCycle(r: HalReading) returns (ok: bool)
      requires WaveformsValid() && WindowsValid() && CounterValid()
      modifies this`volume, this`dpdt, this`breathCount, this`breathCounter, this`archive, this`waveform,
               this`measured, this`sensors, this`copySensorValues
      ensures WaveformsValid() && WindowsValid() && CounterValid()
      ensures volume == 0.0 && dpdt == 0.0
      ensures breathCount == old(breathCounter) && breathCounter == old(breathCounter) + 1
      ensures archive == if |old(waveform)| > 1 then BoundedAppend(old(archive), old(waveform), prefs.ringbufferSize)
                         else old(archive)
      ensures waveform == [Row(0.0, old(sensors).pressure, 0.0)]
      ensures |archive| > 1 ==> var a := analyze(archive[|archive| - 1]);
        measured == Store(old(measured), a) && (ok <==> a.Complete())
      ensures |archive| <= 1 ==> ok && measured == old(measured)
      ensures sensors == if ok then HalStep(old(sensors), r, shared.iPhase, percentile) else old(sensors)
      ensures copySensorValues ==
        if ok then Snapshot(measured, halSetpointIn, halSetpointEx, loopCounter, breathCount, r)
        else old(copySensorValues)
    {
      ArchiveWaveform();
      ghost var before, archived := measured, archive;
      assert before == old(measured);
      ok := AnalyzeLastWaveform();
      ghost var analysed := measured;
      SnapshotUnlessRaised(ok, r);
      assert measured == analysed && archive == archived;
    }

    /** The alarm fields as one value. */
    function AlarmStatus(): (a: AlarmState)
      reads this`hapa, this`techa, this`previousReadings, this`sensorStuckSince
    {
      AlarmState(hapa, techa, previousReadings, sensorStuckSince)
    }

    /** The release of a confirmed high-pressure alarm is due: the pressure
        is over the limit and has been for longer than a cough lasts. */
    predicate Releasing(now: real)
      reads this`sensors, this`limitHapa, this`hapa
    {
      ReleaseDue(hapa, sensors.pressure, limitHapa, now, prefs.coughDuration)
    }

    /** The high-pressure test. HAPA opens at the first pressure over the
        limit, keeps its start time while the pressure stays over it and
        closes at the first pressure at or below it; once it has lasted
        longer than a cough the inlet closes, the outlet opens and the
        working PIP falls to 30. */
    method TestHapa(now: real)
      requires AlarmsValid()
      modifies this`hapa, this`working, this`controlIn, this`controlOut
      ensures AlarmsValid()
      ensures hapa == HapaAfter(old(hapa), sensors.pressure, limitHapa, now)
      ensures Releasing(now) ==> working == old(working).(pip := ReleasePip) && controlIn == 0.0 && controlOut == 1.0
      ensures !Releasing(now) ==> working == old(working) && controlIn == old(controlIn) && controlOut == old(controlOut)
    {
      if sensors.pressure > limitHapa {
        if hapa.None? {
          hapa := Some(Alarm(HighPressure, High, Some(now), Some(sensors.pressure)));
        }
        if now - hapa.value.startTime.value > prefs.coughDuration {
          working := working.(pip := ReleasePip);
          controlOut := 1.0;
          controlIn := 0.0;
        }
      } else {
        hapa := None;
      }
    }

    /** The stuck-sensor test: the stuck timer starts when any of the three
        readings equals its previous value and is cleared when none does; a
        stuck-sensor alarm is raised once the timer has run longer than
        0.2 s. */
    method TestStuck(now: real)
      requires AlarmsValid()
      modifies this`previousReadings, this`sensorStuckSince, this`techa
      ensures AlarmsValid()
      ensures previousReadings == Some(ReadingsOf(sensors))
      ensures sensorStuckSince == StuckSinceAfter(old(previousReadings), old(sensorStuckSince), ReadingsOf(sensors), now)
      ensures techa == RaiseIf(old(techa),
                               Stuck(old(previousReadings), ReadingsOf(sensors))
                               && StuckElapsed(old(sensorStuckSince), now) > LimitMaxStuckSensor, SensorsStuck)
    {
      var current := ReadingsOf(sensors);
      var stuck := Stuck(previousReadings, current);
      previousReadings := Some(current);
      if stuck {
        var elapsed := StuckElapsed(sensorStuckSince, now);
        if sensorStuckSince.None? {
          sensorStuckSince := Some(now);
        }
        if elapsed > LimitMaxStuckSensor && !HasType(techa, SensorsStuck) {
          techa := techa + [TechnicalAlarm(SensorsStuck)];
        }
      } else {
        sensorStuckSince := None;
      }
    }

    /** The plausibility and heartbeat tests: one alarm of each type at
        most, raised for an implausible reading and for a missed heartbeat
        (as the source computes it). */
    method TestReadingsAndHeartbeat(now: real)
      requires AlarmsValid()
      modifies this`techa
      ensures AlarmsValid()
      ensures techa == RaiseIf(RaiseIf(old(techa), Implausible(ReadingsOf(sensors)), BadSensorReadings),
                               HeartbeatMissed(timeLastContact, now, prefs.heartbeatTimeout), MissedHeartbeat)
    {
      if Implausible(ReadingsOf(sensors)) && !HasType(techa, BadSensorReadings) {
        techa := techa + [TechnicalAlarm(BadSensorReadings)];
      }
      if HeartbeatMissed(timeLastContact, now, prefs.heartbeatTimeout) && !HasType(techa, MissedHeartbeat) {
        techa := techa + [TechnicalAlarm(MissedHeartbeat)];
      }
    }

    /** The alarm test of one iteration: high pressure, then stuck sensors,
        then implausible readings and the heartbeat. Technical alarms are
        only ever appended, at most one per type. */
    method TestForAlarms(now: real)
      requires AlarmsValid()
      modifies this`hapa, this`working, this`controlIn, this`controlOut,
               this`previousReadings, this`sensorStuckSince, this`techa
      ensures AlarmsValid()
      ensures AlarmStatus() ==
        AlarmTest(old(AlarmStatus()), ReadingsOf(sensors), limitHapa, timeLastContact, now, prefs.heartbeatTimeout)
      ensures Releasing(now) ==> working == old(working).(pip := ReleasePip) && controlIn == 0.0 && controlOut == 1.0
      ensures !Releasing(now) ==> working == old(working) && controlIn == old(controlIn) && controlOut == old(controlOut)
    {
      TestHapa(now);
      TestStuck(now);
      TestReadingsAndHeartbeat(now);
    }

    /** The controller's valve openings for this iteration followed by the
        alarm test: the openings stand unless a forced release overrides
        them, which also lowers the working PIP to 30. */
    method FeedAndTest(inp: LoopInput)
      requires AlarmsValid() && TimingValid()
      modifies this`hapa, this`working, this`controlIn, this`controlOut,
               this`previousReadings, this`sensorStuckSince, this`techa
      ensures AlarmsValid() && TimingValid()
      ensures AlarmStatus() ==
        AlarmTest(old(AlarmStatus()), ReadingsOf(sensors), limitHapa, timeLastContact, inp.alarmTime, prefs.heartbeatTimeout)
      ensures (controlIn, controlOut) == if Releasing(inp.alarmTime) then (0.0, 1.0) else (inp.feedIn, inp.feedOut)
      ensures working == if Releasing(inp.alarmTime) then old(working).(pip := ReleasePip) else old(working)
    {
      controlIn, controlOut := inp.feedIn, inp.feedOut;
      TestForAlarms(inp.alarmTime);
    }

    /** The valve command: each valve is written only when its command
        differs from the cached setting, and the caches end up holding the
        commands. */
    method SetHal(valveIn: real, valveOut: real)
      requires ValvesValid()
      modifies this`currentSettingIn, this`currentSettingEx, this`halSetpointIn, this`halSetpointEx, this`halWrites
      ensures ValvesValid()
      ensures currentSettingIn == InletCommand(valveIn) as real && currentSettingEx == valveOut
      ensures halWrites == old(halWrites) + ValveWrites(old(currentSettingIn), old(currentSettingEx), valveIn, valveOut)
    {
      var command := InletCommand(valveIn);
      if currentSettingIn != command as real {
        halSetpointIn := command as real;
        currentSettingIn := command as real;
        halWrites := halWrites + [InletSetpoint(command)];
      }
      if currentSettingEx != valveOut {
        currentSettingEx := valveOut;
        halSetpointEx := valveOut;
        halWrites := halWrites + [OutletSetpoint(valveOut)];
      }
    }

    /** Standby: inlet closed, outlet open, through the same suppressed
        writes. */
    method SetValvesStandby()
      requires ValvesValid()
      modifies this`currentSettingIn, this`currentSettingEx, this`halSetpointIn, this`halSetpointEx, this`halWrites
      ensures ValvesValid()
      ensures currentSettingIn == 0.0 && currentSettingEx == 1.0
      ensures halWrites == old(halWrites) + ValveWrites(old(currentSettingIn), old(currentSettingEx), 0.0, 1.0)
    {
      SetHal(0.0, 1.0);
    }

    /** The first part of an iteration: count it, clamp a stalled time step
        to the loop period, read the hardware, integrate the volume and
        average the pressure window. */
    method Sample(inp: LoopInput) returns (usedDt: real)
      requires Valid()
      modifies this`loopCounter, this`sensors, this`volume
      ensures Valid()
      ensures loopCounter == old(loopCounter) + 1
      ensures usedDt == if inp.dt > defaults.bpm / 4.0 then prefs.loopUpdateTime else inp.dt
      ensures var t := HalStep(old(sensors), inp.sample, shared.iPhase, percentile);
        |t.pressureList| > 0 && sensors == t.(pressure := Mean(t.pressureList))
      ensures volume == Integrate(old(volume), usedDt, sensors.qOut)
    {
      loopCounter := loopCounter + 1;
      usedDt := inp.dt;
      if usedDt > defaults.bpm / 4.0 {
        usedDt := prefs.loopUpdateTime;
      }
      GetHal(inp.sample);
      volume := Integrate(volume, usedDt, sensors.qOut);
      sensors := sensors.(pressure := Mean(sensors.pressureList));
    }

    /** The start of an iteration: sample the hardware, take the
        controller's valve openings and test for alarms. */
    method SampleAndTest(inp: LoopInput) returns (usedDt: real)
      requires Valid()
      modifies this`loopCounter, this`sensors, this`volume, this`hapa, this`working, this`controlIn,
               this`controlOut, this`previousReadings, this`sensorStuckSince, this`techa
      ensures Valid()
      ensures loopCounter == old(loopCounter) + 1
      ensures usedDt == if inp.dt > defaults.bpm / 4.0 then prefs.loopUpdateTime else inp.dt
      ensures var t := HalStep(old(sensors), inp.sample, shared.iPhase, percentile);
        |t.pressureList| > 0 && sensors == t.(pressure := Mean(t.pressureList))
      ensures volume == Integrate(old(volume), usedDt, sensors.qOut)
      ensures AlarmStatus() ==
        AlarmTest(old(AlarmStatus()), ReadingsOf(sensors), limitHapa, timeLastContact, inp.alarmTime, prefs.heartbeatTimeout)
      ensures (controlIn, controlOut) == if Releasing(inp.alarmTime) then (0.0, 1.0) else (inp.feedIn, inp.feedOut)
      ensures working == if Releasing(inp.alarmTime) then old(working).(pip := ReleasePip) else old(working)
    {
      usedDt := Sample(inp);
      FeedAndTest(inp);
    }

    /** The waveform bookkeeping of an iteration: a new breath starts when
        the phase wraps, otherwise the sampled row is appended. ok is false
        when the breath analysis raised. */
    method Record(isNew: bool, sampled: Row, r: HalReading) returns (ok: bool)
      requires Valid()
      modifies this`volume, this`dpdt, this`breathCount, this`breathCounter, this`archive, this`waveform,
               this`measured, this`sensors, this`copySensorValues
      ensures Valid()
      ensures isNew ==>
        breathCount == old(breathCounter) && breathCounter == old(breathCounter) + 1
        && volume == 0.0 && waveform == [Row(0.0, old(sensors).pressure, 0.0)]
        && archive == if |old(waveform)| > 1 then BoundedAppend(old(archive), old(waveform), prefs.ringbufferSize)
                      else old(archive)
      ensures isNew ==> (ok <==> |archive| <= 1 || analyze(archive[|archive| - 1]).Complete())
      ensures !isNew ==>
        ok && breathCount == old(breathCount) && breathCounter == old(breathCounter) && archive == old(archive)
        && waveform == old(waveform) + [sampled] && volume == old(volume)
      ensures isNew ==>
        dpdt == 0.0
        && (|archive| > 1 ==> measured == Store(old(measured), analyze(archive[|archive| - 1])))
        && (|archive| <= 1 ==> measured == old(measured))
      ensures isNew ==>
        sensors == (if ok then HalStep(old(sensors), r, shared.iPhase, percentile) else old(sensors))
        && copySensorValues ==
             (if ok then Snapshot(measured, halSetpointIn, halSetpointEx, loopCounter, breathCount, r)
              else old(copySensorValues))
      ensures !isNew ==>
        measured == old(measured) && dpdt == old(dpdt) && sensors == old(sensors)
        && copySensorValues == old(copySensorValues)
    {
      if isNew {
        ok := StartNewBreathCycle(r);
      } else {
        ok := true;
        waveform := waveform + [sampled];
      }
    }

    /** The settings resync: the working settings and the derived timing
        are taken from the shared settings and a new snapshot is taken. */
    method Resync(r: HalReading)
      requires Valid()
      modifies this`working, this`cycleDuration, this`ePhase, this`tPeep, this`sensors, this`copySensorValues
      ensures Valid()
      ensures working == shared
      ensures sensors == HalStep(old(sensors), r, shared.iPhase, percentile)
      ensures copySensorValues == Snapshot(measured, halSetpointIn, halSetpointEx, loopCounter, breathCount, r)
    {
      ControlsFromCopy();
      SensorToCopy(r);
    }

    /** The acting half of an iteration: command the valves and, when the
        countdown has run out, resync the settings and take a snapshot. */
    method Actuate(updateCopies: nat, resyncSample: HalReading) returns (resync: bool, nextUpdate: nat)
      requires Valid()
      modifies this`currentSettingIn, this`currentSettingEx, this`halSetpointIn, this`halSetpointEx, this`halWrites,
               this`working, this`cycleDuration, this`ePhase, this`tPeep, this`sensors, this`copySensorValues
      ensures Valid()
      ensures resync <==> updateCopies == 0
      ensures nextUpdate == if updateCopies == 0 then prefs.loopsUntilUpdate else updateCopies - 1
      ensures currentSettingIn == InletCommand(controlIn) as real && currentSettingEx == controlOut
      ensures halWrites == old(halWrites) + ValveWrites(old(currentSettingIn), old(currentSettingEx), controlIn, controlOut)
      ensures resync ==> working == shared
      ensures resync ==> copySensorValues == Snapshot(measured, halSetpointIn, halSetpointEx, loopCounter, breathCount, resyncSample)
      ensures resync ==> sensors == HalStep(old(sensors), resyncSample, shared.iPhase, percentile)
      ensures !resync ==> working == old(working) && sensors == old(sensors) && copySensorValues == old(copySensorValues)
    {
      SetHal(controlIn, controlOut);
      if updateCopies == 0 {
        Resync(resyncSample);
        resync, nextUpdate := true, prefs.loopsUntilUpdate;
      } else {
        resync, nextUpdate := false, updateCopies - 1;
      }
    }

    /** The valve command and the resync, skipped when the breath analysis
        raised. */
    method ActuateUnlessRaised(ok: bool, updateCopies: nat, resyncSample: HalReading)
      returns (resync: bool, nextUpdate: nat)
      requires Valid()
      modifies this`currentSettingIn, this`currentSettingEx, this`halSetpointIn, this`halSetpointEx, this`halWrites,
               this`working, this`cycleDuration, this`ePhase, this`tPeep, this`sensors, this`copySensorValues
      ensures Valid()
      ensures resync <==> ok && updateCopies == 0
      ensures ok ==> nextUpdate == if updateCopies == 0 then prefs.loopsUntilUpdate else updateCopies - 1
      ensures ok ==> currentSettingIn == InletCommand(controlIn) as real && currentSettingEx == controlOut
      ensures halWrites == if ok then old(halWrites) + ValveWrites(old(currentSettingIn), old(currentSettingEx), controlIn, controlOut)
                           else old(halWrites)
      ensures working == if resync then shared else old(working)
      ensures sensors == if resync then HalStep(old(sensors), resyncSample, shared.iPhase, percentile) else old(sensors)
      ensures copySensorValues ==
        if resync then Snapshot(measured, halSetpointIn, halSetpointEx, loopCounter, breathCount, resyncSample)
        else old(copySensorValues)
      ensures !resync ==> halSetpointIn == currentSettingIn && halSetpointEx == currentSettingEx
    {
      resync, nextUpdate := false, updateCopies;
      if ok {
        resync, nextUpdate := Actuate(updateCopies, resyncSample);
      }
    }

    /** The second half of an iteration: the breath bookkeeping and, unless
        the breath analysis raised (which ends the loop at once), the valve
        command and, when the countdown has run out, the resync. */
    method RecordAndActuate(isNew: bool, sampled: Row, breathSample: HalReading, updateCopies: nat,
                            resyncSample: HalReading)
      returns (ok: bool, resync: bool, nextUpdate: nat)
      requires Valid()
      modifies this`volume, this`dpdt, this`breathCount, this`breathCounter, this`archive, this`waveform,
               this`measured, this`sensors, this`copySensorValues,
               this`currentSettingIn, this`currentSettingEx, this`halSetpointIn, this`halSetpointEx, this`halWrites,
               this`working, this`cycleDuration, this`ePhase, this`tPeep
      ensures Valid()
      ensures isNew ==>
        breathCount == old(breathCounter) && breathCounter == old(breathCounter) + 1
        && volume == 0.0 && waveform == [Row(0.0, old(sensors).pressure, 0.0)]
        && archive == if |old(waveform)| > 1 then BoundedAppend(old(archive), old(waveform), prefs.ringbufferSize)
                      else old(archive)
      ensures isNew ==> (ok <==> |archive| <= 1 || analyze(archive[|archive| - 1]).Complete())
      ensures !isNew ==>
        ok && breathCount == old(breathCount) && breathCounter == old(breathCounter) && archive == old(archive)
        && waveform == old(waveform) + [sampled] && volume == old(volume)
      ensures !ok ==> !resync && halWrites == old(halWrites) && working == old(working)
      ensures ok ==> (resync <==> updateCopies == 0)
      ensures ok ==> nextUpdate == if updateCopies == 0 then prefs.loopsUntilUpdate else updateCopies - 1
      ensures ok ==> currentSettingIn == InletCommand(controlIn) as real && currentSettingEx == controlOut
      ensures ok ==> halWrites == old(halWrites) + ValveWrites(old(currentSettingIn), old(currentSettingEx), controlIn, controlOut)
      ensures working == if ok && resync then shared else old(working)
      ensures isNew ==>
        dpdt == 0.0
        && (|archive| > 1 ==> measured == Store(old(measured), analyze(archive[|archive| - 1])))
        && (|archive| <= 1 ==> measured == old(measured))
      ensures !isNew ==> measured == old(measured) && dpdt == old(dpdt)
      ensures var recorded := if isNew && ok then HalStep(old(sensors), breathSample, shared.iPhase, percentile)
                              else old(sensors);
        sensors == if ok && resync then HalStep(recorded, resyncSample, shared.iPhase, percentile) else recorded
      ensures ok && resync ==>
        copySensorValues == Snapshot(measured, halSetpointIn, halSetpointEx, loopCounter, breathCount, resyncSample)
      ensures !(ok && resync) ==>
        copySensorValues == if isNew && ok then
                              Snapshot(measured, old(halSetpointIn), old(halSetpointEx), loopCounter, breathCount, breathSample)
                            else old(copySensorValues)
    {
      ok := Record(isNew, sampled, breathSample);
      resync, nextUpdate := ActuateUnlessRaised(ok, updateCopies, resyncSample);
    }

    /** The second half of an iteration, as the loop sees it: the breath
        counter, the raise and the countdown. */
    method FinishIteration(isNew: bool, sampled: Row, breathSample: HalReading, updateCopies: nat,
                           resyncSample: HalReading)
      returns (ok: bool, resync: bool, nextUpdate: nat)
      requires Valid()
      modifies this`volume, this`dpdt, this`breathCount, this`breathCounter, this`archive, this`waveform,
               this`measured, this`sensors, this`copySensorValues,
               this`currentSettingIn, this`currentSettingEx, this`halSetpointIn, this`halSetpointEx, this`halWrites,
               this`working, this`cycleDuration, this`ePhase, this`tPeep
      ensures Valid()
      ensures isNew ==>
        breathCounter == old(breathCounter) + 1 && (ok <==> |archive| <= 1 || analyze(archive[|archive| - 1]).Complete())
      ensures !isNew ==> ok && breathCounter == old(breathCounter)
      ensures ok ==> (resync <==> updateCopies == 0)
      ensures ok ==> nextUpdate == if updateCopies == 0 then prefs.loopsUntilUpdate else updateCopies - 1
      ensures ok && resync ==> working == shared
      ensures isNew ==>
        volume == 0.0 && waveform == [Row(0.0, old(sensors).pressure, 0.0)]
        && archive == if |old(waveform)| > 1 then BoundedAppend(old(archive), old(waveform), prefs.ringbufferSize)
                      else old(archive)
      ensures !isNew ==> waveform == old(waveform) + [sampled] && archive == old(archive) && volume == old(volume)
    {
      ok, resync, nextUpdate := RecordAndActuate(isNew, sampled, breathSample, updateCopies, resyncSample);
    }

    /** One iteration of the control loop, entered with the phase of the
        previous iteration (None on the first) and the resync countdown:
        sample and test, then the breath bookkeeping and, unless the breath
        analysis raised, the valve command and the resync. */
    method LoopIteration(inp: LoopInput, cyclePhase: Option<real>, updateCopies: nat)
      returns (ok: bool, resync: bool, nextUpdate: nat)
      requires Valid()
      modifies this
      ensures Valid()
      ensures shared == old(shared) && loopCounter == old(loopCounter) + 1
      ensures IsNewBreath(cyclePhase, inp.phase) ==>
        breathCounter == old(breathCounter) + 1 && (ok <==> |archive| <= 1 || analyze(archive[|archive| - 1]).Complete())
      ensures !IsNewBreath(cyclePhase, inp.phase) ==> ok && breathCounter == old(breathCounter)
      ensures ok ==> (resync <==> updateCopies == 0)
      ensures ok ==> nextUpdate == if updateCopies == 0 then prefs.loopsUntilUpdate else updateCopies - 1
      ensures ok && resync ==> working == shared
      ensures var t := HalStep(old(sensors), inp.sample, shared.iPhase, percentile);
        IsNewBreath(cyclePhase, inp.phase) ==>
          volume == 0.0 && waveform == [Row(0.0, Mean(t.pressureList), 0.0)]
          && archive == if |old(waveform)| > 1 then BoundedAppend(old(archive), old(waveform), prefs.ringbufferSize)
                        else old(archive)
      ensures !IsNewBreath(cyclePhase, inp.phase) ==> archive == old(archive)
      ensures !IsNewBreath(cyclePhase, inp.phase) ==>
        var t := HalStep(old(sensors), inp.sample, shared.iPhase, percentile);
        var dt := if inp.dt > defaults.bpm / 4.0 then prefs.loopUpdateTime else inp.dt;
        volume == Integrate(old(volume), dt, t.qOut)
        && waveform == old(waveform) + [Row(cyclePhase.value, Mean(t.pressureList), volume)]
    {
      var _ := SampleAndTest(inp);
      var sampled := Row(if cyclePhase.Some? then cyclePhase.value else 0.0, sensors.pressure, volume);
      ok, resync, nextUpdate :=
        FinishIteration(IsNewBreath(cyclePhase, inp.phase), sampled, inp.breathSample, updateCopies, inp.resyncSample);
    }

    /** The exit path of the loop: a last resync and snapshot, then the
        valves on standby. */
    method Shutdown(r: HalReading)
      requires Valid()
      modifies this`working, this`cycleDuration, this`ePhase, this`tPeep, this`sensors, this`copySensorValues,
               this`currentSettingIn, this`currentSettingEx, this`halSetpointIn, this`halSetpointEx, this`halWrites
      ensures Valid()
      ensures working == shared
      ensures copySensorValues ==
        Snapshot(measured, old(halSetpointIn), old(halSetpointEx), loopCounter, breathCount, r)
      ensures sensors == HalStep(old(sensors), r, shared.iPhase, percentile)
      ensures currentSettingIn == 0.0 && currentSettingEx == 1.0
      ensures halWrites == old(halWrites) + ValveWrites(old(currentSettingIn), old(currentSettingEx), 0.0, 1.0)
    {
      Resync(r);
      SetValvesStandby();
    }

    /** The iterations of the control loop, one per input while the running
        flag is set. The loop stops early when a breath analysis raises. The
        breath counter grows by one for each iteration whose phase starts a
        breath, and the settings are resynced every loopsUntilUpdate + 1
        iterations, the first time after loopsUntilUpdate + 1. */
    method RunIterations(inputs: seq<LoopInput>) returns (iterations: nat, crashed: bool, ghost resyncs: nat)
      requires Valid()
      modifies this
      ensures Valid()
      ensures shared == old(shared)
      ensures iterations <= |inputs| && loopCounter == old(loopCounter) + iterations
      ensures breathCounter == old(breathCounter) + |BreathStarts(None, InputPhases(inputs[..iterations]))|
      ensures crashed ==> iterations > 0 && |archive| > 1 && !analyze(archive[|archive| - 1]).Complete()
      ensures !crashed ==> iterations == |inputs| && resyncs == |inputs| / (prefs.loopsUntilUpdate + 1)
    {
      var updateCopies := prefs.loopsUntilUpdate;
      var cyclePhase: Option<real> := None;
      iterations, crashed, resyncs := 0, false, 0;
      while iterations < |inputs| && !crashed
        invariant Valid()
        invariant shared == old(shared)
        invariant iterations <= |inputs| && loopCounter == old(loopCounter) + iterations
        invariant breathCounter == old(breathCounter) + |BreathStarts(None, InputPhases(inputs[..iterations]))|
        invariant crashed ==> iterations > 0 && |archive| > 1 && !analyze(archive[|archive| - 1]).Complete()
        invariant !crashed ==> cyclePhase == if iterations == 0 then None else Some(inputs[iterations - 1].phase)
        invariant !crashed ==> updateCopies == CountdownAfter(iterations, prefs.loopsUntilUpdate)
        invariant !crashed ==> resyncs == ResyncsAfter(iterations, prefs.loopsUntilUpdate)
        decreases |inputs| - iterations
      {
        var inp := inputs[iterations];
        var ok, resync, next := LoopIteration(inp, cyclePhase, updateCopies);
        BreathStartsStep(inputs, iterations);
        iterations := iterations + 1;
        if ok {
          cyclePhase := Some(inp.phase);
          if resync {
            resyncs := resyncs + 1;
          }
          updateCopies := next;
        } else {
          crashed := true;
        }
      }
      if !crashed {
        CountdownClosedForm(|inputs|, prefs.loopsUntilUpdate);
      }
    }

    /** The control loop, run over the iterations for which the running
        flag is set. It stops early when a breath analysis raises; otherwise,
        after the last iteration, it resyncs the settings, takes a final
        snapshot and puts the valves on standby. */
    method MainLoop(inputs: seq<LoopInput>, final: HalReading) returns (iterations: nat, crashed: bool, ghost resyncs: nat)
      requires Valid()
      modifies this
      ensures Valid()
      ensures shared == old(shared)
      ensures iterations <= |inputs| && loopCounter == old(loopCounter) + iterations
      ensures breathCounter == old(breathCounter) + |BreathStarts(None, InputPhases(inputs[..iterations]))|
      ensures crashed ==> iterations > 0 && |archive| > 1 && !analyze(archive[|archive| - 1]).Complete()
      ensures !crashed ==> iterations == |inputs| && resyncs == |inputs| / (prefs.loopsUntilUpdate + 1)
      ensures !crashed ==> working == shared && currentSettingIn == 0.0 && currentSettingEx == 1.0
      ensures !crashed ==>
        copySensorValues.pressure == final.pressure && copySensorValues.timestamp == final.time
        && copySensorValues.loopCounter == loopCounter && copySensorValues.breathCount == breathCount
        && copySensorValues.pip == measured.pip && copySensorValues.peep == measured.peep
        && copySensorValues.vte == measured.vte && copySensorValues.breathsPerMinute == measured.bpm
        && copySensorValues.inspirationTimeSec == measured.iPhase
    {
      iterations, crashed, resyncs := RunIterations(inputs);
      if !crashed {
        Shutdown(final);
      }
    }
  }
}
