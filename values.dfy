// Value types shared by the controller: the setting names, the pair of
// six-setting records (shared and working copy), control settings as the
// coordinator sends them, measured metrics and the sensor snapshot.

module Values {

  datatype Option<+T> = None | Some(value: T)

  /** The value names the controller is asked about. The first six are the
      control settings; the last four are sensor names that have no setting. */
  datatype ValueName =
    | Pip | PipTime | Peep | PeepTime | BreathsPerMinute | InspirationTimeSec
    | FiO2 | Pressure | Vte | FlowOut

  /** The six names `set_control` and `get_control` know. */
  predicate IsControlName(n: ValueName) {
    n.Pip? || n.PipTime? || n.Peep? || n.PeepTime? || n.BreathsPerMinute? || n.InspirationTimeSec?
  }

  /** A setting as the coordinator sends it. `value` and `maxValue` may be
      absent (None in the source). */
  datatype ControlSetting = ControlSetting(
    name: ValueName,
    value: Option<real>,
    minValue: Option<real>,
    maxValue: Option<real>)

  /** The six control settings, one field per name. The controller holds two
      of these: the shared copy (COPY_SET_*) and the working copy (__SET_*). */
  datatype Settings = Settings(
    pip: real, pipTime: real, peep: real, peepTime: real, bpm: real, iPhase: real)
  {
    /** The value stored under `name`; None for a name that is not a setting. */
    function Get(name: ValueName): (r: Option<real>)
      ensures r.Some? <==> IsControlName(name)
    {
      match name
      case Pip => Some(pip)
      case PipTime => Some(pipTime)
      case Peep => Some(peep)
      case PeepTime => Some(peepTime)
      case BreathsPerMinute => Some(bpm)
      case InspirationTimeSec => Some(iPhase)
      case _ => None
    }

    /** These settings with the one under `name` replaced by `v`; a name that
        is not a setting leaves them as they are. */
    function Set(name: ValueName, v: real): (r: Settings)
      ensures !IsControlName(name) ==> r == this
    {
      match name
      case Pip => this.(pip := v)
      case PipTime => this.(pipTime := v)
      case Peep => this.(peep := v)
      case PeepTime => this.(peepTime := v)
      case BreathsPerMinute => this.(bpm := v)
      case InspirationTimeSec => this.(iPhase := v)
      case _ => this
    }
  }

  /** Reading back a setting just written gives the written value. */
  lemma SetThenGet(s: Settings, name: ValueName, v: real)
    requires IsControlName(name)
    ensures s.Set(name, v).Get(name) == Some(v)
  {
  }

  /** Writing one setting leaves every other name as it was. */
  lemma SetLeavesOthers(s: Settings, name: ValueName, other: ValueName, v: real)
    requires other != name
    ensures s.Set(name, v).Get(other) == s.Get(other)
  {
  }

  /** Two records that agree on every setting name are equal. */
  lemma {:induction false} SettingsExtensional(s: Settings, t: Settings)
    requires forall n :: IsControlName(n) ==> s.Get(n) == t.Get(n)
    ensures s == t
  {
    assert s.Get(Pip) == t.Get(Pip);
    assert s.Get(PipTime) == t.Get(PipTime);
    assert s.Get(Peep) == t.Get(Peep);
    assert s.Get(PeepTime) == t.Get(PeepTime);
    assert s.Get(BreathsPerMinute) == t.Get(BreathsPerMinute);
    assert s.Get(InspirationTimeSec) == t.Get(InspirationTimeSec);
  }

  /** Duration of one breath cycle for a breath rate: 60 / bpm, and the fixed
      fallback 20 when the division raises (bpm is zero). */
  function CycleDuration(bpm: real): (d: real)
    ensures bpm != 0.0 ==> d * bpm == 60.0
    ensures bpm == 0.0 ==> d == 20.0
  {
    if bpm == 0.0 then 20.0 else 60.0 / bpm
  }

  /** A measured quantity: not measured yet (None in the source), a number,
      or a non-finite number (NaN or infinity). */
  datatype Metric = Absent | Value(v: real) | NonFinite

  /** The sensor snapshot published to the coordinator. */
  datatype SensorValues = SensorValues(
    pip: Metric,
    peep: Metric,
    fio2: real,
    pressure: real,
    vte: Metric,
    breathsPerMinute: Metric,
    inspirationTimeSec: Metric,
    flowOut: real,
    timestamp: real,
    loopCounter: nat,
    breathCount: nat)
}
