// Alarm values of the controller: the high-pressure alarm (HAPA), the list
// of technical alarms (TECHA), the plausibility tests on the readings and the
// shape of the alarm report handed to the coordinator.

module Alarms {
  import opened Values

  datatype AlarmType = HighPressure | SensorsStuck | BadSensorReadings | MissedHeartbeat

  datatype AlarmSeverity = High | Technical

  /** An alarm; the high-pressure alarm carries the time it was first seen
      and the pressure that raised it. */
  datatype Alarm = Alarm(
    alarmType: AlarmType,
    severity: AlarmSeverity,
    startTime: Option<real>,
    value: Option<real>)

  /** Flows above this cannot come from working hardware. */
  const LimitMaxFlows: real := 10.0
  /** Pressures above this cannot come from working hardware. */
  const LimitMaxPressure: real := 100.0
  /** Seconds a reading may stay unchanged before the sensors count as stuck. */
  const LimitMaxStuckSensor: real := 0.2
  /** The PIP target the controller falls back to on a forced release. */
  const ReleasePip: real := 30.0

  /** A technical alarm of the given type, as the alarm test raises it. */
  function TechnicalAlarm(t: AlarmType): (a: Alarm)
    ensures a.alarmType == t && a.severity == Technical
  {
    Alarm(t, Technical, None, None)
  }

  predicate HasType(alarms: seq<Alarm>, t: AlarmType)
  {
    exists i :: 0 <= i < |alarms| && alarms[i].alarmType == t
  }

  /** No alarm type occurs twice. */
  predicate Deduplicated(alarms: seq<Alarm>)
  {
    forall i, j :: 0 <= i < j < |alarms| ==> alarms[i].alarmType != alarms[j].alarmType
  }

  /** Only technical types, never the high-pressure one. */
  predicate TechnicalOnly(alarms: seq<Alarm>)
  {
    forall i :: 0 <= i < |alarms| ==> alarms[i].alarmType != HighPressure
  }

  /** The technical list after a test whose condition is `fires`: a new
      alarm of type `t` is appended only when the condition holds and no
      alarm of that type is listed yet. */
  function RaiseIf(alarms: seq<Alarm>, fires: bool, t: AlarmType): (r: seq<Alarm>)
    ensures alarms <= r && |r| <= |alarms| + 1
    ensures HasType(r, t) <==> HasType(alarms, t) || fires
    ensures forall u :: u != t ==> (HasType(r, u) <==> HasType(alarms, u))
    ensures Deduplicated(alarms) ==> Deduplicated(r)
    ensures t != HighPressure && TechnicalOnly(alarms) ==> TechnicalOnly(r)
  {
    if fires && !HasType(alarms, t) then
      var r := alarms + [TechnicalAlarm(t)];
      assert r[|alarms|].alarmType == t;
      assert forall u :: HasType(alarms, u) ==> HasType(r, u) by {
        forall u | HasType(alarms, u) ensures HasType(r, u) {
          var i :| 0 <= i < |alarms| && alarms[i].alarmType == u;
          assert r[i] == alarms[i];
        }
      }
      r
    else
      alarms
  }

  /** Raising a type a second time changes nothing. */
  lemma RaiseIdempotent(alarms: seq<Alarm>, fires: bool, t: AlarmType)
    ensures RaiseIf(RaiseIf(alarms, fires, t), fires, t) == RaiseIf(alarms, fires, t)
  {
  }

  /** A deduplicated list whose types all come from `types` is no longer
      than `types` is large. */
  lemma {:induction false} DeduplicatedBound(alarms: seq<Alarm>, types: set<AlarmType>)
    requires Deduplicated(alarms)
    requires forall i :: 0 <= i < |alarms| ==> alarms[i].alarmType in types
    ensures |alarms| <= |types|
  {
    if alarms != [] {
      var t := alarms[0].alarmType;
      forall i | 0 <= i < |alarms[1..]|
        ensures alarms[1..][i].alarmType in types - {t}
      {
        assert alarms[1..][i] == alarms[i + 1];
      }
      DeduplicatedBound(alarms[1..], types - {t});
    }
  }

  /** A deduplicated list of technical alarms holds at most one alarm per
      technical type, so at most three. */
  lemma TechnicalBound(alarms: seq<Alarm>)
    requires Deduplicated(alarms) && TechnicalOnly(alarms)
    ensures |alarms| <= 3
  {
    var technical := {SensorsStuck, BadSensorReadings, MissedHeartbeat};
    assert forall i :: 0 <= i < |alarms| ==> alarms[i].alarmType in technical;
    DeduplicatedBound(alarms, technical);
  }

  /** The three readings the stuck-sensor and plausibility tests look at. */
  datatype Readings = Readings(oxygen: real, flowOut: real, pressure: real)

  /** The stuck-sensor condition: ANY one of the three readings equals its
      value in the previous iteration. */
  predicate AnyUnchanged(previous: Readings, current: Readings)
  {
    current.oxygen == previous.oxygen || current.flowOut == previous.flowOut
    || current.pressure == previous.pressure
  }

  /** A reading outside what the hardware can produce: oxygen outside
      [0, 100], outflow outside [0, 10], pressure outside [0, 100]. */
  predicate Implausible(r: Readings)
  {
    (r.oxygen < 0.0 || r.oxygen > 100.0)
    || (r.flowOut < 0.0 || r.flowOut > LimitMaxFlows)
    || (r.pressure < 0.0 || r.pressure > LimitMaxPressure)
  }

  /** The missed-heartbeat test as the controller writes it: the last
      contact time MINUS the current time against the timeout. */
  predicate HeartbeatMissed(lastContact: real, now: real, timeout: real)
  {
    lastContact - now > timeout
  }

  /** With a non-negative timeout and a last contact that is not in the
      future, the missed-heartbeat test never fires. */
  lemma HeartbeatNeverMissed(lastContact: real, now: real, timeout: real)
    requires lastContact <= now && 0.0 <= timeout
    ensures !HeartbeatMissed(lastContact, now, timeout)
  {
  }

  /** HAPA after one high-pressure test: opened with the time and the
      pressure at the first pressure over the limit, kept unchanged while
      the pressure stays over it, cleared at the first pressure at or below
      it. */
  function HapaAfter(hapa: Option<Alarm>, pressure: real, limit: real, now: real): (r: Option<Alarm>)
    ensures pressure <= limit ==> r.None?
    ensures pressure > limit && hapa.Some? ==> r == hapa
    ensures pressure > limit && hapa.None? ==>
      r.Some? && r.value.alarmType == HighPressure && r.value.severity == High
      && r.value.startTime == Some(now) && r.value.value == Some(pressure)
  {
    if pressure <= limit then None
    else if hapa.Some? then hapa
    else Some(Alarm(HighPressure, High, Some(now), Some(pressure)))
  }

  /** The forced release is due: HAPA (as the test left it) is open and
      has lasted longer than a cough. */
  predicate ReleaseDue(hapa: Option<Alarm>, pressure: real, limit: real, now: real, coughDuration: real)
  {
    pressure > limit && hapa.Some? && hapa.value.startTime.Some?
    && now - hapa.value.startTime.value > coughDuration
  }

  /** While the pressure stays over the limit, a second test keeps the HAPA
      the first one left, start time included. */
  lemma HapaKeepsStart(hapa: Option<Alarm>, p1: real, p2: real, limit: real, t1: real, t2: real)
    requires p1 > limit && p2 > limit
    ensures var first := HapaAfter(hapa, p1, limit, t1);
      HapaAfter(first, p2, limit, t2) == first && first.Some?
      && (hapa.None? ==> first.value.startTime == Some(t1))
  {
  }

  /** The test that opens HAPA never releases at once (a cough lasts a
      non-negative time); a release needs a HAPA opened by an earlier test. */
  lemma NoReleaseAtOpening(pressure: real, limit: real, now: real, coughDuration: real)
    requires coughDuration >= 0.0
    ensures !ReleaseDue(HapaAfter(None, pressure, limit, now), pressure, limit, now, coughDuration)
  {
  }

  /** The stuck-sensor condition of one test; the first test has no
      previous readings and is never stuck. */
  predicate Stuck(previous: Option<Readings>, current: Readings)
  {
    previous.Some? && AnyUnchanged(previous.value, current)
  }

  /** The seconds the sensors have been stuck, from the moment first seen. */
  function StuckElapsed(since: Option<real>, now: real): real
  {
    if since.None? then 0.0 else now - since.value
  }

  /** The stuck timer after one test: started at the first stuck test,
      kept while the sensors stay stuck, cleared when they are not. */
  function StuckSinceAfter(previous: Option<Readings>, since: Option<real>, current: Readings, now: real): (r: Option<real>)
    ensures Stuck(previous, current) && since.Some? ==> r == since
    ensures Stuck(previous, current) && since.None? ==> r == Some(now)
    ensures !Stuck(previous, current) ==> r.None?
  {
    if !Stuck(previous, current) then None
    else if since.Some? then since
    else Some(now)
  }

  /** While the sensors stay stuck, the timer keeps the time it started at. */
  lemma StuckTimerKept(previous: Option<Readings>, since: Option<real>, r1: Readings, r2: Readings, t1: real, t2: real)
    requires Stuck(previous, r1) && Stuck(Some(r1), r2)
    ensures var first := StuckSinceAfter(previous, since, r1, t1);
      StuckSinceAfter(Some(r1), first, r2, t2) == first && first == (if since.Some? then since else Some(t1))
  {
  }

  /** The technical list after the stuck-sensor, plausibility and heartbeat
      tests, in that order. */
  function TechnicalAfter(techa: seq<Alarm>, previous: Option<Readings>, since: Option<real>, current: Readings,
                          lastContact: real, now: real, timeout: real): (r: seq<Alarm>)
    ensures techa <= r && |r| <= |techa| + 3
    ensures Deduplicated(techa) ==> Deduplicated(r)
    ensures TechnicalOnly(techa) ==> TechnicalOnly(r)
    ensures HasType(r, SensorsStuck) <==>
      HasType(techa, SensorsStuck) || (Stuck(previous, current) && StuckElapsed(since, now) > LimitMaxStuckSensor)
    ensures HasType(r, BadSensorReadings) <==> HasType(techa, BadSensorReadings) || Implausible(current)
    ensures HasType(r, MissedHeartbeat) <==>
      HasType(techa, MissedHeartbeat) || HeartbeatMissed(lastContact, now, timeout)
    ensures HasType(r, HighPressure) <==> HasType(techa, HighPressure)
  {
    var stuck := RaiseIf(techa, Stuck(previous, current) && StuckElapsed(since, now) > LimitMaxStuckSensor, SensorsStuck);
    var bad := RaiseIf(stuck, Implausible(current), BadSensorReadings);
    RaiseIf(bad, HeartbeatMissed(lastContact, now, timeout), MissedHeartbeat)
  }

  /** What the alarm test carries from one iteration to the next: HAPA,
      TECHA, the readings of the last test and the stuck timer. */
  datatype AlarmState = AlarmState(
    hapa: Option<Alarm>,
    techa: seq<Alarm>,
    previous: Option<Readings>,
    stuckSince: Option<real>)

  /** The alarm test of one iteration: high pressure, then stuck sensors,
      then implausible readings and the heartbeat, on the readings
      `current`. */
  function AlarmTest(a: AlarmState, current: Readings, limit: real, lastContact: real, now: real, timeout: real)
    : (r: AlarmState)
    ensures r.previous == Some(current)
    ensures a.techa <= r.techa
    ensures Deduplicated(a.techa) && TechnicalOnly(a.techa) ==> Deduplicated(r.techa) && TechnicalOnly(r.techa)
  {
    AlarmState(HapaAfter(a.hapa, current.pressure, limit, now),
               TechnicalAfter(a.techa, a.previous, a.stuckSince, current, lastContact, now, timeout),
               Some(current),
               StuckSinceAfter(a.previous, a.stuckSince, current, now))
  }

  /** The result of `get_alarms`: a pair, a HAPA alone, or the technical
      list alone. */
  datatype AlarmReport =
    | HapaAndTechnical(hapa: Alarm, techa: seq<Alarm>)
    | HapaOnly(hapa: Alarm)
    | TechnicalList(techa: seq<Alarm>)

  /** The report for a HAPA slot and a technical list; None when there is
      nothing to report. */
  function Report(hapa: Option<Alarm>, techa: seq<Alarm>): (r: Option<AlarmReport>)
    ensures r.None? <==> hapa.None? && |techa| == 0
    ensures r.Some? && r.value.HapaAndTechnical? <==> hapa.Some? && |techa| > 0
    ensures r.Some? && r.value.HapaOnly? <==> hapa.Some? && |techa| == 0
    ensures r.Some? && r.value.TechnicalList? <==> hapa.None? && |techa| > 0
  {
    if hapa.Some? && |techa| > 0 then Some(HapaAndTechnical(hapa.value, techa))
    else if hapa.Some? then Some(HapaOnly(hapa.value))
    else if |techa| > 0 then Some(TechnicalList(techa))
    else None
  }

  /** Every alarm a report carries, HAPA first. */
  function Reported(r: Option<AlarmReport>): seq<Alarm>
  {
    match r
    case None => []
    case Some(HapaAndTechnical(h, t)) => [h] + t
    case Some(HapaOnly(h)) => [h]
    case Some(TechnicalList(t)) => t
  }

  /** The alarms of a HAPA slot: none or one. */
  function Slot(hapa: Option<Alarm>): seq<Alarm>
  {
    if hapa.Some? then [hapa.value] else []
  }

  /** The report leaves out no alarm and adds none: it carries the HAPA, if
      any, followed by the whole technical list. */
  lemma ReportIsComplete(hapa: Option<Alarm>, techa: seq<Alarm>)
    ensures Reported(Report(hapa, techa)) == Slot(hapa) + techa
  {
  }
}
