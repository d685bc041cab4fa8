// The valve command mapper: the inlet command is truncated and clamped to
// [0, 100]; each valve is written only when the command differs from the
// cached setting.

module Valves {

  /** Python's int() on a float: truncation toward zero. */
  function Trunc(x: real): (n: int)
    ensures 0.0 <= x ==> 0 <= n && n as real <= x < n as real + 1.0
    ensures x < 0.0 ==> n <= 0 && n as real - 1.0 < x <= n as real
  {
    if x >= 0.0 then x.Floor else -((-x).Floor)
  }

  /** max(min(100, int(v)), 0), the inlet setpoint for a requested opening. */
  function InletCommand(v: real): (c: int)
    ensures 0 <= c <= 100
    ensures 0 <= Trunc(v) <= 100 ==> c == Trunc(v)
    ensures Trunc(v) > 100 ==> c == 100
    ensures Trunc(v) < 0 ==> c == 0
  {
    var t := Trunc(v);
    var upper := if 100 < t then 100 else t;
    if upper > 0 then upper else 0
  }

  /** Commands in [0, 100] are integers that reach the valve unchanged. */
  lemma InletCommandOfWhole(n: int)
    requires 0 <= n <= 100
    ensures InletCommand(n as real) == n
  {
  }

  /** A larger request never opens the inlet less. */
  lemma InletCommandMonotone(v: real, w: real)
    requires v <= w
    ensures InletCommand(v) <= InletCommand(w)
  {
  }

  /** One write to the hardware setpoints. */
  datatype ValveWrite = InletSetpoint(opening: int) | OutletSetpoint(setting: real)

  /** The writes `_set_HAL` sends for the cached settings and a request: the
      inlet command when it differs from the inlet cache, then the outlet
      request when it differs from the outlet cache. */
  function ValveWrites(cacheIn: real, cacheEx: real, valveIn: real, valveOut: real): (r: seq<ValveWrite>)
    ensures InletSetpoint(InletCommand(valveIn)) in r <==> cacheIn != InletCommand(valveIn) as real
    ensures OutletSetpoint(valveOut) in r <==> cacheEx != valveOut
    ensures forall w :: w in r ==> w == InletSetpoint(InletCommand(valveIn)) || w == OutletSetpoint(valveOut)
    ensures |r| <= 2
    ensures |r| == 2 ==> r[0].InletSetpoint? && r[1].OutletSetpoint?
  {
    var c := InletCommand(valveIn);
    (if cacheIn != c as real then [InletSetpoint(c)] else [])
    + (if cacheEx != valveOut then [OutletSetpoint(valveOut)] else [])
  }

  /** Once the caches hold a request, repeating it writes nothing. */
  lemma RepeatWritesNothing(valveIn: real, valveOut: real)
    ensures ValveWrites(InletCommand(valveIn) as real, valveOut, valveIn, valveOut) == []
  {
  }
}
