// Breath segmentation and the per-breath waveform analysis: a waveform is
// the sequence of (phase, pressure, volume) rows of one breath cycle.

module Breath {
  import opened Values
  import opened Stats

  datatype Row = Row(phase: real, pressure: real, volume: real)

  type Waveform = seq<Row>

  /** data[:, 0] */
  function Phases(w: Waveform): (r: seq<real>)
    ensures |r| == |w| && forall i :: 0 <= i < |w| ==> r[i] == w[i].phase
  {
    seq(|w|, i requires 0 <= i < |w| => w[i].phase)
  }

  /** data[:, 1] */
  function Pressures(w: Waveform): (r: seq<real>)
    ensures |r| == |w| && forall i :: 0 <= i < |w| ==> r[i] == w[i].pressure
  {
    seq(|w|, i requires 0 <= i < |w| => w[i].pressure)
  }

  /** data[:, 2] */
  function Volumes(w: Waveform): (r: seq<real>)
    ensures |r| == |w| && forall i :: 0 <= i < |w| ==> r[i] == w[i].volume
  {
    seq(|w|, i requires 0 <= i < |w| => w[i].volume)
  }

  /** The main loop's new-breath test: there is no previous phase, or the
      phase went down (wrapped to the start of the next breath). */
  predicate IsNewBreath(previous: Option<real>, current: real)
  {
    previous.None? || previous.value > current
  }

  /** The phase seen before reading i of a run that follows `previous`. */
  function PhaseBefore(previous: Option<real>, phases: seq<real>, i: int): Option<real>
    requires 0 <= i < |phases|
  {
    if i == 0 then previous else Some(phases[i - 1])
  }

  /** Reading i of a run that follows `previous` starts a new breath. */
  predicate StartsAt(previous: Option<real>, phases: seq<real>, i: int)
  {
    0 <= i < |phases| && IsNewBreath(PhaseBefore(previous, phases, i), phases[i])
  }

  /** The positions in a run of phase readings at which the main loop starts
      a new breath, the first reading following `previous`. */
  function BreathStarts(previous: Option<real>, phases: seq<real>): (r: set<int>)
    ensures forall i :: i in r <==> StartsAt(previous, phases, i)
  {
    set i | 0 <= i < |phases| && StartsAt(previous, phases, i)
  }

  /** Appending a reading leaves the breath-start test of the earlier
      readings as it was. */
  lemma StartsAtPrefix(previous: Option<real>, phases: seq<real>, p: real, i: int)
    requires 0 <= i < |phases|
    ensures StartsAt(previous, phases + [p], i) <==> StartsAt(previous, phases, i)
  {
    var ps := phases + [p];
    assert ps[i] == phases[i];
    assert PhaseBefore(previous, ps, i) == PhaseBefore(previous, phases, i);
  }

  /** One more reading adds its own position to the breath starts exactly
      when the phase before it wraps (or there is none), and nothing else
      changes. */
  lemma BreathStartsSnoc(previous: Option<real>, phases: seq<real>, p: real)
    ensures var before := if |phases| == 0 then previous else Some(phases[|phases| - 1]);
      BreathStarts(previous, phases + [p])
        == BreathStarts(previous, phases) + (if IsNewBreath(before, p) then {|phases|} else {})
  {
    var before := if |phases| == 0 then previous else Some(phases[|phases| - 1]);
    var old_, new_ := BreathStarts(previous, phases), BreathStarts(previous, phases + [p]);
    forall i | 0 <= i < |phases|
      ensures i in new_ <==> i in old_
    {
      StartsAtPrefix(previous, phases, p, i);
    }
    assert PhaseBefore(previous, phases + [p], |phases|) == before;
  }

  /** So the number of breath starts grows by one or by none with each
      reading. */
  lemma BreathStartsCount(previous: Option<real>, phases: seq<real>, p: real)
    ensures var before := if |phases| == 0 then previous else Some(phases[|phases| - 1]);
      |BreathStarts(previous, phases + [p])|
        == |BreathStarts(previous, phases)| + (if IsNewBreath(before, p) then 1 else 0)
  {
    BreathStartsSnoc(previous, phases, p);
    assert |phases| !in BreathStarts(previous, phases);
  }

  /** A rising run of phases that wraps once starts one breath at the wrap;
      the very first reading of a loop (no previous phase) also starts one. */
  lemma PhaseWrapExample()
    ensures BreathStarts(Some(0.0), [0.1, 0.3, 0.6, 0.05, 0.2]) == {3}
    ensures BreathStarts(None, [0.1, 0.3, 0.6, 0.05, 0.2]) == {0, 3}
  {
    var ps := [0.1, 0.3, 0.6, 0.05, 0.2];
    assert 3 in BreathStarts(Some(0.0), ps);
    assert 0 in BreathStarts(None, ps) && 3 in BreathStarts(None, ps);
  }

  /** The breath rate for a cycle whose last phase is given: 60 / phase, and
      a non-finite value (numpy's division by zero) when that phase is 0. */
  function Rate(lastPhase: real): (r: Metric)
    ensures r.NonFinite? <==> lastPhase == 0.0
    ensures r.Value? <==> lastPhase != 0.0
    ensures r.Value? ==> r.v * lastPhase == 60.0
  {
    if lastPhase == 0.0 then NonFinite else Value(60.0 / lastPhase)
  }

  /** What the analysis of one archived waveform produces. A field is None
      when the analysis raised before computing it; the ones before it keep
      the values computed. */
  datatype Analysis = Analysis(
    vte: real,
    peep: Option<real>,
    pipPlateau: Option<real>,
    pip: Option<real>,
    pipTime: Option<real>,
    peepTime: Option<real>,
    iPhase: Option<real>,
    bpm: Option<Metric>)
  {
    /** The analysis ran to its end without raising. */
    predicate Complete() { bpm.Some? }
  }

  /** The landmarks of one breath: VTE from the volume extremes; PEEP, the
      plateau and PIP from percentiles of the pressures below / above their
      mean; PIP_TIME and I_PHASE at the earliest and latest sample over 90 %
      of the plateau, PEEP_TIME at the earliest sample under PEEP; the breath
      rate from the last phase. A percentile of an empty selection, or
      np.min of an empty np.where, raises. `pct` is numpy's percentile. */
  function Analyze(w: Waveform, pct: PercentileFn): (a: Analysis)
    requires |w| > 0
    ensures var ps := Pressures(w); var mean := Mean(ps);
      (a.peep.Some? <==> Below(ps, mean) != [])
      && (a.pipPlateau.Some? <==> Below(ps, mean) != [] && Above(ps, mean) != [])
    ensures (a.pipPlateau.Some? ==> a.peep.Some?) && (a.pip.Some? <==> a.pipPlateau.Some?)
      && (a.pipTime.Some? ==> a.pip.Some?) && (a.peepTime.Some? ==> a.pipTime.Some?)
      && (a.iPhase.Some? <==> a.peepTime.Some?) && (a.bpm.Some? <==> a.iPhase.Some?)
  {
    var ps := Pressures(w);
    var mean := Mean(ps);
    AnalyzeLevels(w, pct, Max(Volumes(w)) - Min(Volumes(w)), Below(ps, mean), Above(ps, mean))
  }

  /** The pressure levels, from the samples below and above the mean. */
  function AnalyzeLevels(w: Waveform, pct: PercentileFn, vte: real, below: seq<real>, above: seq<real>): Analysis
    requires |w| > 0
  {
    if below == [] then
      Analysis(vte, None, None, None, None, None, None, None)
    else if above == [] then
      Analysis(vte, Some(pct(below, 20.0)), None, None, None, None, None, None)
    else
      AnalyzeTimes(w, vte, pct(below, 20.0), pct(above, 80.0), pct(above, 95.0))
  }

  /** The analysis as a total function of the waveform, for a given
      percentile: a waveform without rows yields an empty analysis (the
      archive never holds one). */
  function Analyzer(pct: PercentileFn): Waveform -> Analysis
  {
    w => if |w| > 0 then Analyze(w, pct) else Analysis(0.0, None, None, None, None, None, None, None)
  }

  /** On every waveform with a row, the analyzer is the analysis. */
  lemma AnalyzerAnalyzes(pct: PercentileFn, w: Waveform)
    requires |w| > 0
    ensures Analyzer(pct)(w) == Analyze(w, pct)
  {
  }

  /** The landmark phases, once the pressure levels are known. */
  function AnalyzeTimes(w: Waveform, vte: real, peep: real, plateau: real, pip: real): Analysis
    requires |w| > 0
  {
    var ps := Pressures(w);
    var ph := Phases(w);
    var rising := FirstAbove(ps, 0.9 * plateau);
    var falling := FirstBelow(ps, peep);
    if rising.None? then
      Analysis(vte, Some(peep), Some(plateau), Some(pip), None, None, None, None)
    else if falling.None? then
      Analysis(vte, Some(peep), Some(plateau), Some(pip), Some(ph[rising.value]), None, None, None)
    else
      var last := LastAbove(ps, 0.9 * plateau);
      FirstNotAfterLast(ps, 0.9 * plateau);
      Analysis(vte, Some(peep), Some(plateau), Some(pip), Some(ph[rising.value]),
               Some(ph[falling.value]), Some(ph[last.value]), Some(Rate(ph[|w| - 1])))
  }

  /** VTE is the spread of the volume trace, never negative. */
  lemma VteIsVolumeSpread(w: Waveform, pct: PercentileFn)
    requires |w| > 0
    ensures Analyze(w, pct).vte >= 0.0
    ensures forall i, j :: 0 <= i < |w| && 0 <= j < |w| ==> w[i].volume - w[j].volume <= Analyze(w, pct).vte
    ensures exists i, j :: 0 <= i < |w| && 0 <= j < |w| && w[i].volume - w[j].volume == Analyze(w, pct).vte
  {
    var vs := Volumes(w);
    assert forall i :: 0 <= i < |w| ==> vs[i] in vs;
    var i :| 0 <= i < |vs| && vs[i] == Max(vs);
    var j :| 0 <= j < |vs| && vs[j] == Min(vs);
    assert w[i].volume - w[j].volume == Analyze(w, pct).vte;
  }

  /** PEEP lies below the mean pressure and the plateau above it, so PEEP is
      strictly below the plateau; the plateau is not above PIP. */
  lemma {:induction false} PressureLevelsOrdered(w: Waveform, pct: PercentileFn)
    requires |w| > 0 && PercentileLike(pct)
    ensures var a := Analyze(w, pct); var mean := Mean(Pressures(w));
      (a.peep.Some? ==> a.peep.value < mean) &&
      (a.pipPlateau.Some? ==> mean < a.pipPlateau.value && a.peep.value < a.pipPlateau.value) &&
      (a.pip.Some? ==> a.pipPlateau.value <= a.pip.value)
  {
    var ps := Pressures(w);
    var mean := Mean(ps);
    var below := Below(ps, mean);
    var above := Above(ps, mean);
    if below != [] {
      assert Min(below) <= pct(below, 20.0) <= Max(below);
      assert Max(below) in below;
      if above != [] {
        assert Min(above) <= pct(above, 80.0) <= pct(above, 95.0);
        assert Min(above) in above;
      }
    }
  }

  /** With both pressure levels found, the analysis is the landmark search
      at those levels. */
  lemma AnalyzeAtLevels(w: Waveform, pct: PercentileFn)
    requires |w| > 0
    ensures var ps := Pressures(w); var mean := Mean(ps);
      var below := Below(ps, mean); var above := Above(ps, mean);
      below != [] && above != [] ==>
        Analyze(w, pct) == AnalyzeTimes(w, Analyze(w, pct).vte, pct(below, 20.0),
                                        pct(above, 80.0), pct(above, 95.0))
  {
  }

  /** Row i is the earliest whose pressure is above x. */
  ghost predicate EarliestAbove(w: Waveform, x: real, i: int)
  {
    0 <= i < |w| && w[i].pressure > x && forall j :: 0 <= j < i ==> w[j].pressure <= x
  }

  /** Row k is the latest whose pressure is above x. */
  ghost predicate LatestAbove(w: Waveform, x: real, k: int)
  {
    0 <= k < |w| && w[k].pressure > x && forall j :: k < j < |w| ==> w[j].pressure <= x
  }

  /** PIP_TIME is the phase of the earliest sample above 90 % of the plateau
      and I_PHASE the phase of the latest one, which is not earlier. */
  lemma {:induction false} InspirationLandmarks(w: Waveform, vte: real, peep: real, plateau: real, pip: real)
    requires |w| > 0
    ensures var a := AnalyzeTimes(w, vte, peep, plateau, pip);
      a.pipTime.Some? ==> (exists i :: EarliestAbove(w, 0.9 * plateau, i) && a.pipTime == Some(w[i].phase))
    ensures var a := AnalyzeTimes(w, vte, peep, plateau, pip);
      a.pipTime.None? ==> forall j :: 0 <= j < |w| ==> w[j].pressure <= 0.9 * plateau
    ensures var a := AnalyzeTimes(w, vte, peep, plateau, pip);
      a.iPhase.Some? ==> (exists i, k ::
        EarliestAbove(w, 0.9 * plateau, i) && LatestAbove(w, 0.9 * plateau, k) && i <= k
        && a.pipTime == Some(w[i].phase) && a.iPhase == Some(w[k].phase))
  {
    var a := AnalyzeTimes(w, vte, peep, plateau, pip);
    var ps, ph := Pressures(w), Phases(w);
    var x := 0.9 * plateau;
    if a.pipTime.Some? {
      var i := FirstAbove(ps, x).value;
      assert a.pipTime == Some(ph[i]) && EarliestAbove(w, x, i);
    }
    if a.iPhase.Some? {
      FirstNotAfterLast(ps, x);
      var i, k := FirstAbove(ps, x).value, LastAbove(ps, x).value;
      assert a.pipTime == Some(ph[i]) && a.iPhase == Some(ph[k]);
      assert EarliestAbove(w, x, i) && LatestAbove(w, x, k);
    }
  }

  /** PEEP_TIME is the phase of the earliest sample below PEEP; once
      PIP_TIME is found, PEEP_TIME is found exactly when some sample lies
      below PEEP. */
  lemma {:induction false} ExpirationLandmark(w: Waveform, vte: real, peep: real, plateau: real, pip: real)
    requires |w| > 0
    ensures var a := AnalyzeTimes(w, vte, peep, plateau, pip);
      a.peepTime.Some? ==> (exists i ::
        0 <= i < |w| && a.peepTime == Some(w[i].phase) && w[i].pressure < peep &&
        forall j :: 0 <= j < i ==> w[j].pressure >= peep)
    ensures var a := AnalyzeTimes(w, vte, peep, plateau, pip);
      a.pipTime.Some? ==> (a.peepTime.Some? <==> exists j :: 0 <= j < |w| && w[j].pressure < peep)
  {
    var a := AnalyzeTimes(w, vte, peep, plateau, pip);
    var ps := Pressures(w);
    if a.peepTime.Some? {
      var i := FirstBelow(ps, peep).value;
      assert a.peepTime == Some(w[i].phase);
      assert forall j :: 0 <= j < i ==> w[j].pressure >= peep;
    }
    if a.pipTime.Some? && a.peepTime.None? {
      assert FirstBelow(ps, peep).None?;
      assert forall j :: 0 <= j < |w| ==> w[j].pressure == ps[j];
    }
  }

  /** The analysis of a breath runs to its end exactly when both pressure
      selections are non-empty, some sample is over 90 % of the plateau and
      some sample is under PEEP. */
  lemma {:induction false} AnalysisCompletes(w: Waveform, pct: PercentileFn)
    requires |w| > 0
    ensures var ps := Pressures(w); var mean := Mean(ps);
      var below := Below(ps, mean); var above := Above(ps, mean);
      Analyze(w, pct).Complete() <==>
        below != [] && above != []
        && (exists i :: 0 <= i < |w| && w[i].pressure > 0.9 * pct(above, 80.0))
        && (exists j :: 0 <= j < |w| && w[j].pressure < pct(below, 20.0))
  {
    var ps := Pressures(w);
    var mean := Mean(ps);
    var below, above := Below(ps, mean), Above(ps, mean);
    AnalyzeAtLevels(w, pct);
    if below != [] && above != [] {
      var vte, peep, plateau, pip := Analyze(w, pct).vte, pct(below, 20.0), pct(above, 80.0), pct(above, 95.0);
      InspirationLandmarks(w, vte, peep, plateau, pip);
      ExpirationLandmark(w, vte, peep, plateau, pip);
    }
  }

  /** A flat pressure trace (a disconnected circuit) has no sample below its
      mean, so the first percentile already raises. */
  lemma {:induction false} FlatWaveformRaises(w: Waveform, pct: PercentileFn, c: real)
    requires |w| > 0
    requires forall i :: 0 <= i < |w| ==> w[i].pressure == c
    ensures Analyze(w, pct).peep.None? && !Analyze(w, pct).Complete()
  {
    var ps := Pressures(w);
    MeanWithin(ps, c, c);
    NoneBelow(ps, Mean(ps));
  }

  /** No sample under m leaves the selection s[s < m] empty. */
  lemma {:induction false} NoneBelow(ps: seq<real>, m: real)
    requires forall i :: 0 <= i < |ps| ==> ps[i] >= m
    ensures Below(ps, m) == []
  {
    if ps != [] {
      NoneBelow(ps[1..], m);
    }
  }

  /** When no sample lies strictly below PEEP, the search for PEEP_TIME
      raises. */
  lemma NothingBelowPeepRaises(w: Waveform, vte: real, peep: real, plateau: real, pip: real)
    requires |w| > 0
    requires forall j :: 0 <= j < |w| ==> w[j].pressure >= peep
    ensures AnalyzeTimes(w, vte, peep, plateau, pip).peepTime.None?
  {
    var ps := Pressures(w);
    assert FirstBelow(ps, peep).None?;
  }

  /** The samples below the mean, when all samples under it share one
      value, are all that value. */
  lemma BelowAllEqual(ps: seq<real>, m: real, c: real)
    requires forall i :: 0 <= i < |ps| && ps[i] < m ==> ps[i] == c
    ensures forall x :: x in Below(ps, m) ==> x == c
  {
    forall x | x in Below(ps, m)
      ensures x == c
    {
      var i :| 0 <= i < |ps| && ps[i] == x;
    }
  }

  /** When every sample below the mean has the same pressure (an ideal
      square wave, say), PEEP equals that pressure and no sample is strictly
      below PEEP: the search for PEEP_TIME raises. */
  lemma {:induction false} LevelTroughRaises(w: Waveform, pct: PercentileFn, c: real)
    requires |w| > 0 && PercentileLike(pct)
    requires forall i :: 0 <= i < |w| && w[i].pressure < Mean(Pressures(w)) ==> w[i].pressure == c
    ensures Analyze(w, pct).peepTime.None? && !Analyze(w, pct).Complete()
  {
    var ps := Pressures(w);
    var mean := Mean(ps);
    var below, above := Below(ps, mean), Above(ps, mean);
    AnalyzeAtLevels(w, pct);
    if below != [] && above != [] {
      BelowAllEqual(ps, mean, c);
      PercentileOfConstant(pct, below, 20.0, c);
      assert below[0] in below;
      assert c < mean;
      assert forall j :: 0 <= j < |w| ==> w[j].pressure >= c;
      NothingBelowPeepRaises(w, Analyze(w, pct).vte, c, pct(above, 80.0), pct(above, 95.0));
    }
  }

  /** A square wave of four samples, two at 5 and two at 20. */
  function SquareWave(): Waveform
  {
    [Row(0.0, 5.0, 0.0), Row(0.5, 20.0, 0.1), Row(1.0, 20.0, 0.2), Row(1.5, 5.0, 0.1)]
  }

  lemma SquareWaveLevels()
    ensures var ps := Pressures(SquareWave());
      ps == [5.0, 20.0, 20.0, 5.0] && Mean(ps) == 12.5 &&
      Below(ps, 12.5) == [5.0, 5.0] && Above(ps, 12.5) == [20.0, 20.0]
  {
    var ps := Pressures(SquareWave());
    assert ps == [5.0, 20.0, 20.0, 5.0];
    assert ps[1..][1..][1..][1..] == [];
    assert Sum(ps[1..][1..][1..]) == 5.0;
    assert Sum(ps[1..][1..]) == 25.0;
    assert Sum(ps[1..]) == 45.0;
    assert Sum(ps) == 50.0;
    assert Below(ps[1..][1..][1..], 12.5) == [5.0];
    assert Below(ps[1..][1..], 12.5) == [5.0];
    assert Below(ps[1..], 12.5) == [5.0];
    assert Above(ps[1..][1..][1..], 12.5) == [];
    assert Above(ps[1..][1..], 12.5) == [20.0];
    assert Above(ps[1..], 12.5) == [20.0, 20.0];
  }

  /** At the square wave's levels (PEEP 5, plateau and PIP 20) the earliest
      sample over 18 is the second one, and none is below 5. */
  lemma SquareWaveTimes(vte: real)
    ensures AnalyzeTimes(SquareWave(), vte, 5.0, 20.0, 20.0).pipTime == Some(0.5)
    ensures AnalyzeTimes(SquareWave(), vte, 5.0, 20.0, 20.0).peepTime.None?
  {
    var w := SquareWave();
    var ps := Pressures(w);
    assert ps == [5.0, 20.0, 20.0, 5.0];
    var r := FirstAbove(ps, 0.9 * 20.0);
    assert r.Some? by { assert ps[1] > 0.9 * 20.0; }
    assert r.value == 1 by { assert ps[0] <= 0.9 * 20.0; assert ps[1] > 0.9 * 20.0; }
    NothingBelowPeepRaises(w, vte, 5.0, 20.0, 20.0);
  }

  /** On the square wave the analysis sets PEEP to 5 and PIP_TIME to 0.5 and
      then raises looking for a sample below PEEP. */
  lemma SquareWaveRaises(pct: PercentileFn)
    requires PercentileLike(pct)
    ensures Analyze(SquareWave(), pct).peep == Some(5.0)
    ensures Analyze(SquareWave(), pct).pipTime == Some(0.5)
    ensures Analyze(SquareWave(), pct).peepTime.None?
  {
    var w := SquareWave();
    var ps := Pressures(w);
    SquareWaveLevels();
    SquareWavePercentiles(pct, Below(ps, Mean(ps)), Above(ps, Mean(ps)));
    AnalyzeAtLevels(w, pct);
    var vte := Analyze(w, pct).vte;
    SquareWaveTimes(vte);
  }

  lemma SquareWavePercentiles(pct: PercentileFn, below: seq<real>, above: seq<real>)
    requires PercentileLike(pct)
    requires below == [5.0, 5.0] && above == [20.0, 20.0]
    ensures pct(below, 20.0) == 5.0
    ensures pct(above, 80.0) == 20.0 && pct(above, 95.0) == 20.0
  {
    PercentileOfConstant(pct, below, 20.0, 5.0);
    PercentileOfConstant(pct, above, 80.0, 20.0);
    PercentileOfConstant(pct, above, 95.0, 20.0);
  }
}
