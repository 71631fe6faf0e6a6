/** The gesture filter: the calibration baseline, the exponential smoothing of
    the deviation from it, and the Steady and Shake verdicts. Acceleration is
    modelled on `real`; the square root of the deviation's length is supplied
    from outside. */
module Gesture {
  import opened Options

  const SteadyThreshold: real := 0.4
  /** How long, in milliseconds, the smoothed deviation must stay below
      `SteadyThreshold` for STEADY to succeed. */
  const SteadyHoldMs: int := 600
  const ShakeThreshold: real := 6.0
  const FilterAlpha: real := 0.4
  /** The number of readings `calibrate_baseline` averages. */
  const CalibrationSamples: nat := 20

  datatype Vec3 = Vec3(x: real, y: real, z: real)

  /** The baseline before the first calibration. */
  const RestBaseline: Vec3 := Vec3(0.0, 0.0, 9.8)

  function Min(a: real, b: real): real { if a <= b then a else b }
  function Max(a: real, b: real): real { if a <= b then b else a }

  /** One step of the first-order low-pass filter `α·raw + (1−α)·prev`: the
      new value lies between the new reading and the previous value and moves
      from the previous value towards the reading. */
  function Ema(raw: real, prev: real): (f: real)
    ensures Min(raw, prev) <= f <= Max(raw, prev)
    ensures f - prev == FilterAlpha * (raw - prev)
  {
    FilterAlpha * raw + (1.0 - FilterAlpha) * prev
  }

  /** The squared length of `a - b`. */
  function SqDist(a: Vec3, b: Vec3): real {
    (a.x - b.x) * (a.x - b.x) + (a.y - b.y) * (a.y - b.y) + (a.z - b.z) * (a.z - b.z)
  }

  /** `raw` is the length of the deviation of `accel` from `baseline`, the
      value `math.sqrt` returns. */
  predicate IsDeviation(raw: real, accel: Vec3, baseline: Vec3) {
    raw >= 0.0 && raw * raw == SqDist(accel, baseline)
  }

  function Add(a: Vec3, b: Vec3): Vec3 { Vec3(a.x + b.x, a.y + b.y, a.z + b.z) }

  /** The component-wise sum of the readings. */
  function Sum(s: seq<Vec3>): Vec3 {
    if |s| == 0 then Vec3(0.0, 0.0, 0.0) else Add(Sum(s[..|s| - 1]), s[|s| - 1])
  }

  /** The component-wise average of the readings. */
  function Mean(s: seq<Vec3>): Vec3
    requires |s| > 0
  {
    var t := Sum(s);
    var n := |s| as real;
    Vec3(t.x / n, t.y / n, t.z / n)
  }

  /** `calibrate_baseline`: the average of the readings taken while the device
      is presumed stationary. */
  method CalibrateBaseline(samples: seq<Vec3>) returns (b: Vec3)
    requires |samples| > 0
    ensures b == Mean(samples)
  {
    var sx, sy, sz := 0.0, 0.0, 0.0;
    var i := 0;
    while i < |samples|
      invariant 0 <= i <= |samples|
      invariant Vec3(sx, sy, sz) == Sum(samples[..i])
    {
      assert samples[..i + 1][..i] == samples[..i];
      sx := sx + samples[i].x;
      sy := sy + samples[i].y;
      sz := sz + samples[i].z;
      i := i + 1;
    }
    assert samples[..i] == samples;
    var n := |samples| as real;
    b := Vec3(sx / n, sy / n, sz / n);
  }

  lemma {:induction false} SumOfConstant(s: seq<Vec3>, v: Vec3)
    requires forall i :: 0 <= i < |s| ==> s[i] == v
    ensures Sum(s) == Vec3(|s| as real * v.x, |s| as real * v.y, |s| as real * v.z)
  {
    if |s| > 0 {
      SumOfConstant(s[..|s| - 1], v);
      var n := (|s| - 1) as real;
      assert n * v.x + v.x == (n + 1.0) * v.x;
      assert n * v.y + v.y == (n + 1.0) * v.y;
      assert n * v.z + v.z == (n + 1.0) * v.z;
    }
  }

  /** A device that reads the same acceleration on every sample takes that
      acceleration as its baseline. */
  lemma MeanOfStationary(s: seq<Vec3>, v: Vec3)
    requires |s| > 0 && forall i :: 0 <= i < |s| ==> s[i] == v
    ensures Mean(s) == v
  {
    SumOfConstant(s, v);
    var n := |s| as real;
    assert (n * v.x) / n == v.x;
    assert (n * v.y) / n == v.y;
    assert (n * v.z) / n == v.z;
  }

  /** The STEADY verdict of one tick and the hold timer after it. */
  datatype SteadyResult = SteadyResult(success: bool, start: Option<int>)

  /** One STEADY tick: below the threshold the hold timer starts (if unset) and
      the command succeeds once it has run for `SteadyHoldMs`; at or above the
      threshold the timer is cleared. */
  function SteadyStep(start: Option<int>, now: int, filtered: real): SteadyResult {
    if filtered < SteadyThreshold then
      var t := if start.None? then now else start.value;
      SteadyResult(now - t >= SteadyHoldMs, Some(t))
    else SteadyResult(false, None)
  }

  /** The SHAKE verdict of one tick: a single reading above the threshold. */
  predicate ShakeDetected(filtered: real) {
    filtered > ShakeThreshold
  }

  /** One STEADY tick's time and smoothed deviation. */
  datatype Reading = Reading(now: int, filtered: real)

  /** The hold timer after a run of STEADY ticks that began with the timer unset. */
  function SteadyTimer(trace: seq<Reading>): Option<int> {
    if |trace| == 0 then None
    else
      var r := trace[|trace| - 1];
      SteadyStep(SteadyTimer(trace[..|trace| - 1]), r.now, r.filtered).start
  }

  /** Tick `k` starts the final run of below-threshold readings of `trace`. */
  predicate HoldFrom(trace: seq<Reading>, k: int) {
    && 0 <= k < |trace|
    && (k == 0 || trace[k - 1].filtered >= SteadyThreshold)
    && forall j :: k <= j < |trace| ==> trace[j].filtered < SteadyThreshold
  }

  /** A set hold timer holds the time of the tick that started the final run
      of below-threshold readings. */
  lemma {:induction false} TimerIsHoldStart(trace: seq<Reading>)
    ensures SteadyTimer(trace).Some? ==>
              exists k :: HoldFrom(trace, k) && trace[k].now == SteadyTimer(trace).value
  {
    if |trace| > 0 {
      var p := trace[..|trace| - 1];
      var r := trace[|trace| - 1];
      TimerIsHoldStart(p);
      if r.filtered < SteadyThreshold {
        if SteadyTimer(p).None? {
          if |p| > 0 {
            assert p[|p| - 1].filtered >= SteadyThreshold;
          }
          assert HoldFrom(trace, |p|);
        } else {
          var k :| HoldFrom(p, k) && p[k].now == SteadyTimer(p).value;
          assert HoldFrom(trace, k);
        }
      }
    }
  }

  /** Once the readings have stayed below the threshold since tick `k` (and
      were not below it just before), the hold timer holds that tick's time. */
  lemma {:induction false} HoldStartSetsTimer(trace: seq<Reading>, k: int)
    requires HoldFrom(trace, k)
    ensures SteadyTimer(trace) == Some(trace[k].now)
  {
    var p := trace[..|trace| - 1];
    if k == |trace| - 1 {
      if |p| > 0 {
        assert p[|p| - 1].filtered >= SteadyThreshold;
      }
      assert SteadyTimer(p).None?;
    } else {
      assert HoldFrom(p, k);
      HoldStartSetsTimer(p, k);
    }
  }

  /** The Steady verdict: a STEADY tick succeeds exactly when its reading and
      every reading since some tick `k` are below the threshold, and at least
      `SteadyHoldMs` have passed since tick `k`. Any reading at or above the
      threshold in between restarts the count. */
  lemma SteadyVerdict(trace: seq<Reading>, r: Reading)
    ensures SteadyStep(SteadyTimer(trace), r.now, r.filtered).success <==>
              r.filtered < SteadyThreshold &&
              exists k :: HoldFrom(trace, k) && r.now - trace[k].now >= SteadyHoldMs
  {
    TimerIsHoldStart(trace);
    if exists k :: HoldFrom(trace, k) && r.now - trace[k].now >= SteadyHoldMs {
      var k :| HoldFrom(trace, k) && r.now - trace[k].now >= SteadyHoldMs;
      HoldStartSetsTimer(trace, k);
    }
  }
}
