/**
 Copter's get_surface_tracking_climb_rate: holding a distance above the ground with a rangefinder,
 and rejecting glitches of its readings until three in a row agree.
 */
module SurfaceTracking {
  import opened ArduMath

  const TIMEOUT_MS := 1000
  const GLITCH_ALT_CM := 200
  const GLITCH_NUM_SAMPLES := 3
  const VELZ_MAX: real := 150.0

  datatype State = State(target: real, glitchCount: int, lastCall: nat)

  /** One call: the reading, the pilot's rate and the vehicle's altitudes and motor limits. */
  datatype Ping = Ping(
    time: nat, altCm: int, targetRate: int, altTarget: real, alt: real, dt: real,
    lowerLimit: bool, upperLimit: bool, gain: real)

  /** The target after the timeout reset and the pilot's change, before the reading is judged. */
  function CarriedTarget(s: State, p: Ping): real {
    var base :=
      if Elapsed(Clock(p.time), s.lastCall) > TIMEOUT_MS then (p.altCm as real) + p.altTarget - p.alt else s.target;
    if (p.targetRate < 0 && !p.lowerLimit) || (p.targetRate > 0 && !p.upperLimit)
    then base + PilotChange(p) else base
  }

  function PilotChange(p: Ping): real {
    (p.targetRate as real) * p.dt
  }

  /** +1 or -1 for a reading too far above or below the target, 0 for one that fits. */
  function Direction(s: State, p: Ping): (d: int)
    ensures -1 <= d <= 1
  {
    var glitchCm := Truncate((p.altCm as real) - CarriedTarget(s, p));
    if glitchCm >= GLITCH_ALT_CM then 1 else if glitchCm <= -GLITCH_ALT_CM then -1 else 0
  }

  /** The count after one more reading in direction d, before a third in a row clears it. */
  function Counted(count: int, d: int): int {
    if d == 0 then 0
    else if d > 0 then (if count > 0 then count + 1 else 1)
    else (if count < 0 then count - 1 else -1)
  }

  predicate Snaps(s: State, p: Ping) {
    var count := Counted(s.glitchCount, Direction(s, p));
    count >= GLITCH_NUM_SAMPLES || count <= -GLITCH_NUM_SAMPLES
  }

  function After(s: State, p: Ping): State {
    State(if Snaps(s, p) then p.altCm as real else CarriedTarget(s, p),
          if Snaps(s, p) then 0 else Counted(s.glitchCount, Direction(s, p)),
          Clock(p.time))
  }

  function VelocityCorrection(error: real, gain: real): real {
    Constrain(error * gain, -VELZ_MAX, VELZ_MAX)
  }

  /** The rate commanded by a call that leaves the state `s`. */
  function ClimbRate(s: State, p: Ping): real {
    if s.glitchCount != 0 then p.targetRate as real
    else
      var error := (s.target - (p.altCm as real)) - (p.altTarget - p.alt);
      (p.targetRate as real) + VelocityCorrection(error, p.gain)
  }

  class SurfaceTracker {
    var targetRangefinderAlt: real
    var glitchCount: int
    var lastCallMs: nat

    function Abstract(): State
      reads this
    {
      State(targetRangefinderAlt, glitchCount, lastCallMs)
    }

    constructor ()
      ensures Abstract() == State(0.0, 0, 0)
    {
      targetRangefinderAlt, glitchCount, lastCallMs := 0.0, 0, 0;
    }

    method GetClimbRate(p: Ping) returns (rate: real)
      modifies this
      ensures Abstract() == After(old(Abstract()), p)
      ensures rate == ClimbRate(Abstract(), p)
      ensures -GLITCH_NUM_SAMPLES < glitchCount < GLITCH_NUM_SAMPLES
    {
      var now := Clock(p.time);
      if Elapsed(now, lastCallMs) > TIMEOUT_MS {
        targetRangefinderAlt := (p.altCm as real) + p.altTarget - p.alt;
      }
      lastCallMs := now;
      if (p.targetRate < 0 && !p.lowerLimit) || (p.targetRate > 0 && !p.upperLimit) {
        targetRangefinderAlt := targetRangefinderAlt + PilotChange(p);
      }
      var glitchCm := Truncate((p.altCm as real) - targetRangefinderAlt);
      if glitchCm >= GLITCH_ALT_CM {
        glitchCount := if glitchCount + 1 > 1 then glitchCount + 1 else 1;
      } else if glitchCm <= -GLITCH_ALT_CM {
        glitchCount := if glitchCount - 1 < -1 then glitchCount - 1 else -1;
      } else {
        glitchCount := 0;
      }
      if (if glitchCount < 0 then -glitchCount else glitchCount) >= GLITCH_NUM_SAMPLES {
        targetRangefinderAlt := p.altCm as real;
        glitchCount := 0;
      }
      if glitchCount != 0 {
        return p.targetRate as real;
      }
      var distanceError := (targetRangefinderAlt - (p.altCm as real)) - (p.altTarget - p.alt);
      rate := (p.targetRate as real) + VelocityCorrection(distanceError, p.gain);
      assert Abstract() == After(old(Abstract()), p);
    }
  }

  // ---- every sequence of readings -----------------------------------------------------------

  function Run(s: State, pings: seq<Ping>): State
    decreases |pings|
  {
    if pings == [] then s else After(Run(s, pings[..|pings| - 1]), pings[|pings| - 1])
  }

  /** The direction of every reading of a run. */
  function Directions(s: State, pings: seq<Ping>): (ds: seq<int>)
    ensures |ds| == |pings|
    decreases |pings|
  {
    if pings == [] then []
    else
      var before := pings[..|pings| - 1];
      Directions(s, before) + [Direction(Run(s, before), pings[|pings| - 1])]
  }

  /** How many readings, up to the last, are glitches in the same direction as the last. */
  function CurrentRun(ds: seq<int>): nat
    decreases |ds|
  {
    var n := |ds|;
    if n == 0 || ds[n - 1] == 0 then 0
    else if n >= 2 && ds[n - 2] == ds[n - 1] then 1 + CurrentRun(ds[..n - 1])
    else 1
  }

  /** CurrentRun means what it says. */
  lemma {:induction false} CurrentRunIsMaximal(ds: seq<int>)
    ensures var k, n := CurrentRun(ds), |ds|;
            && k <= n
            && (forall i :: n - k <= i < n ==> ds[i] == ds[n - 1] != 0)
            && (k < n ==> ds[n - 1] == 0 || ds[n - k - 1] != ds[n - 1])
            && (n > 0 && ds[n - 1] != 0 ==> k > 0)
    decreases |ds|
  {
    if ds == [] {
    } else {
      CurrentRunIsMaximal(ds[..|ds| - 1]);
    }
  }

  /** The length of a run, counted in threes, with the sign of its direction. */
  function InThrees(ds: seq<int>): int {
    var k := CurrentRun(ds) % 3;
    if ds == [] || ds[|ds| - 1] == 0 then 0 else if ds[|ds| - 1] > 0 then k else -k
  }

  /** One more direction moves the count as one more reading does. */
  lemma OneMoreDirection(ds: seq<int>)
    requires ds != [] && forall d :: d in ds ==> -1 <= d <= 1
    ensures var count := Counted(InThrees(ds[..|ds| - 1]), ds[|ds| - 1]);
            var third := count >= 3 || count <= -3;
            && (third <==> CurrentRun(ds) > 0 && CurrentRun(ds) % 3 == 0)
            && InThrees(ds) == if third then 0 else count
  {
    var n := |ds| - 1;
    var before := ds[..n];
    assert ds[n] in ds;
    if n > 0 {
      assert before[n - 1] == ds[n - 1] && ds[n - 1] in ds;
    }
    var again := n > 0 && ds[n] != 0 && ds[n - 1] == ds[n];
    assert CurrentRun(ds) == if ds[n] == 0 then 0 else if again then CurrentRun(before) + 1 else 1;
    if again {
      NextInThrees(CurrentRun(before));
    }
  }

  lemma NextInThrees(k: nat)
    ensures (k + 1) % 3 == if k % 3 == 2 then 0 else k % 3 + 1
  {}

  /**
   Between calls the signed count is the length of the current run of same-direction glitches,
   counted in threes, with the sign of their direction.
   */
  lemma {:induction false} CountIsRunInThrees(s: State, pings: seq<Ping>)
    requires s.glitchCount == 0
    ensures Run(s, pings).glitchCount == InThrees(Directions(s, pings))
    ensures -2 <= Run(s, pings).glitchCount <= 2
    decreases |pings|
  {
    if pings == [] {
    } else {
      var before := pings[..|pings| - 1];
      CountIsRunInThrees(s, before);
      var ds := Directions(s, pings);
      assert ds[..|ds| - 1] == Directions(s, before);
      DirectionsInRange(s, pings);
      OneMoreDirection(ds);
    }
  }

  lemma DirectionsInRange(s: State, pings: seq<Ping>)
    ensures forall d :: d in Directions(s, pings) ==> -1 <= d <= 1
    decreases |pings|
  {
    if pings != [] {
      DirectionsInRange(s, pings[..|pings| - 1]);
    }
  }

  /** The target that reading p finds: reset if the last call is over a second ago, moved by the pilot. */
  function TargetFound(previous: real, silentMs: nat, p: Ping): real {
    var engaged := if silentMs > 1000 then p.altTarget + ((p.altCm as real) - p.alt) else previous;
    if p.targetRate == 0 || (p.targetRate < 0 && p.lowerLimit) || (p.targetRate > 0 && p.upperLimit) then engaged
    else engaged + p.dt * (p.targetRate as real)
  }

  /** The milliseconds the 32-bit clock shows between the last call of a run and the next one. */
  function SilentBefore(s: State, pings: seq<Ping>, p: Ping): nat {
    if pings == [] then (p.time % 0x1_0000_0000 - s.lastCall) % 0x1_0000_0000
    else (p.time % 0x1_0000_0000 - pings[|pings| - 1].time % 0x1_0000_0000) % 0x1_0000_0000
  }

  /**
   At every point of a run the reading is judged against the target last left, reset after more than
   a second of silence and moved at the pilot's rate unless the motors have reached their limit that
   way; it is a glitch up or down from two metres of difference.
   */
  lemma ReadingsAreJudgedByTarget(s: State, pings: seq<Ping>, p: Ping)
    ensures var ds := Directions(s, pings + [p]);
            var found := TargetFound(Run(s, pings).target, SilentBefore(s, pings, p), p);
            ds[|pings|] == if (p.altCm as real) - found >= 200.0 then 1
                           else if found - (p.altCm as real) >= 200.0 then -1 else 0
  {
    var all := pings + [p];
    assert all[..|all| - 1] == pings;
    CarriedIsFound(s, pings, p);
  }

  lemma CarriedIsFound(s: State, pings: seq<Ping>, p: Ping)
    ensures CarriedTarget(Run(s, pings), p) == TargetFound(Run(s, pings).target, SilentBefore(s, pings, p), p)
  {
    assert p.dt * (p.targetRate as real) == PilotChange(p);
  }

  /** Engaging without a pilot demand asks for no correction, wherever the vehicle is. */
  lemma EngagingDoesNotMove(s: State, p: Ping)
    requires Elapsed(Clock(p.time), s.lastCall) > 1000 && p.targetRate == 0 && s.glitchCount == 0
    ensures ClimbRate(After(s, p), p) == 0.0
  {
    var after := After(s, p);
    assert after.target == (p.altCm as real) + p.altTarget - p.alt;
    CallCorrects(after, p);
  }

  /**
   The target snaps to the reading exactly when the reading completes a third glitch in a row (or a
   sixth, and so on); otherwise no reading moves the target.
   */
  lemma SnapsOnEveryThird(s: State, pings: seq<Ping>, p: Ping)
    requires s.glitchCount == 0
    ensures var k := CurrentRun(Directions(s, pings + [p]));
            Run(s, pings + [p]).target ==
            if k > 0 && k % 3 == 0 then p.altCm as real
            else TargetFound(Run(s, pings).target, SilentBefore(s, pings, p), p)
  {
    CarriedIsFound(s, pings, p);
    var all := pings + [p];
    assert all[..|all| - 1] == pings;
    CountIsRunInThrees(s, pings);
    var ds := Directions(s, all);
    assert ds[..|ds| - 1] == Directions(s, pings);
    DirectionsInRange(s, all);
    OneMoreDirection(ds);
  }

  /** A correction of `error` times `gain`, but of at most 150 cm/s. */
  predicate Corrects(correction: real, error: real, gain: real) {
    Sign(correction) == Sign(error) * Sign(gain) && Abs(correction) == Min(Abs(error * gain), 150.0)
  }

  /**
   The commanded rate is the pilot's while glitching; otherwise it corrects the error left over by
   the altitude controller, in the direction that brings the vehicle to the target.
   */
  lemma RateStaysNearPilot(s: State, pings: seq<Ping>, p: Ping)
    requires s.glitchCount == 0
    ensures var k := CurrentRun(Directions(s, pings + [p]));
            var after := Run(s, pings + [p]);
            var correction := ClimbRate(after, p) - (p.targetRate as real);
            && (k % 3 != 0 ==> correction == 0.0)
            && (k % 3 == 0 ==> Corrects(correction, (after.target - (p.altCm as real)) - (p.altTarget - p.alt), p.gain))
  {
    GlitchingIsRun(s, pings + [p]);
    CallCorrects(Run(s, pings + [p]), p);
  }

  lemma GlitchingIsRun(s: State, pings: seq<Ping>)
    requires s.glitchCount == 0
    ensures Run(s, pings).glitchCount != 0 <==> CurrentRun(Directions(s, pings)) % 3 != 0
  {
    CountIsRunInThrees(s, pings);
    DirectionsInRange(s, pings);
    CurrentRunIsMaximal(Directions(s, pings));
  }

  lemma CallCorrects(after: State, p: Ping)
    ensures var correction := ClimbRate(after, p) - (p.targetRate as real);
            if after.glitchCount != 0 then correction == 0.0
            else Corrects(correction, (after.target - (p.altCm as real)) - (p.altTarget - p.alt), p.gain)
  {
    CorrectionCorrects((after.target - (p.altCm as real)) - (p.altTarget - p.alt), p.gain);
  }

  lemma CorrectionCorrects(error: real, gain: real)
    ensures Corrects(VelocityCorrection(error, gain), error, gain)
  {
    ProductSign(error, gain);
    ClampKeepsSign(error * gain, 150.0);
  }

  lemma ClampKeepsSign(x: real, bound: real)
    requires bound > 0.0
    ensures Sign(Constrain(x, -bound, bound)) == Sign(x)
    ensures Abs(Constrain(x, -bound, bound)) == Min(Abs(x), bound)
  {}
}
