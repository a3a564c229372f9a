/**
 How Rover slows for turns and waypoints and speeds up for the pilot: use_pivot_steering,
 calc_reduced_speed_for_turn_or_distance, calc_speed_max and calc_speed_nudge.
 */
module SpeedShaping {
  import opened ArduMath

  // ---- pivot steering -----------------------------------------------------------------------

  predicate CanPivot(haveSkid: bool, turnAngle: int) {
    haveSkid && turnAngle > 0
  }

  predicate Starts(turnAngle: int, yawErrorCd: real) {
    Abs(yawErrorCd) * 0.01 > turnAngle as real
  }

  predicate Stops(turnAngle: int, yawErrorCd: real) {
    !Starts(turnAngle, yawErrorCd) && Abs(yawErrorCd) * 0.01 < 10.0
  }

  predicate PivotAfter(haveSkid: bool, turnAngle: int, active: bool, yawErrorCd: real) {
    CanPivot(haveSkid, turnAngle) &&
    (Starts(turnAngle, yawErrorCd) || (active && !Stops(turnAngle, yawErrorCd)))
  }

  predicate PivotRun(haveSkid: bool, turnAngle: int, active: bool, errors: seq<real>) {
    if errors == [] then active
    else PivotAfter(haveSkid, turnAngle, PivotRun(haveSkid, turnAngle, active, errors[..|errors| - 1]), errors[|errors| - 1])
  }

  /** Error i, in centidegrees, passed the turn angle; none after it fell below 10 degrees. */
  ghost predicate PivotsSince(turnAngle: int, errors: seq<real>, i: nat)
    requires i < |errors|
  {
    Abs(errors[i]) > 100.0 * (turnAngle as real) &&
    forall j :: i < j < |errors| ==> Abs(errors[j]) >= 1000.0 || Abs(errors[j]) > 100.0 * (turnAngle as real)
  }

  ghost predicate StartedAndNotStopped(turnAngle: int, errors: seq<real>) {
    exists i :: 0 <= i < |errors| && PivotsSince(turnAngle, errors, i)
  }

  /** The two-threshold hysteresis, over every sequence of yaw errors. */
  lemma {:induction false} PivotHysteresis(haveSkid: bool, turnAngle: int, errors: seq<real>)
    ensures PivotRun(haveSkid, turnAngle, false, errors)
       <==> haveSkid && turnAngle > 0 && StartedAndNotStopped(turnAngle, errors)
    decreases |errors|
  {
    if errors == [] {
    } else {
      var n := |errors| - 1;
      var before := errors[..n];
      PivotHysteresis(haveSkid, turnAngle, before);
      PivotGrows(turnAngle, errors);
    }
  }

  /** One more error starts the pivot, or leaves it going. */
  lemma PivotGrows(turnAngle: int, errors: seq<real>)
    requires errors != []
    ensures var n := |errors| - 1;
            StartedAndNotStopped(turnAngle, errors) <==>
            Starts(turnAngle, errors[n]) || (StartedAndNotStopped(turnAngle, errors[..n]) && !Stops(turnAngle, errors[n]))
  {
    var n := |errors| - 1;
    var before := errors[..n];
    forall i | 0 <= i < n
      ensures PivotsSince(turnAngle, errors, i) <==> PivotsSince(turnAngle, before, i) && !Stops(turnAngle, errors[n])
    {
      assert forall j :: i <= j < n ==> before[j] == errors[j];
    }
    assert PivotsSince(turnAngle, errors, n) <==> Starts(turnAngle, errors[n]);
  }

  // ---- reduced speed ------------------------------------------------------------------------

  datatype Approach = Approach(
    yawErrorCd: real, lateralAccel: real, distance: real, turnGain: int, turnMaxG: real,
    accelMax: real, finalSpeed: real)

  function BrakingSquare(a: Approach): real {
    2.0 * a.distance * a.accelMax + a.finalSpeed * a.finalSpeed
  }

  predicate Brakes(a: Approach) {
    IsPositive(a.distance) && IsPositive(a.accelMax)
  }

  /** The heading error as a share of a right angle, and what the gain leaves of it. */
  function YawRatio(a: Approach): real {
    Constrain(Abs(a.yawErrorCd / 9000.0), 0.0, 1.0) * ((100 - a.turnGain) as real * 0.01)
  }

  /** The lateral acceleration as a share of the maximum, which is given as a multiple of gravity. */
  function AccelRatio(a: Approach): real
    requires a.turnMaxG > 0.0
  {
    Constrain(Abs(a.lateralAccel / (a.turnMaxG * 9.80665)), 0.0, 1.0)
  }

  function LateralScaling(a: Approach): real
    requires a.turnMaxG > 0.0
  {
    1.0 - AccelRatio(a) * YawRatio(a)
  }

  /** The shaped speed, given whether the vehicle pivots and the root of BrakingSquare. */
  function ReducedSpeed(a: Approach, desired: real, pivoting: bool, root: real): real
    requires a.turnMaxG > 0.0
  {
    Limited(a, TurnScaled(a, desired, pivoting), root)
  }

  function TurnScaled(a: Approach, desired: real, pivoting: bool): real
    requires a.turnMaxG > 0.0
  {
    desired * Min(LateralScaling(a), if pivoting then 0.0 else 1.0)
  }

  function Limited(a: Approach, scaled: real, root: real): real {
    if Brakes(a) then Constrain(scaled, -root, root) else scaled
  }

  /** Never faster than asked, never the other way. */
  predicate NoFaster(shaped: real, desired: real) {
    Abs(shaped) <= Abs(desired) && (Sign(shaped) == 0 || Sign(shaped) == Sign(desired))
  }

  lemma ScalingNonNegative(a: Approach)
    requires a.turnMaxG > 0.0 && 0 <= a.turnGain
    ensures 0.0 <= LateralScaling(a)
  {
    var yaw := Constrain(Abs(a.yawErrorCd / 9000.0), 0.0, 1.0);
    var gain := (100 - a.turnGain) as real * 0.01;
    var accel := Constrain(Abs(a.lateralAccel / (a.turnMaxG * 9.80665)), 0.0, 1.0);
    if gain >= 0.0 {
      UnitProduct(yaw, gain);
      UnitProduct(accel, yaw * gain);
    } else {
      var surplus := -gain;
      MulNonNegative(yaw, surplus);
      MulNonNegative(accel, yaw * surplus);
      assert accel * (yaw * surplus) == -(accel * (yaw * gain));
    }
  }

  lemma UnitProduct(x: real, y: real)
    requires 0.0 <= x <= 1.0 && 0.0 <= y <= 1.0
    ensures 0.0 <= x * y <= 1.0
  {
    var product, gap := x * y, 1.0 - x;
    MulNonNegative(x, y);
    MulNonNegative(gap, y);
    assert gap * y == y - product;
  }

  lemma ScaleDown(x: real, k: real)
    requires 0.0 <= k <= 1.0
    ensures NoFaster(x * k, x)
  {
    if x >= 0.0 {
      MulNonNegative(x, k);
      MulNonNegative(x, 1.0 - k);
      assert x * (1.0 - k) == x - x * k;
    } else {
      var m := -x;
      MulNonNegative(m, k);
      MulNonNegative(m, 1.0 - k);
      assert m * (1.0 - k) == m - m * k;
      assert m * k == -(x * k);
    }
  }

  /**
   With SPEED_TURN_GAIN not negative: no faster than asked and no change of direction, stopped while
   pivoting, and slow enough to brake at the maximum deceleration to the final speed within the
   remaining distance.
   */
  lemma ReducedSpeedIsSafe(a: Approach, desired: real, pivoting: bool, root: real)
    requires a.turnMaxG > 0.0 && 0 <= a.turnGain
    requires IsSafeSqrt(BrakingSquare(a), root)
    ensures var speed := ReducedSpeed(a, desired, pivoting, root);
            && NoFaster(speed, desired)
            && (pivoting ==> speed == 0.0)
            && (a.distance >= FLT_EPSILON && a.accelMax >= FLT_EPSILON ==>
                  speed * speed - 2.0 * a.distance * a.accelMax <= a.finalSpeed * a.finalSpeed)
  {
    ScaledIsSafe(a, desired, pivoting);
    LimitedIsSafe(a, TurnScaled(a, desired, pivoting), desired, root);
  }

  lemma ScaledIsSafe(a: Approach, desired: real, pivoting: bool)
    requires a.turnMaxG > 0.0 && 0 <= a.turnGain
    ensures NoFaster(TurnScaled(a, desired, pivoting), desired)
    ensures pivoting ==> TurnScaled(a, desired, pivoting) == 0.0
  {
    var k := Min(LateralScaling(a), if pivoting then 0.0 else 1.0);
    ScalingNonNegative(a);
    ScaleDown(desired, k);
    assert TurnScaled(a, desired, pivoting) == desired * k;
    if pivoting {
      assert k == 0.0;
    }
  }

  /** The limit for the distance, applied to a speed that is already safe otherwise. */
  lemma LimitedIsSafe(a: Approach, scaled: real, desired: real, root: real)
    requires NoFaster(scaled, desired) && IsSafeSqrt(BrakingSquare(a), root)
    ensures var speed := Limited(a, scaled, root);
            && NoFaster(speed, desired) && (scaled == 0.0 ==> speed == 0.0)
            && (a.distance >= FLT_EPSILON && a.accelMax >= FLT_EPSILON ==>
                  speed * speed - 2.0 * a.distance * a.accelMax <= a.finalSpeed * a.finalSpeed)
  {
    if Brakes(a) {
      BrakingSquareNonNegative(a);
      ClampIsSafe(scaled, desired, root);
    }
  }

  /**
   When nothing is taken off for a turn: without a distance or a deceleration the speed is as desired;
   otherwise it is as desired if that can be braked in time, and else just what can.
   */
  lemma BrakingIsExact(a: Approach, desired: real, root: real)
    requires a.turnMaxG > 0.0 && (a.yawErrorCd == 0.0 || a.lateralAccel == 0.0)
    requires IsSafeSqrt(BrakingSquare(a), root)
    ensures var speed := ReducedSpeed(a, desired, false, root);
            if a.distance < FLT_EPSILON || a.accelMax < FLT_EPSILON then speed == desired
            else if desired * desired - 2.0 * a.distance * a.accelMax <= a.finalSpeed * a.finalSpeed then speed == desired
            else speed * speed - 2.0 * a.distance * a.accelMax == a.finalSpeed * a.finalSpeed && Sign(speed) != -Sign(desired)
  {
    StraightScaling(a);
    if Brakes(a) {
      BrakingSquareNonNegative(a);
      SquareClamp(desired, root);
    }
  }

  lemma StraightScaling(a: Approach)
    requires a.turnMaxG > 0.0 && (a.yawErrorCd == 0.0 || a.lateralAccel == 0.0)
    ensures LateralScaling(a) == 1.0
  {
    var full := a.turnMaxG * 9.80665;
    QuotientUnique(0.0, full, 0.0);
  }

  lemma SquareClamp(x: real, root: real)
    requires root >= 0.0
    ensures var y := Constrain(x, -root, root);
            if x * x <= root * root then y == x else y * y == root * root && Sign(x) != 0 && Sign(y) != -Sign(x)
  {
    var m := Abs(x);
    assert m * m == x * x;
    if x * x <= root * root {
      SquareOrder(m, root);
    } else if m <= root {
      SquareWithin(x, root);
    }
  }

  lemma ClampIsSafe(scaled: real, desired: real, root: real)
    requires NoFaster(scaled, desired) && root >= 0.0
    ensures var speed := Constrain(scaled, -root, root);
            NoFaster(speed, desired) && (scaled == 0.0 ==> speed == 0.0) && speed * speed <= root * root
  {
    SquareWithin(Constrain(scaled, -root, root), root);
  }

  lemma BrakingSquareNonNegative(a: Approach)
    requires Brakes(a)
    ensures BrakingSquare(a) >= 0.0
  {
    MulNonNegative(2.0 * a.distance, a.accelMax);
    var v := Abs(a.finalSpeed);
    MulNonNegative(v, v);
    assert v * v == a.finalSpeed * a.finalSpeed;
  }

  lemma SquareWithin(x: real, bound: real)
    requires Abs(x) <= bound
    ensures x * x <= bound * bound
  {
    var m := Abs(x);
    MulOrder(m, bound, m);
    MulOrder(m, bound, bound);
    assert m * m == x * x;
  }

  /**
   On a right-angle turn at full lateral acceleration the gain's percentage of the speed remains. So
   the bound on the gain is exact: every negative gain sends the vehicle the other way, and no other.
   */
  lemma NegativeGainReverses(gain: int, turnMaxG: real, desired: real)
    requires turnMaxG > 0.0 && desired != 0.0
    ensures var a := Approach(9000.0, turnMaxG * 9.80665, 0.0, gain, turnMaxG, 0.0, 0.0);
            && ReducedSpeed(a, desired, false, 0.0) == desired * Min(gain as real * 0.01, 1.0)
            && (Sign(ReducedSpeed(a, desired, false, 0.0)) == -Sign(desired) <==> gain < 0)
  {
    var full := turnMaxG * 9.80665;
    QuotientUnique(full, full, 1.0);
    var scaling := Min(gain as real * 0.01, 1.0);
    ProductSign(desired, scaling);
  }

  /**
   What a turn takes off the speed is the product of three shares: the heading error's of a right
   angle, the lateral acceleration's of TURN_MAX_G, each up to the whole, and what SPEED_TURN_GAIN
   leaves of a hundred percent.
   */
  lemma TurnReductionIsProportional(a: Approach, desired: real, root: real) returns (yaw: real, accel: real)
    requires a.turnMaxG > 0.0 && a.turnGain <= 100 && (a.distance < FLT_EPSILON || a.accelMax < FLT_EPSILON)
    ensures yaw * 9000.0 == Min(Abs(a.yawErrorCd), 9000.0)
    ensures accel * (a.turnMaxG * 9.80665) == Min(Abs(a.lateralAccel), a.turnMaxG * 9.80665)
    ensures ReducedSpeed(a, desired, false, root) == desired * (1.0 - accel * (yaw * ((100 - a.turnGain) as real * 0.01)))
  {
    yaw, accel := Constrain(Abs(a.yawErrorCd / 9000.0), 0.0, 1.0), AccelRatio(a);
    CappedShare(a.lateralAccel, a.turnMaxG * 9.80665);
    TakenNonNegative(a);
  }

  lemma TakenNonNegative(a: Approach)
    requires a.turnMaxG > 0.0 && a.turnGain <= 100
    ensures LateralScaling(a) <= 1.0
  {
    MulNonNegative(Constrain(Abs(a.yawErrorCd / 9000.0), 0.0, 1.0), (100 - a.turnGain) as real * 0.01);
    MulNonNegative(AccelRatio(a), YawRatio(a));
  }

  lemma CappedShare(x: real, full: real)
    requires full > 0.0
    ensures Constrain(Abs(x / full), 0.0, 1.0) * full == Min(Abs(x), full)
  {
    var q := x / full;
    var share := Abs(q);
    assert q * full == x;
    assert share * full == Abs(x) by { if q < 0.0 { MulPositive(-q, full); } else { MulNonNegative(q, full); } }
    if share > 1.0 { MulPositive(share - 1.0, full); }
    if share < 1.0 { MulPositive(1.0 - share, full); }
  }

  /** Pointing at the target, or not turning, nothing is taken off the speed. */
  lemma StraightKeepsSpeed(a: Approach, desired: real, root: real)
    requires a.turnMaxG > 0.0 && (a.distance < FLT_EPSILON || a.accelMax < FLT_EPSILON)
    requires a.yawErrorCd == 0.0 || a.lateralAccel == 0.0
    ensures ReducedSpeed(a, desired, false, root) == desired
  {
    StraightScaling(a);
  }

  // ---- the calls that change the pivot state ------------------------------------------------

  class SpeedController {
    const haveSkid: bool
    const turnAngle: int
    const sqrt: real -> real
    var pivotActive: bool

    constructor (haveSkid: bool, turnAngle: int, sqrt: real -> real)
      ensures this.haveSkid == haveSkid && this.turnAngle == turnAngle && this.sqrt == sqrt && !pivotActive
    {
      this.haveSkid, this.turnAngle, this.sqrt := haveSkid, turnAngle, sqrt;
      pivotActive := false;
    }

    method UsePivotSteering(yawErrorCd: real) returns (use: bool)
      modifies this
      ensures use == pivotActive == PivotAfter(haveSkid, turnAngle, old(pivotActive), yawErrorCd)
    {
      if !haveSkid || turnAngle <= 0 {
        pivotActive := false;
        return false;
      }
      var yawError := Abs(yawErrorCd) * 0.01;
      if yawError > turnAngle as real {
        pivotActive := true;
        return true;
      }
      if yawError < 10.0 {
        pivotActive := false;
        return false;
      }
      return pivotActive;
    }

    method CalcReducedSpeed(a: Approach, desired: real) returns (speed: real)
      requires a.turnMaxG > 0.0
      modifies this
      ensures pivotActive == PivotAfter(haveSkid, turnAngle, old(pivotActive), a.yawErrorCd)
      ensures speed == ReducedSpeed(a, desired, pivotActive, sqrt(BrakingSquare(a)))
    {
      var lateralScaling := LateralScaling(a);
      var pivotScaling := 1.0;
      var pivoting := UsePivotSteering(a.yawErrorCd);
      if pivoting {
        pivotScaling := 0.0;
      }
      speed := desired * Min(lateralScaling, pivotScaling);
      if IsPositive(a.distance) && IsPositive(a.accelMax) {
        var speedMax := sqrt(BrakingSquare(a));
        speed := Constrain(speed, -speedMax, speedMax);
      }
    }
  }

  // ---- speed nudge --------------------------------------------------------------------------

  predicate CruiseThrottleSane(cruiseThrottle: real) {
    0.05 <= cruiseThrottle <= 1.0
  }

  function SpeedMax(cruiseSpeed: real, cruiseThrottle: real): (v: real)
    ensures 0.0 <= v <= 30.0
  {
    Constrain(if CruiseThrottleSane(cruiseThrottle) then (1.0 / cruiseThrottle) * cruiseSpeed else cruiseSpeed, 0.0, 30.0)
  }

  /** The cruise speed scaled up to full throttle, unless that is out of range or the scale unusable. */
  lemma SpeedMaxProjectsCruise(cruiseSpeed: real, cruiseThrottle: real)
    ensures var v := SpeedMax(cruiseSpeed, cruiseThrottle);
            && (cruiseSpeed <= 0.0 ==> v == 0.0)
            && (0.05 <= cruiseThrottle <= 1.0 && 0.0 <= cruiseSpeed ==>
                  if cruiseSpeed <= 30.0 * cruiseThrottle then v * cruiseThrottle == cruiseSpeed else v == 30.0)
            && ((cruiseThrottle < 0.05 || cruiseThrottle > 1.0) && 0.0 <= cruiseSpeed ==> v == Min(cruiseSpeed, 30.0))
  {
    if CruiseThrottleSane(cruiseThrottle) {
      ProjectionTest((1.0 / cruiseThrottle) * cruiseSpeed, cruiseSpeed, cruiseThrottle);
    }
  }

  /** Comparing a projected speed with 0 and 30 m/s, as a test on the cruise speed. */
  lemma ProjectionTest(projected: real, cruiseSpeed: real, cruiseThrottle: real)
    requires cruiseThrottle > 0.0 && projected == (1.0 / cruiseThrottle) * cruiseSpeed
    ensures projected * cruiseThrottle == cruiseSpeed
    ensures projected <= 0.0 <==> cruiseSpeed <= 0.0
    ensures projected <= 30.0 <==> cruiseSpeed <= 30.0 * cruiseThrottle
  {
    var inverse, excess := 1.0 / cruiseThrottle, projected - 30.0;
    assert inverse * cruiseThrottle == 1.0;
    assert projected * cruiseThrottle == (inverse * cruiseThrottle) * cruiseSpeed;
    assert excess * cruiseThrottle == cruiseSpeed - 30.0 * cruiseThrottle;
    ProductSign(projected, cruiseThrottle);
    ProductSign(excess, cruiseThrottle);
  }

  function SpeedNudge(target: real, cruiseSpeed: real, cruiseThrottle: real, pilotThrottle: int): real {
    var pilot := ConstrainInt(pilotThrottle, -100, 100);
    if (pilot <= 50 && target >= 0.0) || (pilot >= -50 && target <= 0.0) then target
    else if !CruiseThrottleSane(cruiseThrottle) then target
    else
      var speedMax := SpeedMax(cruiseSpeed, cruiseThrottle);
      if Abs(target) >= speedMax then target
      else
        var magnitude := if pilot < 0 then -pilot else pilot;
        var nudge := (magnitude as real - 50.0) * 0.02 * (speedMax - Abs(target));
        target + (if pilot < 0 then -nudge else nudge)
  }

  /**
   A nudge only ever adds speed in the direction of travel, never beyond the projected maximum: the
   share of the headroom that the stick's last half has been pushed into, so all of it at full stick.
   */
  lemma NudgeStaysBelowMaximum(target: real, cruiseSpeed: real, cruiseThrottle: real, pilotThrottle: int)
    ensures var speed := SpeedNudge(target, cruiseSpeed, cruiseThrottle, pilotThrottle);
            var speedMax := SpeedMax(cruiseSpeed, cruiseThrottle);
            var along := pilotThrottle * Sign(target);
            && Sign(speed) == Sign(target)
            && Abs(target) <= Abs(speed) <= Max(Abs(target), speedMax)
            && (along <= 50 || cruiseThrottle < 0.05 || cruiseThrottle > 1.0 ==> speed == target)
            && (50 < along && 0.05 <= cruiseThrottle <= 1.0 && Abs(target) < speedMax ==>
                  50.0 * (Abs(speed) - Abs(target)) ==
                  ((if along < 100 then along - 50 else 50) as real) * (speedMax - Abs(target)))
  {
    var speedMax := SpeedMax(cruiseSpeed, cruiseThrottle);
    var pilot := ConstrainInt(pilotThrottle, -100, 100);
    var share := ((if pilot < 0 then -pilot else pilot) as real - 50.0) * 0.02;
    var headroom := speedMax - Abs(target);
    if headroom > 0.0 && share >= 0.0 {
      MulNonNegative(share, headroom);
      MulNonNegative(1.0 - share, headroom);
      assert (1.0 - share) * headroom == headroom - share * headroom;
    }
  }
}
