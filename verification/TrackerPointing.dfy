/**
 AntennaTracker pointing: frame conversions, the choice between the short and the long way round,
 and the angle errors. Angles are centidegrees.
 */
module TrackerPointing {
  import opened ArduMath

  datatype Angles = Angles(pitch: real, yaw: real)

  datatype Attitude = Attitude(sinRoll: real, cosRoll: real, cosPitch: real, pitchCd: int, yawCd: int)
  {
    ghost predicate Valid() {
      sinRoll * sinRoll + cosRoll * cosRoll == 1.0
    }
  }

  // ---- frame conversions --------------------------------------------------------------------

  function EarthToBody(a: Attitude, ef: Angles): Angles {
    Angles(a.cosRoll * ef.pitch + a.sinRoll * a.cosPitch * ef.yaw,
           -a.sinRoll * ef.pitch + a.cosPitch * a.cosRoll * ef.yaw)
  }

  predicate Convertible(a: Attitude) {
    !IsZero(a.cosPitch)
  }

  /** Where the source refuses to divide, the caller keeps its `fallback`. */
  function BodyToEarth(a: Attitude, bf: Angles, fallback: Angles): Angles {
    if !Convertible(a) then fallback
    else Angles(a.cosRoll * bf.pitch - a.sinRoll * bf.yaw,
                (a.sinRoll / a.cosPitch) * bf.pitch + (a.cosRoll / a.cosPitch) * bf.yaw)
  }

  /** (s/c)p + (r/c)y, over one denominator. */
  lemma CommonDenominator(s: real, r: real, c: real, p: real, y: real)
    requires c != 0.0
    ensures c * ((s / c) * p + (r / c) * y) == s * p + r * y
  {
    var sc, rc := s / c, r / c;
    assert sc * c == s && rc * c == r;
    assert c * (sc * p + rc * y) == (sc * c) * p + (rc * c) * y;
  }

  /** A rotation by roll, then its inverse. */
  lemma RotateBack(s: real, r: real, p: real, q: real)
    requires s * s + r * r == 1.0
    ensures r * (r * p + s * q) - s * (-s * p + r * q) == p
    ensures s * (r * p + s * q) + r * (-s * p + r * q) == q
  {
    assert r * (r * p + s * q) - s * (-s * p + r * q) == (s * s + r * r) * p;
    assert s * (r * p + s * q) + r * (-s * p + r * q) == (s * s + r * r) * q;
  }

  lemma CancelLeft(c: real, x: real, y: real)
    requires c != 0.0 && c * x == c * y
    ensures x == y
  {
    assert c * (x - y) == 0.0;
  }

  /** Near the vertical the conversion is refused. */
  lemma VerticalIsRefused(a: Attitude, bf: Angles, fallback: Angles)
    requires Abs(a.cosPitch) < FLT_EPSILON
    ensures BodyToEarth(a, bf, fallback) == fallback
  {}

  /**
   Level, the body frame foreshortens yaw by the pitch; rolled right onto its side, yaw is seen as
   pitch and pitch as yaw the other way.
   */
  lemma RollTurnsTheError(a: Attitude, ef: Angles)
    requires a.Valid()
    ensures a.cosRoll == 1.0 ==> EarthToBody(a, ef) == Angles(ef.pitch, a.cosPitch * ef.yaw)
    ensures a.sinRoll == 1.0 ==> EarthToBody(a, ef) == Angles(a.cosPitch * ef.yaw, -ef.pitch)
  {
    if a.cosRoll == 1.0 { NoSine(a.sinRoll); }
    if a.sinRoll == 1.0 { NoSine(a.cosRoll); }
  }

  /** No roll changes the size of the error. */
  lemma RollKeepsTheSize(a: Attitude, ef: Angles)
    requires a.Valid()
    ensures var bf, q := EarthToBody(a, ef), a.cosPitch * ef.yaw;
            bf.pitch * bf.pitch + bf.yaw * bf.yaw == ef.pitch * ef.pitch + q * q
  {
    var s, r, p, q := a.sinRoll, a.cosRoll, ef.pitch, a.cosPitch * ef.yaw;
    var bf := EarthToBody(a, ef);
    assert bf.pitch == r * p + s * q;
    assert bf.yaw == -s * p + r * q;
    KeepsSize(s, r, p, q, bf.pitch, bf.yaw);
  }

  lemma NoSine(s: real)
    requires s * s == 0.0
    ensures s == 0.0
  {
    ProductSign(s, s);
  }

  lemma KeepsSize(s: real, r: real, p: real, q: real, x: real, y: real)
    requires s * s + r * r == 1.0
    requires x == r * p + s * q && y == -s * p + r * q
    ensures x * x + y * y == p * p + q * q
  {
    var rp, sq, sp, rq := r * p, s * q, s * p, r * q;
    assert x * x == rp * rp + 2.0 * (rp * sq) + sq * sq;
    assert y * y == sp * sp - 2.0 * (sp * rq) + rq * rq;
    assert rp * sq == sp * rq;
    assert rp * rp + sp * sp == (s * s + r * r) * (p * p);
    assert sq * sq + rq * rq == (s * s + r * r) * (q * q);
  }

  lemma EarthBodyEarth(a: Attitude, ef: Angles, fallback: Angles)
    requires a.Valid() && Abs(a.cosPitch) >= FLT_EPSILON
    ensures BodyToEarth(a, EarthToBody(a, ef), fallback) == ef
  {
    var s, r, c := a.sinRoll, a.cosRoll, a.cosPitch;
    var q := c * ef.yaw;
    RotateBack(s, r, ef.pitch, q);
    var bf := EarthToBody(a, ef);
    assert bf.pitch == r * ef.pitch + s * q && bf.yaw == -s * ef.pitch + r * q;
    CommonDenominator(s, r, c, bf.pitch, bf.yaw);
    CancelLeft(c, BodyToEarth(a, bf, fallback).yaw, ef.yaw);
  }

  lemma BodyEarthBody(a: Attitude, bf: Angles, fallback: Angles)
    requires a.Valid() && Abs(a.cosPitch) >= FLT_EPSILON
    ensures EarthToBody(a, BodyToEarth(a, bf, fallback)) == bf
  {
    var s, r, c := a.sinRoll, a.cosRoll, a.cosPitch;
    var ef := BodyToEarth(a, bf, fallback);
    CommonDenominator(s, r, c, bf.pitch, bf.yaw);
    var q := c * ef.yaw;
    assert q == s * bf.pitch + r * bf.yaw && ef.pitch == r * bf.pitch - s * bf.yaw;
    assert s * c * ef.yaw == s * q && c * r * ef.yaw == r * q;
    assert r * ef.pitch + s * q == (s * s + r * r) * bf.pitch;
    assert -s * ef.pitch + r * q == (s * s + r * r) * bf.yaw;
  }

  // ---- which way round ----------------------------------------------------------------------

  datatype Limits = Limits(lower: real, upper: real)

  /** Distances from the current servo outputs to the earth-frame yaw limits. */
  function EarthYawLimits(a: Attitude, yawRange: int, pitchMin: int, pitchMax: int, servo: Angles): Limits {
    var lower := Angles((pitchMin as real) * 100.0 - servo.pitch, -(yawRange as real) * 100.0 / 2.0 - servo.yaw);
    var upper := Angles((pitchMax as real) * 100.0 - servo.pitch, (yawRange as real) * 100.0 / 2.0 - servo.yaw);
    Limits(BodyToEarth(a, lower, lower).yaw, BodyToEarth(a, upper, upper).yaw)
  }

  /** Each limit, with some pitch, is where the servos' own limits lie in the body frame. */
  lemma LimitsAreServoEnds(a: Attitude, yawRange: int, pitchMin: int, pitchMax: int, servo: Angles)
    requires a.Valid() && Abs(a.cosPitch) >= FLT_EPSILON
    ensures var limits := EarthYawLimits(a, yawRange, pitchMin, pitchMax, servo);
            && (exists p :: EarthToBody(a, Angles(p, limits.lower)) ==
                  Angles((pitchMin as real) * 100.0 - servo.pitch, -(yawRange as real) * 50.0 - servo.yaw))
            && (exists p :: EarthToBody(a, Angles(p, limits.upper)) ==
                  Angles((pitchMax as real) * 100.0 - servo.pitch, (yawRange as real) * 50.0 - servo.yaw))
  {
    var lower := Angles((pitchMin as real) * 100.0 - servo.pitch, -(yawRange as real) * 50.0 - servo.yaw);
    var upper := Angles((pitchMax as real) * 100.0 - servo.pitch, (yawRange as real) * 50.0 - servo.yaw);
    BodyEarthBody(a, lower, lower);
    BodyEarthBody(a, upper, upper);
    var limits := EarthYawLimits(a, yawRange, pitchMin, pitchMax, servo);
    assert EarthToBody(a, Angles(BodyToEarth(a, lower, lower).pitch, limits.lower)) == lower;
    assert EarthToBody(a, Angles(BodyToEarth(a, upper, upper).pitch, limits.upper)) == upper;
  }

  /** Moving up (right) and moving down (left) to an error of less than half a turn. */
  function UpwardRoute(error: real): real {
    if error >= 0.0 then error else 36000.0 + error
  }

  function DownwardRoute(error: real): real {
    if error >= 0.0 then error - 36000.0 else error
  }

  predicate BothRoutesPastLimits(limits: Limits, error: real) {
    DownwardRoute(error) < limits.lower && UpwardRoute(error) > limits.upper
  }

  /** True for the long way round. */
  predicate LongWay(limits: Limits, error: real) {
    BothRoutesPastLimits(limits, error) &&
    var below, above := limits.lower - DownwardRoute(error), UpwardRoute(error) - limits.upper;
    (error > 0.0 && below < above) || (error < 0.0 && below > above)
  }

  /** How far past its limit a route ends, when both do. */
  function Shortfall(limits: Limits, error: real, longWay: bool): real {
    if (error > 0.0) != longWay then UpwardRoute(error) - limits.upper else limits.lower - DownwardRoute(error)
  }

  /**
   With both routes past their limits the chosen one ends no further past its limit than the other,
   and the long way is taken only for a strict gain; otherwise the short way is taken.
   */
  lemma ChoosesSmallerShortfall(limits: Limits, error: real)
    requires error != 0.0
    ensures var chosen := LongWay(limits, error);
            && (BothRoutesPastLimits(limits, error) ==>
                  0.0 < Shortfall(limits, error, chosen) <= Shortfall(limits, error, !chosen))
            && (chosen <==> BothRoutesPastLimits(limits, error)
                            && Shortfall(limits, error, true) < Shortfall(limits, error, false))
  {}

  // ---- the angle errors ---------------------------------------------------------------------

  /** Earth-frame yaw error before it is stored in an integer. */
  function RawYawError(yaw: real, yawNow: int, reversed: bool): real {
    var difference := yaw - (yawNow as real);
    if !reversed then Wrap180(difference)
    else if Truncate(Wrap180(difference)) > 0 then difference - 36000.0
    else 36000.0 + difference
  }

  function YawError(yaw: real, yawNow: int, reversed: bool): int {
    Truncate(RawYawError(yaw, yawNow, reversed))
  }

  function YawNow(a: Attitude): (y: int)
    ensures -18000 < y <= 18000
  {
    Truncate(Wrap180(a.yawCd as real))
  }

  /** The shortest error, and the reversed one, both end on the target heading. */
  lemma ErrorKeepsTarget(yaw: real, yawNow: int, reversed: bool)
    ensures SameHeading(RawYawError(yaw, yawNow, reversed), yaw - (yawNow as real))
  {
    var difference := yaw - (yawNow as real);
    var raw := RawYawError(yaw, yawNow, reversed);
    if !reversed {
      WrapKeepsHeading(difference);
    } else if raw == difference - 36000.0 {
      assert TurnsApart(raw, difference, -1);
    } else {
      assert TurnsApart(raw, difference, 1);
    }
  }

  /** Wrapping a difference of two wrapped headings adds at most one turn. */
  lemma WrappedDifference(difference: real)
    requires -36000.0 < difference < 36000.0
    ensures Wrap180(difference) == if difference > 18000.0 then difference - 36000.0
                                   else if difference <= -18000.0 then difference + 36000.0 else difference
  {
    assert Truncate(difference / 36000.0) == 0;
  }

  /**
   A nonzero shortest error is reversed into one of the opposite sign and at least half a turn. It
   stays within one turn exactly when the heading difference did not need wrapping.
   */
  lemma ReversedErrorTurnsTheOtherWay(yaw: real, yawNow: int)
    requires -18000.0 < yaw <= 18000.0 && -18000 < yawNow <= 18000
    requires YawError(yaw, yawNow, false) != 0
    ensures var short, long := YawError(yaw, yawNow, false), YawError(yaw, yawNow, true);
            && (short > 0 <==> long < 0) && (short < 0 <==> long > 0)
            && (long <= -18000 || long >= 18000)
            && (-36000 <= long <= 36000 <==> -18000.0 < yaw - (yawNow as real) <= 18000.0)
  {
    WrappedDifference(yaw - (yawNow as real));
  }

  /** The error of the route that get_ef_yaw_direction chose. */
  function RouteError(error: real, longWay: bool): real {
    if (error >= 0.0) != longWay then UpwardRoute(error) else DownwardRoute(error)
  }

  /**
   The error that is stored is that of the chosen route exactly when the short way was chosen, or the
   heading difference needed no wrapping and the error is not a fraction of a centidegree upward.
   */
  lemma StoredErrorIsChosenRoute(limits: Limits, yaw: real, yawNow: int)
    requires -18000.0 < yaw <= 18000.0 && -18000 < yawNow <= 18000
    ensures var error := Wrap180(yaw - (yawNow as real));
            var longWay := LongWay(limits, error);
            RawYawError(yaw, yawNow, longWay) == RouteError(error, longWay)
            <==> !longWay || (-18000.0 < yaw - (yawNow as real) <= 18000.0 && !(0.0 < error < 1.0))
  {
    WrappedDifference(yaw - (yawNow as real));
  }

  class Tracker {
    var angleErrorPitch: real
    var angleErrorYaw: real

    method CalcAngleError(a: Attitude, pitch: real, yaw: real, directionReversed: bool)
      modifies this
      ensures Angles(angleErrorPitch, angleErrorYaw) ==
              EarthToBody(a, Angles(Truncate(pitch - (a.pitchCd as real)) as real, YawError(yaw, YawNow(a), directionReversed) as real))
    {
      var efPitchError := Truncate(pitch - (a.pitchCd as real));
      var yawCd := Truncate(Wrap180(a.yawCd as real));
      var efYawError := Truncate(Wrap180(yaw - (yawCd as real)));
      if directionReversed {
        if efYawError > 0 {
          efYawError := Truncate((yaw - (yawCd as real)) - 36000.0);
        } else {
          efYawError := Truncate(36000.0 + (yaw - (yawCd as real)));
        }
      }
      var bf := EarthToBody(a, Angles(efPitchError as real, efYawError as real));
      angleErrorPitch, angleErrorYaw := bf.pitch, bf.yaw;
    }

    /**
     The pointing half of one_second_loop. The stored body-frame errors are the earth-frame errors of
     the chosen route: converting them back gives those errors.
     */
    method UpdatePointing(a: Attitude, bearing: real, navPitch: real, yawTrim: real, pitchTrim: real,
                          yawRange: int, pitchMin: int, pitchMax: int, servo: Angles)
      requires a.Valid()
      modifies this
      ensures var yaw := Wrap180((bearing + yawTrim) * 100.0);
              var pitch := Constrain(navPitch + pitchTrim, -90.0, 90.0) * 100.0;
              var error := Wrap180(yaw - Wrap180(a.yawCd as real));
              var longWay := LongWay(EarthYawLimits(a, yawRange, pitchMin, pitchMax, servo), error);
              var stored := Angles(angleErrorPitch, angleErrorYaw);
              Abs(a.cosPitch) >= FLT_EPSILON ==>
                BodyToEarth(a, stored, stored) ==
                Angles(Truncate(pitch - (a.pitchCd as real)) as real, YawError(yaw, YawNow(a), longWay) as real)
    {
      var yaw := Wrap180((bearing + yawTrim) * 100.0);
      var pitch := Constrain(navPitch + pitchTrim, -90.0, 90.0) * 100.0;
      var error := Wrap180(yaw - Wrap180(a.yawCd as real));
      var longWay := LongWay(EarthYawLimits(a, yawRange, pitchMin, pitchMax, servo), error);
      CalcAngleError(a, pitch, yaw, longWay);
      ghost var ef := Angles(Truncate(pitch - (a.pitchCd as real)) as real, YawError(yaw, YawNow(a), longWay) as real);
      if Convertible(a) {
        EarthBodyEarth(a, ef, EarthToBody(a, ef));
      }
    }
  }
}
