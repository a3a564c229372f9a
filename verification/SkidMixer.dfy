/**
 The arithmetic of AP_MotorsUGV::output_skid_steering and the relay encoding of output_throttle.
 Steering is -4500..4500 and throttle -100..100; the mixer works on fractions of full scale.
 */
module SkidMixer {
  import opened ArduMath

  datatype Mix = Mix(left: real, right: real)

  function SteeringFraction(steering: real): real {
    Constrain(steering / 4500.0, -1.0, 1.0)
  }

  function ThrottleFraction(throttle: real): real {
    Constrain(throttle / 100.0, -1.0, 1.0)
  }

  function Saturation(steering: real, throttle: real): real {
    Abs(SteeringFraction(steering)) + Abs(ThrottleFraction(throttle))
  }

  /** Proportional scale-back of a demand that exceeds full scale. */
  function Fit(x: real, saturation: real): real {
    if saturation > 1.0 then x / saturation else x
  }

  /** The throttle the mixer actually tests and mixes. */
  function MixerThrottle(steering: real, throttle: real): real {
    Fit(ThrottleFraction(throttle), Saturation(steering, throttle))
  }

  function MixerSteering(steering: real, throttle: real): real {
    Fit(SteeringFraction(steering), Saturation(steering, throttle))
  }

  /** Steering is mirrored while backing up. */
  function TravelDirection(throttle: real): int {
    if IsNegative(throttle) then -1 else 1
  }

  function Mixed(steering: real, throttle: real): Mix {
    var t, s := MixerThrottle(steering, throttle), MixerSteering(steering, throttle);
    var turn := Oriented(IsNegative(t), s);
    Mix(t + turn, t - turn)
  }

  lemma FitIsProportional(x: real, saturation: real)
    requires Abs(x) <= saturation
    ensures Sign(Fit(x, saturation)) == Sign(x)
    ensures saturation > 1.0 ==> Fit(x, saturation) * saturation == x
    ensures Abs(Fit(x, saturation)) == Fit(Abs(x), saturation) <= 1.0
  {
    if saturation > 1.0 {
      QuotientInUnit(Abs(x), saturation);
      QuotientUnique(-x, saturation, -(x / saturation));
      if x > 0.0 { QuotientSign(x, saturation); }
      if x < 0.0 { QuotientSign(-x, saturation); }
    }
  }

  lemma QuotientSign(x: real, y: real)
    requires x > 0.0 && y > 0.0
    ensures x / y > 0.0
  {
    var q := x / y;
    assert q * y == x;
    if q <= 0.0 { MulNonNegative(-q, y); }
  }

  /**
   The busier motor runs at exactly the combined demand, capped at full scale: so both stay in
   range, and a saturated demand puts one motor exactly at full scale.
   */
  lemma BusierMotorCarriesDemand(steering: real, throttle: real)
    ensures var m := Mixed(steering, throttle);
            Max(Abs(m.left), Abs(m.right)) == Min(Saturation(steering, throttle), 1.0)
  {
    var sat := Saturation(steering, throttle);
    var t, s := ThrottleFraction(throttle), SteeringFraction(steering);
    FitIsProportional(t, sat);
    FitIsProportional(s, sat);
    FractionsAddUp(Abs(t), Abs(s));
    OuterCorner(Fit(t, sat), Fit(s, sat));
  }

  lemma FractionsAddUp(x: real, y: real)
    requires 0.0 <= x && 0.0 <= y
    ensures Fit(x, x + y) + Fit(y, x + y) == Min(x + y, 1.0)
  {
    var sum := x + y;
    if sum > 1.0 {
      QuotientsAdd(x, y, sum);
      QuotientUnique(sum, sum, 1.0);
    }
  }

  lemma QuotientsAdd(x: real, y: real, d: real)
    requires d != 0.0
    ensures x / d + y / d == (x + y) / d
  {
    var qx, qy := x / d, y / d;
    assert qx * d == x && qy * d == y;
    assert (qx + qy) * d == qx * d + qy * d;
    QuotientUnique(x + y, d, qx + qy);
  }

  lemma OuterCorner(t: real, s: real)
    ensures Max(Abs(t + s), Abs(t - s)) == Abs(t) + Abs(s)
  {}

  /** The motors' mean is the mixed throttle and half their difference the mixed steering. */
  lemma MixRecoversDemand(steering: real, throttle: real)
    ensures var m := Mixed(steering, throttle);
            && (m.left + m.right) / 2.0 == MixerThrottle(steering, throttle)
            && Abs(m.left - m.right) / 2.0 == Abs(MixerSteering(steering, throttle))
  {
    var t, s := MixerThrottle(steering, throttle), MixerSteering(steering, throttle);
    SumAndDifference(t, if IsNegative(t) then -s else s);
  }

  /** Both are the demand shrunk by one common factor, so the turn radius is kept. */
  lemma MixKeepsRatio(steering: real, throttle: real)
    ensures MixerThrottle(steering, throttle) * SteeringFraction(steering)
            == MixerSteering(steering, throttle) * ThrottleFraction(throttle)
  {
    FitKeepsRatio(ThrottleFraction(throttle), SteeringFraction(steering), Saturation(steering, throttle));
  }

  lemma SumAndDifference(t: real, turn: real)
    ensures ((t + turn) + (t - turn)) / 2.0 == t && Abs((t + turn) - (t - turn)) / 2.0 == Abs(turn)
  {}

  lemma FitKeepsRatio(x: real, y: real, saturation: real)
    ensures Fit(x, saturation) * y == Fit(y, saturation) * x
  {
    if saturation > 1.0 {
      var qx, qy := x / saturation, y / saturation;
      assert qx * saturation == x && qy * saturation == y;
      assert qx * y == qx * (qy * saturation) && qy * x == qy * (qx * saturation);
    }
  }

  /** Left minus right has the sign of the steering demand, mirrored when the mix is in reverse. */
  lemma MixTurnsAsSteered(steering: real, throttle: real)
    ensures var m := Mixed(steering, throttle);
            Sign(m.left - m.right) == TravelDirection(MixerThrottle(steering, throttle)) * Sign(steering)
  {
    FitIsProportional(SteeringFraction(steering), Saturation(steering, throttle));
  }

  // ---- brushed motors with a direction relay -----------------------------------------------

  datatype RelayDrive = RelayDrive(relayHigh: bool, written: real)

  /** `x` or its mirror image, where the source multiplies by 1 or -1. */
  function Oriented(reversed: bool, x: real): real {
    if reversed then -x else x
  }

  function Encode(reversed: bool, throttle: real): RelayDrive {
    RelayDrive(IsNegative(Oriented(reversed, throttle)), Oriented(reversed, Abs(throttle)))
  }

  /** The signed throttle a reader of the relay and the channel would infer. */
  function Decode(reversed: bool, drive: RelayDrive): real {
    Oriented(reversed, if drive.relayHigh then -Abs(drive.written) else Abs(drive.written))
  }

  /**
   The pair determines the signed throttle except in the sliver where the throttle, seen through
   the channel reversal, is negative but too small for is_negative.
   */
  lemma RelayPairRecoversThrottle(reversed: bool, throttle: real)
    ensures Decode(reversed, Encode(reversed, throttle)) == throttle
       <==> !(-FLT_EPSILON < Oriented(reversed, throttle) < 0.0)
    ensures Abs(Decode(reversed, Encode(reversed, throttle))) == Abs(throttle)
  {}

  /** One throttle in that sliver, for each reversal. */
  lemma RelaySliverLosesSign(reversed: bool)
    ensures var throttle := Oriented(reversed, -FLT_EPSILON / 2.0);
            Decode(reversed, Encode(reversed, throttle)) == -throttle != throttle
  {}
}
