/**
 AP_MotorsUGV::get_scaled_throttle: the inverse of the quadratic thrust curve selected by THST_EXPO.
 */
module ThrustCurve {
  import opened ArduMath

  /** False for the exponents the source passes through unscaled. */
  predicate Scales(expo: real) {
    !IsZero(expo) && -1.0 <= expo <= 1.0
  }

  /** Magnitude of the clamped throttle as a fraction of full scale. */
  function Fraction(throttle: real): (p: real)
    ensures 0.0 <= p <= 1.0
  {
    Abs(Constrain(throttle, -100.0, 100.0) / 100.0)
  }

  function RootArgument(expo: real, p: real): real {
    (1.0 - expo) * (1.0 - expo) + 4.0 * expo * p
  }

  /** Drive for a thrust of `p`, both as fractions of full scale. */
  function DriveLevel(sqrt: real -> real, expo: real, p: real): real
    requires expo != 0.0
  {
    ((expo - 1.0) + sqrt(RootArgument(expo, p))) / (2.0 * expo)
  }

  function ScaledThrottle(sqrt: real -> real, expo: real, throttle: real): real {
    if !Scales(expo) then throttle
    else if throttle < 0.0 then -100.0 * DriveLevel(sqrt, expo, Fraction(throttle))
    else 100.0 * DriveLevel(sqrt, expo, Fraction(throttle))
  }

  /** Thrust produced by a motor driven at the fraction `y` of full scale. */
  function Thrust(expo: real, y: real): real {
    expo * y * y + (1.0 - expo) * y
  }

  /** The same for a motor that may turn backwards. */
  function SignedThrust(expo: real, y: real): real {
    if y < 0.0 then -Thrust(expo, -y) else Thrust(expo, y)
  }

  /** Percentage of thrust a motor delivers at `drive` percent: linear unless the exponent bends it. */
  function Produced(expo: real, drive: real): real {
    if FLT_EPSILON <= Abs(expo) <= 1.0 then 100.0 * SignedThrust(expo, drive / 100.0) else drive
  }

  /** The source takes a square root of this, and safe_sqrt's guard is never used. */
  lemma RootArgumentNonNegative(expo: real, p: real)
    requires -1.0 <= expo <= 1.0 && 0.0 <= p <= 1.0
    ensures RootArgument(expo, p) >= 0.0
  {
    if expo < 0.0 {
      MulOrder(p, 1.0, -expo);
      assert (1.0 - expo) * (1.0 - expo) + 4.0 * expo == (1.0 + expo) * (1.0 + expo);
      MulNonNegative(1.0 + expo, 1.0 + expo);
    } else {
      MulNonNegative(expo, p);
      MulNonNegative(1.0 - expo, 1.0 - expo);
    }
  }

  /** On the unit interval: the scaled value solves the thrust equation and stays in range. */
  lemma UnitCurve(expo: real, p: real, root: real, y: real)
    requires Scales(expo) && 0.0 <= p <= 1.0
    requires root >= 0.0 && root * root == (1.0 - expo) * (1.0 - expo) + 4.0 * expo * p
    requires y == ((expo - 1.0) + root) / (2.0 * expo)
    ensures 0.0 <= y <= 1.0
    ensures Thrust(expo, y) == p
  {
    var d := 2.0 * expo;
    assert d * y == (expo - 1.0) + root;
    assert d * y * (d * y) + 2.0 * (1.0 - expo) * (d * y) == 4.0 * expo * p by {
      assert root == d * y + (1.0 - expo);
      assert root * root == d * y * (d * y) + 2.0 * (1.0 - expo) * (d * y) + (1.0 - expo) * (1.0 - expo);
    }
    assert 4.0 * expo * Thrust(expo, y) == d * y * (d * y) + 2.0 * (1.0 - expo) * (d * y);
    assert 4.0 * expo * (Thrust(expo, y) - p) == 0.0;
    RootBounds(expo, p, root);
    QuotientInUnit((expo - 1.0) + root, d);
  }

  lemma RootBounds(expo: real, p: real, root: real)
    requires -1.0 <= expo <= 1.0 && 0.0 <= p <= 1.0
    requires root >= 0.0 && root * root == (1.0 - expo) * (1.0 - expo) + 4.0 * expo * p
    ensures expo >= 0.0 ==> 1.0 - expo <= root <= 1.0 + expo
    ensures expo <= 0.0 ==> 1.0 + expo <= root <= 1.0 - expo
  {
    var wide, narrow := 1.0 - expo, 1.0 + expo;
    assert narrow * narrow == wide * wide + 4.0 * expo;
    if expo >= 0.0 {
      MulNonNegative(expo, p);
      MulOrder(p, 1.0, expo);
      SquareOrder(wide, root);
      SquareOrder(root, narrow);
    }
    if expo <= 0.0 {
      MulNonNegative(-expo, p);
      MulNonNegative(-expo, 1.0 - p);
      assert -expo * (1.0 - p) == -expo + expo * p;
      SquareOrder(narrow, root);
      SquareOrder(root, wide);
    }
  }

  lemma SlopePositive(expo: real, sum: real)
    requires -1.0 <= expo <= 1.0 && 0.0 < sum < 2.0
    ensures expo * sum + (1.0 - expo) > 0.0
  {
    if expo > 0.0 {
      MulPositive(expo, sum);
    } else if expo < 0.0 {
      var negated, gap := -expo, 2.0 - sum;
      MulPositive(negated, gap);
      assert negated * gap == expo * sum - 2.0 * expo;
    } else {
      assert expo * sum == 0.0;
    }
  }

  lemma ThrustStrictlyIncreasing(expo: real, y1: real, y2: real)
    requires -1.0 <= expo <= 1.0
    requires 0.0 <= y1 < y2 <= 1.0
    ensures Thrust(expo, y1) < Thrust(expo, y2)
  {
    var slope, gap := expo * (y1 + y2) + (1.0 - expo), y2 - y1;
    var rise := Thrust(expo, y2) - Thrust(expo, y1);
    SlopePositive(expo, y1 + y2);
    MulPositive(gap, slope);
    assert rise == gap * slope;
  }

  lemma OneLevelPerThrust(expo: real, y: real, z: real)
    requires -1.0 <= expo <= 1.0
    requires 0.0 <= y <= 1.0 && 0.0 <= z <= 1.0
    requires Thrust(expo, y) == Thrust(expo, z)
    ensures y == z
  {
    if z < y { ThrustStrictlyIncreasing(expo, z, y); }
    if y < z { ThrustStrictlyIncreasing(expo, y, z); }
  }

  lemma LevelGivesThrust(sqrt: real -> real, expo: real, p: real)
    requires Scales(expo) && IsSqrtFunction(sqrt) && 0.0 <= p <= 1.0
    ensures 0.0 <= DriveLevel(sqrt, expo, p) <= 1.0
    ensures Thrust(expo, DriveLevel(sqrt, expo, p)) == p
  {
    var v := RootArgument(expo, p);
    RootArgumentNonNegative(expo, p);
    assert IsSafeSqrt(v, sqrt(v));
    UnitCurve(expo, p, sqrt(v), DriveLevel(sqrt, expo, p));
  }

  /** A clamped throttle is a percentage of full thrust, and the output a percentage of full drive. */
  lemma CurveInvertsThrust(sqrt: real -> real, expo: real, throttle: real)
    requires FLT_EPSILON <= Abs(expo) <= 1.0 && IsSqrtFunction(sqrt)
    ensures 100.0 * SignedThrust(expo, ScaledThrottle(sqrt, expo, throttle) / 100.0)
            == Constrain(throttle, -100.0, 100.0)
  {
    LevelGivesThrust(sqrt, expo, Fraction(throttle));
    assert Thrust(expo, 0.0) == 0.0;
  }

  /** An exponent that is zero or out of range leaves the request as it is. */
  lemma UnscaledIsRequest(sqrt: real -> real, expo: real, throttle: real)
    requires Abs(expo) < FLT_EPSILON || Abs(expo) > 1.0
    ensures ScaledThrottle(sqrt, expo, throttle) == throttle
  {}

  /** For every exponent, the motor delivers the percentage of thrust that was requested. */
  lemma RequestedThrustIsProduced(sqrt: real -> real, expo: real, throttle: real)
    requires IsSqrtFunction(sqrt) && -100.0 <= throttle <= 100.0
    ensures Produced(expo, ScaledThrottle(sqrt, expo, throttle)) == throttle
  {
    if FLT_EPSILON <= Abs(expo) <= 1.0 {
      CurveInvertsThrust(sqrt, expo, throttle);
    } else {
      UnscaledIsRequest(sqrt, expo, throttle);
    }
  }

  /** The output never leaves full scale, and is zero or changes sign only with the request. */
  lemma CurveKeepsDirection(sqrt: real -> real, expo: real, throttle: real)
    requires IsSqrtFunction(sqrt)
    requires FLT_EPSILON <= Abs(expo) <= 1.0 || -100.0 <= throttle <= 100.0
    ensures Abs(ScaledThrottle(sqrt, expo, throttle)) <= 100.0
    ensures Sign(ScaledThrottle(sqrt, expo, throttle)) == Sign(throttle)
  {
    if Scales(expo) {
      LevelGivesThrust(sqrt, expo, Fraction(throttle));
      assert Thrust(expo, 0.0) == 0.0;
      if throttle == 0.0 { OneLevelPerThrust(expo, 0.0, DriveLevel(sqrt, expo, Fraction(throttle))); }
    }
  }

  /** The other composition: asking for the thrust of a drive level gives that level back. */
  lemma ThrustInvertsCurve(sqrt: real -> real, expo: real, y: real, throttle: real)
    requires FLT_EPSILON <= Abs(expo) <= 1.0 && IsSqrtFunction(sqrt)
    requires 0.0 <= y <= 1.0 && throttle == 100.0 * Thrust(expo, y)
    ensures 0.0 <= throttle <= 100.0
    ensures ScaledThrottle(sqrt, expo, throttle) == 100.0 * y
  {
    assert Thrust(expo, 0.0) == 0.0 && Thrust(expo, 1.0) == 1.0;
    if 0.0 < y { ThrustStrictlyIncreasing(expo, 0.0, y); }
    if y < 1.0 { ThrustStrictlyIncreasing(expo, y, 1.0); }
    LevelGivesThrust(sqrt, expo, Fraction(throttle));
    OneLevelPerThrust(expo, y, DriveLevel(sqrt, expo, Fraction(throttle)));
  }

  /** Forward and reverse are mirror images. */
  lemma CurveIsOdd(sqrt: real -> real, expo: real, throttle: real)
    requires IsSqrtFunction(sqrt)
    ensures ScaledThrottle(sqrt, expo, -throttle) == -ScaledThrottle(sqrt, expo, throttle)
  {
    assert Fraction(-throttle) == Fraction(throttle);
    if Scales(expo) && throttle == 0.0 { CurveKeepsDirection(sqrt, expo, throttle); }
  }

  /** More throttle always gives more output, for every exponent, scaled or not. */
  lemma CurveStrictlyIncreasing(sqrt: real -> real, expo: real, t1: real, t2: real)
    requires IsSqrtFunction(sqrt)
    requires -100.0 <= t1 < t2 <= 100.0
    ensures ScaledThrottle(sqrt, expo, t1) < ScaledThrottle(sqrt, expo, t2)
  {
    CurveKeepsDirection(sqrt, expo, t1);
    CurveKeepsDirection(sqrt, expo, t2);
    if Scales(expo) && Sign(t1) == Sign(t2) {
      var y1, y2 := DriveLevel(sqrt, expo, Fraction(t1)), DriveLevel(sqrt, expo, Fraction(t2));
      LevelGivesThrust(sqrt, expo, Fraction(t1));
      LevelGivesThrust(sqrt, expo, Fraction(t2));
      if y2 < y1 { ThrustStrictlyIncreasing(expo, y2, y1); }
      if y1 < y2 { ThrustStrictlyIncreasing(expo, y1, y2); }
    }
  }

  /** Full scale in is exactly full scale out. */
  lemma FullScaleIsExact(sqrt: real -> real, expo: real, throttle: real)
    requires IsSqrtFunction(sqrt)
    requires -100.0 <= throttle <= 100.0
    ensures Abs(throttle) == 100.0 <==> Abs(ScaledThrottle(sqrt, expo, throttle)) == 100.0
  {
    if Scales(expo) {
      LevelGivesThrust(sqrt, expo, Fraction(throttle));
      assert Thrust(expo, 1.0) == 1.0;
      if Fraction(throttle) == 1.0 { OneLevelPerThrust(expo, 1.0, DriveLevel(sqrt, expo, Fraction(throttle))); }
    }
  }
}
