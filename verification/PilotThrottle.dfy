/**
 Copter's get_pilot_desired_throttle: the cubic that puts hover throttle at mid stick.
 */
module PilotThrottle {
  import opened ArduMath

  function MidStick(throttleMid: int): (m: int)
    ensures m > 0
  {
    if throttleMid <= 0 then 500 else throttleMid
  }

  /** Stick position as a fraction, with the mid position at one half. */
  function StickFraction(throttleControl: int, mid: int): real
    requires mid > 0
  {
    var control := ConstrainInt(throttleControl, 0, 1000);
    if control < mid then (control as real) * 0.5 / (mid as real)
    else if control > mid then 0.5 + ((control - mid) as real) * 0.5 / ((1000 - mid) as real)
    else 0.5
  }

  function Expo(throttleMiddle: real): real {
    Constrain(-(throttleMiddle - 0.5) / 0.375, -0.5, 1.0)
  }

  function Cubic(expo: real, x: real): real {
    x * (1.0 - expo) + expo * x * x * x
  }

  function DesiredThrottle(throttleControl: int, throttleMiddle: real, hover: real, throttleMid: int): real {
    var middle := if throttleMiddle <= 0.0 then hover else throttleMiddle;
    Cubic(Expo(middle), StickFraction(throttleControl, MidStick(throttleMid)))
  }

  // ---- the stick ----------------------------------------------------------------------------

  lemma QuotientOrder(n1: real, n2: real, d: real)
    requires d > 0.0 && n1 <= n2
    ensures n1 / d <= n2 / d
  {
    var q1, q2 := n1 / d, n2 / d;
    assert q1 * d == n1 && q2 * d == n2;
    if q1 > q2 { MulPositive(q1 - q2, d); }
  }

  lemma LowerHalf(control: int, mid: int)
    requires 0 <= control < mid
    ensures 0.0 <= (control as real) * 0.5 / (mid as real) <= 0.5
  {
    var n, d := (control as real) * 0.5, mid as real;
    QuotientOrder(0.0, n, d);
    QuotientOrder(n, 0.5 * d, d);
    QuotientUnique(0.0, d, 0.0);
    QuotientUnique(0.5 * d, d, 0.5);
  }

  lemma StickInUnit(throttleControl: int, mid: int)
    requires mid > 0
    ensures 0.0 <= StickFraction(throttleControl, mid) <= 1.0
    ensures var control := ConstrainInt(throttleControl, 0, 1000);
            && (control < mid ==> StickFraction(throttleControl, mid) <= 0.5)
            && (control > mid ==> StickFraction(throttleControl, mid) >= 0.5)
  {
    var control := ConstrainInt(throttleControl, 0, 1000);
    if control < mid {
      LowerHalf(control, mid);
    } else if control > mid {
      var n, d := ((control - mid) as real) * 0.5, (1000 - mid) as real;
      QuotientOrder(0.0, n, d);
      QuotientOrder(n, 0.5 * d, d);
      QuotientUnique(0.0, d, 0.0);
      QuotientUnique(0.5 * d, d, 0.5);
    }
  }

  lemma StickMonotone(c1: int, c2: int, mid: int)
    requires mid > 0 && c1 <= c2
    ensures StickFraction(c1, mid) <= StickFraction(c2, mid)
  {
    StickInUnit(c1, mid);
    StickInUnit(c2, mid);
    var x1, x2 := ConstrainInt(c1, 0, 1000), ConstrainInt(c2, 0, 1000);
    if x2 < mid {
      QuotientOrder((x1 as real) * 0.5, (x2 as real) * 0.5, mid as real);
    } else if x1 > mid {
      QuotientOrder(((x1 - mid) as real) * 0.5, ((x2 - mid) as real) * 0.5, (1000 - mid) as real);
    }
  }

  /**
   In linear parts on either side of the mid position, which is 500 unless one is set; readings are
   held within 0..1000.
   */
  lemma StickIsLinear(control: int, throttleMid: int)
    ensures var mid := if throttleMid > 0 then throttleMid else 500;
            var x := StickFraction(control, MidStick(throttleMid));
            && (control < 0 ==> x == StickFraction(0, mid)) && (control > 1000 ==> x == StickFraction(1000, mid))
            && (0 <= control <= 1000 && control <= mid ==> x * (2 * mid) as real == control as real)
            && (control <= 1000 && mid < control ==> (x - 0.5) * (2 * (1000 - mid)) as real == (control - mid) as real)
  {
    var mid := MidStick(throttleMid);
    if 0 <= control <= 1000 {
      if control < mid { BelowMid(control, mid); }
      if control > mid { AboveMid(control, mid); }
    }
  }

  lemma BelowMid(control: int, mid: int)
    requires 0 <= control <= 1000 && control < mid
    ensures StickFraction(control, mid) * (2 * mid) as real == control as real
  {
    HalfQuotient(control as real, mid as real);
  }

  lemma AboveMid(control: int, mid: int)
    requires 0 < mid < control <= 1000
    ensures (StickFraction(control, mid) - 0.5) * (2 * (1000 - mid)) as real == (control - mid) as real
  {
    HalfQuotient((control - mid) as real, (1000 - mid) as real);
  }

  lemma HalfQuotient(n: real, d: real)
    requires d != 0.0
    ensures (n * 0.5 / d) * (2.0 * d) == n
  {
    var q := n * 0.5 / d;
    assert q * d == n * 0.5;
  }

  // ---- the cubic ----------------------------------------------------------------------------

  /** Difference of two values of the cubic, factored. */
  lemma CubicDifference(expo: real, x: real, y: real)
    ensures Cubic(expo, y) - Cubic(expo, x) == (y - x) * ((1.0 - expo) + expo * (y * y + y * x + x * x))
  {
    var square := y * y + y * x + x * x;
    assert (y - x) * square == y * y * y - x * x * x by {
      assert (y - x) * square == (y - x) * (y * y) + (y - x) * (y * x) + (y - x) * (x * x);
    }
    assert expo * ((y - x) * square) == expo * (y * y * y) - expo * (x * x * x);
    assert (y - x) * ((1.0 - expo) + expo * square) == (y - x) * (1.0 - expo) + expo * ((y - x) * square) by {
      var d, e, s := y - x, 1.0 - expo, expo * square;
      assert d * (e + s) == d * e + d * s;
    }
    assert expo * y * y * y == expo * (y * y * y) && expo * x * x * x == expo * (x * x * x);
  }

  ghost predicate MonotoneOnUnit(expo: real) {
    forall x, y :: 0.0 <= x <= y <= 1.0 ==> Cubic(expo, x) <= Cubic(expo, y)
  }

  lemma SquareSum(x: real, y: real)
    requires 0.0 <= x <= y <= 1.0
    ensures 0.0 <= y * y + y * x + x * x <= 3.0
  {
    var yy, yx, xx := y * y, y * x, x * x;
    MulNonNegative(y, y);
    MulNonNegative(y, x);
    MulNonNegative(x, x);
    var gap, rest := 1.0 - y, 1.0 - x;
    MulNonNegative(gap, y);
    MulNonNegative(gap, x);
    MulNonNegative(rest, x);
    assert gap * y == y - yy && gap * x == x - yx && rest * x == x - xx;
  }

  lemma SlopeNonNegative(expo: real, square: real)
    requires -0.5 <= expo <= 1.0 && 0.0 <= square <= 3.0
    ensures (1.0 - expo) + expo * square >= 0.0
  {
    if expo >= 0.0 {
      MulNonNegative(expo, square);
    } else {
      var m, gap := -expo, 3.0 - square;
      MulNonNegative(m, gap);
      assert m * gap == expo * square - 3.0 * expo;
    }
  }

  lemma CubicIncreases(expo: real, x: real, y: real)
    requires -0.5 <= expo <= 1.0 && 0.0 <= x <= y <= 1.0
    ensures Cubic(expo, x) <= Cubic(expo, y)
  {
    CubicDifference(expo, x, y);
    var square := y * y + y * x + x * x;
    SquareSum(x, y);
    SlopeNonNegative(expo, square);
    var slope := (1.0 - expo) + expo * square;
    MulNonNegative(y - x, slope);
  }

  /** The clamp of the exponent to -0.5..1 is exactly what a monotone curve needs. */
  lemma MonotoneExactlyInClampRange(expo: real)
    ensures MonotoneOnUnit(expo) <==> -0.5 <= expo <= 1.0
  {
    if -0.5 <= expo <= 1.0 {
      forall x, y | 0.0 <= x <= y <= 1.0 ensures Cubic(expo, x) <= Cubic(expo, y) {
        CubicIncreases(expo, x, y);
      }
    } else if expo < -0.5 {
      TopTurnsDown(expo);
    } else {
      BottomTurnsDown(expo);
    }
  }

  /** Below -0.5 the curve falls just before full stick. */
  lemma TopTurnsDown(expo: real)
    requires expo < -0.5
    ensures !MonotoneOnUnit(expo)
  {
    var m := -expo;
    var h := if m > 1.0 then 1.0 / 6.0 else (2.0 * m - 1.0) / 6.0;
    var x := 1.0 - h;
    CubicDifference(expo, x, 1.0);
    TopSlope(m, h);
    var square := 1.0 * 1.0 + 1.0 * x + x * x;
    assert square == 3.0 - 3.0 * h + h * h;
    var slope := (1.0 - expo) + expo * square;
    assert slope == (1.0 + m) - m * (3.0 - 3.0 * h + h * h);
    var fall, drop := -slope, h * -slope;
    MulPositive(h, fall);
    assert (1.0 - x) * slope == -drop;
    assert drop > 0.0;
    assert Cubic(expo, 1.0) - Cubic(expo, x) == -drop;
  }

  /** The slope from 1 - h to full stick, negative once h is small. */
  lemma TopSlope(m: real, h: real)
    requires m > 0.5
    requires h == if m > 1.0 then 1.0 / 6.0 else (2.0 * m - 1.0) / 6.0
    ensures (1.0 + m) - m * (3.0 - 3.0 * h + h * h) < 0.0
  {
    MulNonNegative(h, h);
    var square := 3.0 - 3.0 * h + h * h;
    MulOrder(3.0 - 3.0 * h, square, m);
    assert square * m == m * (3.0 - 3.0 * h + h * h);
    var hm := h * m;
    assert (3.0 - 3.0 * h) * m == 3.0 * m - 3.0 * hm;
    if m <= 1.0 {
      MulOrder(m, 1.0, h);
    }
  }

  /** Above 1 the curve falls from zero stick. */
  lemma BottomTurnsDown(expo: real)
    requires expo > 1.0
    ensures !MonotoneOnUnit(expo)
  {
    var x := if expo > 2.0 then 0.5 else (expo - 1.0) / 2.0;
    CubicDifference(expo, 0.0, x);
    var slope := (1.0 - expo) + expo * (x * x);
    assert slope < 0.0 by {
      if expo > 2.0 {
        assert x * x == 0.25;
      } else {
        MulOrder(expo, 2.0, x * x);
        MulNonNegative(x, x);
        MulOrder(x, 0.5, x);
        assert expo * (x * x) <= 2.0 * (x * x) <= x;
      }
    }
    MulPositive(x, -slope);
    assert x * slope == -(x * -slope);
    assert Cubic(expo, x) < Cubic(expo, 0.0);
  }

  // ---- the pilot's curve --------------------------------------------------------------------

  /** For every stick, mid position and hover throttle the output is a throttle, and never falls. */
  lemma ThrottleInRangeAndMonotone(c1: int, c2: int, throttleMiddle: real, hover: real, throttleMid: int)
    requires c1 <= c2
    ensures 0.0 <= DesiredThrottle(c1, throttleMiddle, hover, throttleMid)
                <= DesiredThrottle(c2, throttleMiddle, hover, throttleMid) <= 1.0
  {
    var mid := MidStick(throttleMid);
    var expo := Expo(if throttleMiddle <= 0.0 then hover else throttleMiddle);
    StickMonotone(c1, c2, mid);
    StickInUnit(c1, mid);
    StickInUnit(c2, mid);
    CubicIncreases(expo, 0.0, StickFraction(c1, mid));
    CubicIncreases(expo, StickFraction(c1, mid), StickFraction(c2, mid));
    CubicIncreases(expo, StickFraction(c2, mid), 1.0);
    assert Cubic(expo, 0.0) == 0.0 && Cubic(expo, 1.0) == 1.0;
  }

  /** The stick's ends are the ends of the curve, unless mid stick is at or past the top. */
  lemma StickEnds(mid: int)
    requires mid > 0
    ensures StickFraction(0, mid) == 0.0
    ensures StickFraction(1000, mid) == 1.0 <==> mid < 1000
  {
    QuotientUnique(0.0, mid as real, 0.0);
    StickInUnit(1000, mid);
    if mid < 1000 {
      var d := (1000 - mid) as real;
      QuotientUnique(0.5 * d, d, 0.5);
    }
  }

  /** Up to mid stick, or anywhere when mid stick is at the top, the throttle is at most 0.6875. */
  lemma LowerHalfStaysLow(throttleControl: int, throttleMiddle: real, hover: real, throttleMid: int)
    requires throttleControl <= MidStick(throttleMid) || MidStick(throttleMid) >= 1000
    ensures DesiredThrottle(throttleControl, throttleMiddle, hover, throttleMid) <= 0.6875
  {
    var mid := MidStick(throttleMid);
    var expo := Expo(if throttleMiddle <= 0.0 then hover else throttleMiddle);
    StickInUnit(throttleControl, mid);
    CubicIncreases(expo, StickFraction(throttleControl, mid), 0.5);
    assert expo * 0.5 * 0.5 * 0.5 == 0.125 * expo;
  }

  /**
   Mid stick gives the middle throttle, the one given or else the hover throttle, exactly when that
   lies in 0.125..0.6875.
   */
  lemma MidStickGivesMiddle(throttleMiddle: real, hover: real, throttleMid: int)
    requires MidStick(throttleMid) <= 1000
    ensures var middle := if throttleMiddle <= 0.0 then hover else throttleMiddle;
            DesiredThrottle(MidStick(throttleMid), throttleMiddle, hover, throttleMid) == middle
            <==> 0.125 <= middle <= 0.6875
  {
    var expo := Expo(if throttleMiddle <= 0.0 then hover else throttleMiddle);
    assert expo * 0.5 * 0.5 * 0.5 == 0.125 * expo;
    assert Cubic(expo, 0.5) == 0.5 - 0.375 * expo;
  }
}
