/**
 The scalar helpers every vehicle shares: the FLT_EPSILON comparisons, clamping, angle wrapping,
 the guarded square root and the 32-bit millisecond clock. Floats are real numbers here.
 */
module ArduMath {

  const FLT_EPSILON: real := 1.0 / 8388608.0

  predicate IsZero(x: real) {
    -FLT_EPSILON < x < FLT_EPSILON
  }

  predicate IsPositive(x: real) {
    x >= FLT_EPSILON
  }

  predicate IsNegative(x: real) {
    x <= -FLT_EPSILON
  }

  function Abs(x: real): real {
    if x < 0.0 then -x else x
  }

  function Min(x: real, y: real): real {
    if x < y then x else y
  }

  function Max(x: real, y: real): real {
    if x > y then x else y
  }

  function Sign(x: real): int {
    if x > 0.0 then 1 else if x < 0.0 then -1 else 0
  }

  function Constrain(x: real, lo: real, hi: real): real {
    if x < lo then lo else if x > hi then hi else x
  }

  function ConstrainInt(x: int, lo: int, hi: int): int {
    if x < lo then lo else if x > hi then hi else x
  }

  /** A float stored into an integer variable: truncation toward zero. */
  function Truncate(x: real): int {
    if x < 0.0 then -(-x).Floor else x.Floor
  }

  /** What safe_sqrt returns: the root, or zero for a negative argument. */
  ghost predicate IsSafeSqrt(v: real, root: real) {
    if v < 0.0 then root == 0.0 else root >= 0.0 && root * root == v
  }

  /** A square root usable at every argument. */
  ghost predicate IsSqrtFunction(sqrt: real -> real) {
    forall v {:trigger IsSafeSqrt(v, sqrt(v))} :: IsSafeSqrt(v, sqrt(v))
  }

  lemma MulPositive(x: real, y: real)
    requires x > 0.0 && y > 0.0
    ensures x * y > 0.0
  {}

  lemma MulNonNegative(x: real, y: real)
    requires x >= 0.0 && y >= 0.0
    ensures x * y >= 0.0
  {}

  lemma MulOrder(x: real, y: real, c: real)
    requires x <= y && 0.0 <= c
    ensures x * c <= y * c
  {
    MulNonNegative(y - x, c);
    assert (y - x) * c == y * c - x * c;
  }

  lemma ProductSign(x: real, y: real)
    ensures Sign(x * y) == Sign(x) * Sign(y)
  {
    var ax, ay := Abs(x), Abs(y);
    MulNonNegative(ax, ay);
    if x != 0.0 && y != 0.0 { MulPositive(ax, ay); }
    assert x * y == ax * ay || x * y == -(ax * ay);
  }

  lemma SquareOrder(x: real, y: real)
    requires 0.0 <= y
    requires x * x <= y * y
    ensures x <= y
  {
    assert x * x - y * y == (x - y) * (x - y) + 2.0 * ((x - y) * y);
    if x > y {
      MulPositive(x - y, x - y);
      MulNonNegative(x - y, y);
    }
  }

  /** Where a quotient lies, read off its numerator. */
  lemma QuotientInUnit(n: real, d: real)
    requires (d > 0.0 && 0.0 <= n <= d) || (d < 0.0 && d <= n <= 0.0)
    ensures 0.0 <= n / d <= 1.0
  {
    var q := n / d;
    assert q * d == n;
    if d > 0.0 {
      if q < 0.0 { MulPositive(-q, d); }
      if q > 1.0 { MulPositive(q - 1.0, d); }
    } else {
      if q < 0.0 { MulPositive(-q, -d); }
      if q > 1.0 { MulPositive(q - 1.0, -d); }
    }
  }

  lemma QuotientUnique(n: real, d: real, q: real)
    requires d != 0.0 && q * d == n
    ensures n / d == q
  {
    var q' := n / d;
    assert (q' - q) * d == 0.0;
  }

  // ---- centidegree wrapping -----------------------------------------------------------------

  /** fmodf followed by the correction that makes the result non-negative. */
  function Wrap360(angle: real): (r: real)
    ensures 0.0 <= r < 36000.0
  {
    var quotient := angle / 36000.0;
    var remainder := angle - 36000.0 * (Truncate(quotient) as real);
    if remainder < 0.0 then remainder + 36000.0 else remainder
  }

  function Wrap180(angle: real): (r: real)
    ensures -18000.0 < r <= 18000.0
  {
    var r := Wrap360(angle);
    if r > 18000.0 then r - 36000.0 else r
  }

  /** Two angles that differ by whole turns. */
  ghost predicate SameHeading(x: real, y: real) {
    exists turns: int :: TurnsApart(x, y, turns)
  }

  predicate TurnsApart(x: real, y: real, turns: int) {
    x == y + 36000.0 * (turns as real)
  }

  lemma WrapKeepsHeading(angle: real)
    ensures SameHeading(Wrap180(angle), angle)
  {
    var q := Truncate(angle / 36000.0);
    var remainder := angle - 36000.0 * (q as real);
    var r360 := Wrap360(angle);
    var turns := if remainder < 0.0 then 1 - q else -q;
    assert r360 == angle + 36000.0 * (turns as real);
    var turns' := if r360 > 18000.0 then turns - 1 else turns;
    assert TurnsApart(Wrap180(angle), angle, turns');
  }

  // ---- the millisecond clock ----------------------------------------------------------------

  /** millis() when `t` milliseconds have really passed. */
  function Clock(t: nat): nat {
    t % 0x1_0000_0000
  }

  /** Unsigned 32-bit subtraction of two clock readings. */
  function Elapsed(now: nat, before: nat): nat {
    (now - before) % 0x1_0000_0000
  }

  /** However often the clock wraps, a measured interval never exceeds the real one. */
  lemma ElapsedNeverOverestimates(before: nat, now: nat)
    requires before <= now
    ensures Elapsed(Clock(now), Clock(before)) == (now - before) % 0x1_0000_0000 <= now - before
  {}
}
