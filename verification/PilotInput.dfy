/**
 Mode::get_pilot_desired_steering_and_throttle, ModeManual::update and ModeHold::update: how the
 sticks become a demand, and which way the wheels end up turning the vehicle.
 */
module PilotInput {
  import opened ArduMath
  import opened SkidMixer
  import Motors

  /** Steering and throttle channels, both as control_in and as the normalised paddle input. */
  datatype Sticks = Sticks(steerIn: int, throttleIn: int, leftPaddle: real, rightPaddle: real)

  datatype Demand = Demand(steering: real, throttle: real)

  const TWO_PADDLES := 1
  const DIR_UNCHANGED_WHEN_REVERSING := 3

  /** Any other PILOT_STEER_TYPE behaves as the default. */
  function PilotDemand(throttleFailsafe: bool, steerType: int, sticks: Sticks): Demand {
    if throttleFailsafe then Demand(0.0, 0.0)
    else if steerType == TWO_PADDLES then
      var throttle := 0.5 * (sticks.leftPaddle + sticks.rightPaddle) * 100.0;
      var turn := (sticks.leftPaddle - sticks.rightPaddle) * 4500.0;
      Demand(if IsNegative(throttle) then -turn else turn, throttle)
    else if steerType == DIR_UNCHANGED_WHEN_REVERSING then
      var throttle := sticks.throttleIn as real;
      Demand(if IsNegative(throttle) then -(sticks.steerIn as real) else sticks.steerIn as real, throttle)
    else
      Demand(sticks.steerIn as real, sticks.throttleIn as real)
  }

  /** The turn the pilot asks for: +1 right, -1 left, given the direction of travel. */
  function IntendedTurn(steerType: int, sticks: Sticks, travel: int): int {
    if steerType == TWO_PADDLES then Sign(sticks.leftPaddle - sticks.rightPaddle)
    else if steerType == DIR_UNCHANGED_WHEN_REVERSING then Sign(sticks.steerIn as real)
    else travel * Sign(sticks.steerIn as real)
  }

  function AfterManual(s: Motors.State, d: Demand): Motors.State {
    Motors.AfterSetSteering(Motors.AfterSetThrottle(s, d.throttle), d.steering)
  }

  /** ModeManual::update; the result is the new reverse flag of the vehicle. */
  method ManualUpdate(motors: Motors.MotorsUGV, throttleFailsafe: bool, steerType: int, sticks: Sticks)
    returns (reverse: bool)
    modifies motors
    ensures motors.Abstract() == AfterManual(old(motors.Abstract()), PilotDemand(throttleFailsafe, steerType, sticks))
    ensures 0 <= motors.throttleMin <= 20 && 30 <= motors.throttleMax <= 100
    ensures motors.pins == old(motors.pins)
    ensures reverse == IsNegative(motors.throttle)
    ensures !throttleFailsafe && steerType != TWO_PADDLES ==>
              motors.throttle == Motors.Request(motors.throttleMin, motors.throttleMax, sticks.throttleIn as real)
  {
    var demand := PilotDemand(throttleFailsafe, steerType, sticks);
    motors.SetThrottle(demand.throttle);
    motors.SetSteering(demand.steering);
    reverse := IsNegative(motors.throttle);
  }

  /** ModeHold::update asks for no throttle and no steering, and never reverses. */
  method HoldUpdate(motors: Motors.MotorsUGV) returns (reverse: bool)
    modifies motors
    ensures motors.Abstract() == AfterManual(old(motors.Abstract()), Demand(0.0, 0.0))
    ensures motors.pins == old(motors.pins)
    ensures !reverse
  {
    motors.SetThrottle(0.0);
    motors.SetSteering(0.0);
    reverse := false;
  }

  /**
   With one stick each for steering and throttle, the motors are asked for the throttle stick's
   percentage and the steering stick's angle, mirrored only by the type that does so in reverse.
   */
  lemma SticksAreRequested(s: Motors.State, steerType: int, sticks: Sticks)
    requires steerType != 1
    requires Abs(sticks.steerIn as real) <= 4500.0
    ensures var after := AfterManual(s, PilotDemand(false, steerType, sticks));
            && after.throttle == Motors.Request(Motors.SaneMin(s.throttleMin), Motors.SaneMax(s.throttleMax),
                                                sticks.throttleIn as real)
            && after.steering == (if steerType == 3 && sticks.throttleIn < 0 then -(sticks.steerIn as real)
                                  else sticks.steerIn as real)
            && after.throttlePrev == s.throttlePrev
  {}

  /** With two paddles the motors are asked for the paddles' mean. */
  lemma PaddleMeanIsRequested(s: Motors.State, sticks: Sticks)
    ensures AfterManual(s, PilotDemand(false, 1, sticks)).throttle ==
            Motors.Request(Motors.SaneMin(s.throttleMin), Motors.SaneMax(s.throttleMax),
                           100.0 * ((sticks.leftPaddle + sticks.rightPaddle) / 2.0))
  {}

  /**
   A throttle stick held outside the THR_MIN band and inside THR_MAX is reached exactly, within one
   iteration for each percent the throttle has to change.
   */
  lemma HeldStickIsReached(cfg: Motors.Config, s: Motors.State, steerType: int, sticks: Sticks, armed: bool, dts: seq<real>)
    requires steerType != 1
    requires Motors.SaneMin(s.throttleMin) as real <= Abs(sticks.throttleIn as real) <= Motors.SaneMax(s.throttleMax) as real
    requires |dts| as real >= Abs((sticks.throttleIn as real) - s.throttlePrev)
    ensures Motors.Settle(cfg, s, PilotDemand(false, steerType, sticks).throttle, armed, dts).throttlePrev
            == sticks.throttleIn as real
  {
    Motors.SlewConverges(cfg, s, PilotDemand(false, steerType, sticks).throttle, armed, dts);
  }

  /** Unsaturated sticks: the motors' mean is the throttle stick, half their difference the steering stick. */
  lemma SticksSetTheMotors(steerType: int, sticks: Sticks)
    requires steerType != 1
    requires Abs(sticks.steerIn as real) / 4500.0 + Abs(sticks.throttleIn as real) / 100.0 <= 1.0
    ensures var d := PilotDemand(false, steerType, sticks);
            var m := Mixed(d.steering, d.throttle);
            && (m.left + m.right) / 2.0 == (sticks.throttleIn as real) / 100.0
            && Abs(m.left - m.right) / 2.0 == Abs(sticks.steerIn as real) / 4500.0
  {
    var d := PilotDemand(false, steerType, sticks);
    MixRecoversDemand(d.steering, d.throttle);
  }

  /**
   Losing the radio in Manual, or being put in Hold, does not stop a vehicle with a THR_MIN: however
   it was driving, the throttle settles at THR_MIN forward, within one iteration for each percent it
   has to change.
   */
  lemma NoDemandSettlesAtMinimum(cfg: Motors.Config, s: Motors.State, steerType: int, sticks: Sticks,
                                 armed: bool, dts: seq<real>)
    requires |dts| as real >= Abs((Motors.SaneMin(s.throttleMin) as real) - s.throttlePrev)
    ensures PilotDemand(true, steerType, sticks) == Demand(0.0, 0.0)
    ensures Motors.Settle(cfg, s, 0.0, armed, dts).throttlePrev == Motors.SaneMin(s.throttleMin) as real
  {
    Motors.SlewConverges(cfg, s, 0.0, armed, dts);
  }

  /** What the mixer of a manual iteration sees: state after the update and an armed output. */
  function ManualIteration(cfg: Motors.Config, s: Motors.State, d: Demand, dt: real): Motors.State {
    Motors.AfterOutput(cfg, AfterManual(s, d), true, dt)
  }

  function Travel(s: Motors.State): int {
    TravelDirection(MixerThrottle(s.steering, s.throttle))
  }

  // ---- which way the mixer takes the vehicle to be travelling -------------------------------

  /** The mixer's direction test, as a test on the throttle it is given. */
  predicate LooksBackward(steering: real, throttle: real) {
    throttle <= -100.0 * FLT_EPSILON * Max(1.0, Saturation(steering, throttle))
  }

  lemma FittedThrottleTest(steering: real, throttle: real)
    ensures IsNegative(MixerThrottle(steering, throttle)) <==> LooksBackward(steering, throttle)
    ensures 1.0 <= Max(1.0, Saturation(steering, throttle)) <= 2.0
  {
    var t, sat := ThrottleFraction(throttle), Saturation(steering, throttle);
    FitIsProportional(t, sat);
    if sat > 1.0 {
      FitTest(t, sat);
    }
  }

  lemma FitTest(x: real, saturation: real)
    requires saturation > 1.0
    ensures IsNegative(Fit(x, saturation)) <==> x <= -FLT_EPSILON * saturation
  {
    var q := x / saturation;
    assert q * saturation == x;
    if q <= -FLT_EPSILON { MulOrder(q, -FLT_EPSILON, saturation); }
    if q > -FLT_EPSILON { MulPositive(q + FLT_EPSILON, saturation); }
  }

  /** Backward by the pilot's test, but too little by the mixer's, which sees a hundredth of it. */
  predicate InSliver(steering: real, throttle: real) {
    IsNegative(throttle) && !LooksBackward(steering, throttle)
  }

  /** The throttle a manual iteration asks for, and the most one output may change it by. */
  function Requested(s: Motors.State, d: Demand): real {
    Motors.Request(Motors.SaneMin(s.throttleMin), Motors.SaneMax(s.throttleMax), d.throttle)
  }

  function Step(cfg: Motors.Config, s: Motors.State, dt: real): real {
    Motors.StepSize(cfg.slewRate, Motors.SaneMax(s.throttleMax) - Motors.SaneMin(s.throttleMin), dt)
  }

  function Steered(d: Demand): real {
    Constrain(d.steering, -4500.0, 4500.0)
  }

  predicate HeldAbove(cfg: Motors.Config, s: Motors.State, d: Demand, dt: real) {
    cfg.slewRate > 0 && Requested(s, d) < s.throttlePrev - Step(cfg, s, dt)
  }

  predicate HeldBelow(cfg: Motors.Config, s: Motors.State, d: Demand, dt: real) {
    cfg.slewRate > 0 && Requested(s, d) > s.throttlePrev + Step(cfg, s, dt)
  }

  /**
   Decided before the iteration: the slew limiter leaves the throttle on the demand's side of the
   mixer's test, and where it does not limit, the demand is not in the sliver between the two tests.
   */
  predicate JudgedAlike(cfg: Motors.Config, s: Motors.State, d: Demand, dt: real) {
    if HeldAbove(cfg, s, d, dt) then
      IsNegative(d.throttle) ==> LooksBackward(Steered(d), s.throttlePrev - Step(cfg, s, dt))
    else if HeldBelow(cfg, s, d, dt) then
      IsNegative(d.throttle) <==> LooksBackward(Steered(d), s.throttlePrev + Step(cfg, s, dt))
    else
      Motors.SaneMin(s.throttleMin) > 0 || !InSliver(Steered(d), d.throttle)
  }

  /** For any demand, slew rate and THR_MIN: when pilot decode and mixer agree on the direction. */
  lemma JudgementsAgree(cfg: Motors.Config, s: Motors.State, d: Demand, dt: real)
    ensures TravelDirection(d.throttle) == Travel(ManualIteration(cfg, s, d, dt))
       <==> JudgedAlike(cfg, s, d, dt)
  {
    var after := ManualIteration(cfg, s, d, dt);
    FittedThrottleTest(after.steering, after.throttle);
    FittedThrottleTest(after.steering, d.throttle);
  }

  // ---- from sticks to wheels ----------------------------------------------------------------

  /** What the wheels do: the sign of left minus right. */
  function DrivenTurn(cfg: Motors.Config, p: Motors.Pins): int
    requires cfg.HaveSkidSteering() && p.left.Scaled? && p.right.Scaled?
  {
    Sign(Motors.Observed(cfg, p, Motors.ThrottleLeft) - Motors.Observed(cfg, p, Motors.ThrottleRight))
  }

  /**
   The difference of the two motors has the sign of the intended turn, under any THR_MIN, slew rate
   and thrust curve, exactly unless a type that compensates for reversing judged the direction of
   travel differently from the mixer.
   */
  lemma TurnSurvivesTheChain(cfg: Motors.Config, sqrt: real -> real, s: Motors.State, pins: Motors.Pins,
                             steerType: int, sticks: Sticks, dt: real)
    requires cfg.HaveSkidSteering() && IsSqrtFunction(sqrt)
    ensures var d := PilotDemand(false, steerType, sticks);
            var after := ManualIteration(cfg, s, d, dt);
            var p := Motors.AllDriven(cfg, sqrt, pins, true, after.steering, after.throttle);
            var intended := IntendedTurn(steerType, sticks, Travel(after));
            && p.left.Scaled? && p.right.Scaled?
            && (Motors.RelaysFaithful(cfg, sqrt, after.steering, after.throttle) ==>
                  (DrivenTurn(cfg, p) == intended
                   <==> intended == 0
                        || steerType !in {TWO_PADDLES, DIR_UNCHANGED_WHEN_REVERSING}
                        || JudgedAlike(cfg, s, d, dt)))
  {
    var d := PilotDemand(false, steerType, sticks);
    var after := ManualIteration(cfg, s, d, dt);
    var regular := Motors.RegularDriven(cfg, sqrt, pins, true, after.steering, after.throttle);
    Motors.SkidOutputTurnsAsSteered(cfg, sqrt, regular, after.steering, after.throttle);
    JudgementsAgree(cfg, s, d, dt);
    assert Sign(after.steering) == Sign(d.steering);
    assert Sign(d.steering) == IntendedTurn(steerType, sticks, 1) *
           (if steerType in {TWO_PADDLES, DIR_UNCHANGED_WHEN_REVERSING} then TravelDirection(d.throttle) else 1);
  }

  // ---- demands a radio can make -------------------------------------------------------------

  /** RC_Channel::norm_input for a pulse, given the channel's calibration. */
  datatype Radio = Radio(pulse: int, low: int, trim: int, high: int, reversed: bool)
  {
    /** The documented range of the three calibration parameters. */
    predicate Calibrated() {
      800 <= low <= 2200 && 800 <= trim <= 2200 && 800 <= high <= 2200
    }

    function Span(): int {
      if pulse < trim then trim - low else high - trim
    }

    function Norm(): real {
      if Span() <= 0 then 0.0
      else Constrain(Oriented(reversed, (pulse - trim) as real) / (Span() as real), -1.0, 1.0)
    }
  }

  /**
   A paddle is the pulse's distance from trim as a share of that side's range, mirrored for a reversed
   channel, held at full scale beyond the range, and nothing on a side without a range.
   */
  lemma PaddleMeasuresPulse(radio: Radio)
    ensures var offset := Oriented(radio.reversed, (radio.pulse - radio.trim) as real);
            var range := (if radio.pulse < radio.trim then radio.trim - radio.low else radio.high - radio.trim) as real;
            && (range <= 0.0 ==> radio.Norm() == 0.0)
            && (range > 0.0 && radio.low <= radio.pulse <= radio.high ==> radio.Norm() * range == offset)
            && (range > 0.0 && Abs(offset) > range ==> Abs(radio.Norm()) == 1.0 && Sign(radio.Norm()) == Sign(offset))
  {
    if radio.Span() > 0 {
      ClampedRatio(Oriented(radio.reversed, (radio.pulse - radio.trim) as real), radio.Span() as real);
    }
  }

  lemma ClampedRatio(offset: real, range: real)
    requires range > 0.0
    ensures var x := Constrain(offset / range, -1.0, 1.0);
            && (Abs(offset) <= range ==> x * range == offset)
            && (Abs(offset) > range ==> Abs(x) == 1.0 && Sign(x) == Sign(offset))
  {
    var ratio := offset / range;
    assert ratio * range == offset;
    if ratio > 1.0 {
      MulPositive(ratio - 1.0, range);
    } else if ratio < -1.0 {
      MulPositive(-1.0 - ratio, range);
    } else {
      MulNonNegative(1.0 - ratio, range);
      MulNonNegative(ratio + 1.0, range);
    }
  }

  /** Forward, or backward by enough for both tests. */
  predicate Clear(throttle: real) {
    throttle >= 0.0 || throttle <= -200.0 * FLT_EPSILON
  }

  /** The slewed throttle is not still on the wrong side of the direction test. */
  predicate SlewKeepsDirection(cfg: Motors.Config, s: Motors.State, d: Demand, dt: real) {
    && (HeldAbove(cfg, s, d, dt) && d.throttle < 0.0 ==> LooksBackward(Steered(d), s.throttlePrev - Step(cfg, s, dt)))
    && (HeldBelow(cfg, s, d, dt) && d.throttle >= 0.0 ==> !LooksBackward(Steered(d), s.throttlePrev + Step(cfg, s, dt)))
  }

  lemma ClearDemandsAgree(cfg: Motors.Config, s: Motors.State, d: Demand, dt: real)
    requires Clear(d.throttle)
    ensures TravelDirection(d.throttle) == Travel(ManualIteration(cfg, s, d, dt))
       <==> SlewKeepsDirection(cfg, s, d, dt)
  {
    JudgementsAgree(cfg, s, d, dt);
    FittedThrottleTest(Steered(d), d.throttle);
    FittedThrottleTest(Steered(d), s.throttlePrev + Step(cfg, s, dt));
  }

  /** Stick throttles are whole percentages: only slewing can make the judgements differ. */
  lemma SticksAgreeOnTravel(cfg: Motors.Config, s: Motors.State, steerType: int, sticks: Sticks, dt: real)
    requires steerType != TWO_PADDLES
    ensures var d := PilotDemand(false, steerType, sticks);
            TravelDirection(d.throttle) == Travel(ManualIteration(cfg, s, d, dt))
            <==> SlewKeepsDirection(cfg, s, d, dt)
  {
    ClearDemandsAgree(cfg, s, PilotDemand(false, steerType, sticks), dt);
  }

  /** A paddle is a quotient with a denominator of at most 1400. */
  lemma PaddleIsQuotient(radio: Radio) returns (n: int, d: int)
    requires radio.Calibrated()
    ensures 0 < d <= 1400 && radio.Norm() * (d as real) == n as real
  {
    if radio.Span() <= 0 {
      n, d := 0, 1;
    } else {
      var offset, span := Oriented(radio.reversed, (radio.pulse - radio.trim) as real), radio.Span() as real;
      var ratio := offset / span;
      assert ratio * span == offset;
      d := radio.Span();
      n := if ratio > 1.0 then d else if ratio < -1.0 then -d
           else if radio.reversed then radio.trim - radio.pulse else radio.pulse - radio.trim;
    }
  }

  /** So the mean of two calibrated paddles is never in the sliver. */
  lemma PaddlesAreClear(left: Radio, right: Radio)
    requires left.Calibrated() && right.Calibrated()
    ensures Clear(0.5 * (left.Norm() + right.Norm()) * 100.0)
  {
    var n1, d1 := PaddleIsQuotient(left);
    var n2, d2 := PaddleIsQuotient(right);
    SumOfQuotients(left.Norm(), n1, d1, right.Norm(), n2, d2);
  }

  lemma SumOfQuotients(x: real, n1: int, d1: int, y: real, n2: int, d2: int)
    requires 0 < d1 <= 1400 && 0 < d2 <= 1400
    requires x * (d1 as real) == n1 as real && y * (d2 as real) == n2 as real
    ensures x + y >= 0.0 || x + y <= -1.0 / 1960000.0
  {
    var r1, r2, sum := d1 as real, d2 as real, x + y;
    var product := r1 * r2;
    var n := n1 * d2 + n2 * d1;
    assert n as real == sum * product by {
      assert (n1 * d2) as real == (x * r1) * r2 && (n2 * d1) as real == (y * r2) * r1;
    }
    MulPositive(r1, r2);
    MulOrder(r1, 1400.0, r2);
    assert product <= 1960000.0;
    if sum < 0.0 {
      var m := -sum;
      MulPositive(m, product);
      assert n <= -1;
      MulOrder(product, 1960000.0, m);
    }
  }

  /** With calibrated paddles, too, only slewing can make the judgements differ. */
  lemma PaddlesAgreeOnTravel(cfg: Motors.Config, s: Motors.State, left: Radio, right: Radio, dt: real)
    requires left.Calibrated() && right.Calibrated()
    ensures var d := PilotDemand(false, TWO_PADDLES, Sticks(0, 0, left.Norm(), right.Norm()));
            TravelDirection(d.throttle) == Travel(ManualIteration(cfg, s, d, dt))
            <==> SlewKeepsDirection(cfg, s, d, dt)
  {
    PaddlesAreClear(left, right);
    ClearDemandsAgree(cfg, s, PilotDemand(false, TWO_PADDLES, Sticks(0, 0, left.Norm(), right.Norm())), dt);
  }

  /** With no saturation the motors' mean is the paddles' mean, and their difference twice the paddles'. */
  lemma PaddlesSetTheMotors(sticks: Sticks)
    requires Abs(sticks.leftPaddle - sticks.rightPaddle) + Abs(sticks.leftPaddle + sticks.rightPaddle) / 2.0 <= 1.0
    ensures var d := PilotDemand(false, TWO_PADDLES, sticks);
            var m := Mixed(d.steering, d.throttle);
            && m.left + m.right == sticks.leftPaddle + sticks.rightPaddle
            && Abs(m.left - m.right) == 2.0 * Abs(sticks.leftPaddle - sticks.rightPaddle)
  {
    var d := PilotDemand(false, TWO_PADDLES, sticks);
    MixRecoversDemand(d.steering, d.throttle);
  }

  // ---- how long a reversal stays wrong ------------------------------------------------------

  /** The same sticks held for n iterations of equal length. */
  function HeldSticks(cfg: Motors.Config, s: Motors.State, d: Demand, dt: real, n: nat): Motors.State {
    if n == 0 then s else ManualIteration(cfg, HeldSticks(cfg, s, d, dt, n - 1), d, dt)
  }

  /** One slewed iteration toward a lower request; the next one has the same request and step. */
  lemma OneStepDown(cfg: Motors.Config, s: Motors.State, d: Demand, dt: real)
    requires cfg.slewRate > 0 && Requested(s, d) <= s.throttlePrev
    ensures var s' := ManualIteration(cfg, s, d, dt);
            && s'.throttlePrev == Max(Requested(s, d), s.throttlePrev - Step(cfg, s, dt))
            && Requested(s', d) == Requested(s, d) && Step(cfg, s', dt) == Step(cfg, s, dt)
  {}

  /** What n steps of the given size leave of a throttle on its way down to `low`. */
  function Lowered(low: real, start: real, step: real, n: nat): real {
    if n == 0 then start else Max(low, Lowered(low, start, step, n - 1) - step)
  }

  lemma {:induction false} LoweredInClosedForm(low: real, start: real, step: real, n: nat)
    requires low <= start && step > 0.0
    ensures Lowered(low, start, step, n) == Max(low, start - (n as real) * step)
  {
    if n == 0 {
      assert (n as real) * step == 0.0;
    } else {
      LoweredInClosedForm(low, start, step, n - 1);
      assert (n as real) * step == ((n - 1) as real) * step + step;
    }
  }

  lemma {:induction false} SlewsInEqualSteps(cfg: Motors.Config, s: Motors.State, d: Demand, dt: real, n: nat)
    requires cfg.slewRate > 0 && Requested(s, d) <= s.throttlePrev
    ensures var s' := HeldSticks(cfg, s, d, dt, n);
            && s'.throttlePrev == Lowered(Requested(s, d), s.throttlePrev, Step(cfg, s, dt), n)
            && Requested(s', d) == Requested(s, d) <= s'.throttlePrev && Step(cfg, s', dt) == Step(cfg, s, dt)
  {
    if n == 0 {
    } else {
      SlewsInEqualSteps(cfg, s, d, dt, n - 1);
      OneStepDown(cfg, HeldSticks(cfg, s, d, dt, n - 1), d, dt);
    }
  }

  /**
   Pulling the stick back while driving forward: the judgements differ at exactly those iterations
   that have not yet slewed the throttle through zero, whatever the sticks.
   */
  lemma ReversalIsJudgedLate(cfg: Motors.Config, s: Motors.State, d: Demand, dt: real, step: real, n: nat)
    requires cfg.slewRate > 0 && IsNegative(d.throttle)
    requires Requested(s, d) <= s.throttlePrev && step == Step(cfg, s, dt) && n > 0
    ensures TravelDirection(d.throttle) == Travel(HeldSticks(cfg, s, d, dt, n))
       <==> LooksBackward(Steered(d), Max(Requested(s, d), s.throttlePrev - (n as real) * step))
  {
    var s' := HeldSticks(cfg, s, d, dt, n);
    SlewsInEqualSteps(cfg, s, d, dt, n);
    LoweredInClosedForm(Requested(s, d), s.throttlePrev, step, n);
    assert s'.throttle == s'.throttlePrev && s'.steering == Steered(d);
    FittedThrottleTest(s'.steering, s'.throttle);
  }

  predicate TurnsLeft(cfg: Motors.Config, sqrt: real -> real, s: Motors.State, pins: Motors.Pins)
    requires cfg.HaveSkidSteering()
  {
    var p := Motors.AllDriven(cfg, sqrt, pins, true, s.steering, s.throttle);
    p.left.Scaled? && p.right.Scaled? && DrivenTurn(cfg, p) == -1
  }

  lemma HeldForwardTurnsLeft(cfg: Motors.Config, sqrt: real -> real, s: Motors.State, pins: Motors.Pins, d: Demand)
    requires cfg.HaveSkidSteering() && IsSqrtFunction(sqrt) && cfg.slewRate == 100 && !cfg.relayMode
    requires s.throttleMin == 0 && s.throttleMax == 100 && s.throttlePrev == 50.0
    requires d.throttle <= 0.0 && d.steering < 0.0
    ensures TurnsLeft(cfg, sqrt, ManualIteration(cfg, s, d, 0.02), pins)
  {
    var after := ManualIteration(cfg, s, d, 0.02);
    assert after.throttle == 48.0;
    FittedThrottleTest(after.steering, 48.0);
    var regular := Motors.RegularDriven(cfg, sqrt, pins, true, after.steering, after.throttle);
    Motors.SkidOutputTurnsAsSteered(cfg, sqrt, regular, after.steering, after.throttle);
  }

  /**
   At the default slew rate, fifty times a second: pulling the stick fully back and right from half
   throttle forward turns the vehicle left.
   */
  lemma StickTurnsTheWrongWay(cfg: Motors.Config, sqrt: real -> real, s: Motors.State, pins: Motors.Pins)
    requires cfg.HaveSkidSteering() && IsSqrtFunction(sqrt) && cfg.slewRate == 100 && !cfg.relayMode
    requires s.throttleMin == 0 && s.throttleMax == 100 && s.throttlePrev == 50.0
    ensures var sticks := Sticks(4500, -100, 0.0, 0.0);
            var after := ManualIteration(cfg, s, PilotDemand(false, DIR_UNCHANGED_WHEN_REVERSING, sticks), 0.02);
            IntendedTurn(DIR_UNCHANGED_WHEN_REVERSING, sticks, Travel(after)) == 1 && TurnsLeft(cfg, sqrt, after, pins)
  {
    var d := PilotDemand(false, DIR_UNCHANGED_WHEN_REVERSING, Sticks(4500, -100, 0.0, 0.0));
    HeldForwardTurnsLeft(cfg, sqrt, s, pins, d);
  }

  /** So does pulling the left paddle half way and the right one fully back. */
  lemma PaddlesTurnTheWrongWay(cfg: Motors.Config, sqrt: real -> real, s: Motors.State, pins: Motors.Pins)
    requires cfg.HaveSkidSteering() && IsSqrtFunction(sqrt) && cfg.slewRate == 100 && !cfg.relayMode
    requires s.throttleMin == 0 && s.throttleMax == 100 && s.throttlePrev == 50.0
    ensures var left, right := Radio(1250, 1000, 1500, 2000, false), Radio(1000, 1000, 1500, 2000, false);
            var sticks := Sticks(0, 0, left.Norm(), right.Norm());
            var after := ManualIteration(cfg, s, PilotDemand(false, TWO_PADDLES, sticks), 0.02);
            IntendedTurn(TWO_PADDLES, sticks, Travel(after)) == 1 && TurnsLeft(cfg, sqrt, after, pins)
  {
    var left, right := Radio(1250, 1000, 1500, 2000, false), Radio(1000, 1000, 1500, 2000, false);
    assert left.Norm() == -0.5 && right.Norm() == -1.0;
    HeldForwardTurnsLeft(cfg, sqrt, s, pins, PilotDemand(false, TWO_PADDLES, Sticks(0, 0, -0.5, -1.0)));
  }
}
