/**
 AP_MotorsUGV: throttle requests, slew limiting with limit flags, and the drive of the steering
 servo and the throttle channels.
 */
module Motors {
  import opened ArduMath
  import opened SkidMixer
  import ThrustCurve

  datatype Channel = Unassigned | Assigned(reversed: bool)

  /** What a servo channel is asked to do. */
  datatype Signal = Scaled(value: real) | ZeroPwm | Trim

  datatype MotorFunction = Throttle | ThrottleLeft | ThrottleRight

  datatype Config = Config(
    slewRate: int, expo: real, relayMode: bool, zeroPwmDisarmed: bool,
    throttle: Channel, left: Channel, right: Channel)
  {
    predicate HaveSkidSteering() {
      left.Assigned? && right.Assigned?
    }

    function ChannelOf(f: MotorFunction): Channel {
      match f
      case Throttle => throttle
      case ThrottleLeft => left
      case ThrottleRight => right
    }

    function DisarmedSignal(): Signal {
      if zeroPwmDisarmed then ZeroPwm else Trim
    }
  }

  datatype Limits = Limits(steerLeft: bool, steerRight: bool, throttleLower: bool, throttleUpper: bool)

  datatype State = State(
    throttleMin: int, throttleMax: int,
    steering: real, throttle: real, throttlePrev: real, limit: Limits)

  datatype Pins = Pins(steering: real, throttle: Signal, left: Signal, right: Signal, relay0: bool, relay1: bool)
  {
    function SignalOf(f: MotorFunction): Signal {
      match f
      case Throttle => throttle
      case ThrottleLeft => left
      case ThrottleRight => right
    }

    function RelayOf(f: MotorFunction): bool {
      if f.ThrottleRight? then relay1 else relay0
    }

    function WithSignal(f: MotorFunction, s: Signal): Pins {
      match f
      case Throttle => this.(throttle := s)
      case ThrottleLeft => this.(left := s)
      case ThrottleRight => this.(right := s)
    }

    function WithRelay(f: MotorFunction, high: bool): Pins {
      if f.ThrottleRight? then this.(relay1 := high) else this.(relay0 := high)
    }
  }

  // ---- specification of the requests and of one output --------------------------------------

  function SaneMin(throttleMin: int): int { ConstrainInt(throttleMin, 0, 20) }

  function SaneMax(throttleMax: int): int { ConstrainInt(throttleMax, 30, 100) }

  /** The throttle kept for a demand: inside the range and outside the dead band around zero. */
  function Request(throttleMin: int, throttleMax: int, demand: real): (r: real)
    requires 0 <= throttleMin <= 20 && 30 <= throttleMax <= 100
    ensures throttleMin as real <= Abs(r) <= throttleMax as real
    ensures throttleMin as real <= Abs(demand) <= throttleMax as real ==> r == demand
    ensures throttleMin > 0 && Abs(demand) < throttleMin as real ==>
              r == if IsNegative(demand) then -(throttleMin as real) else throttleMin as real
    ensures Abs(demand) > throttleMax as real ==> Abs(r) == throttleMax as real && Sign(r) == Sign(demand)
  {
    var lo, hi := throttleMin as real, throttleMax as real;
    var t := Constrain(demand, -hi, hi);
    if throttleMin > 0 && Abs(t) < lo then (if IsNegative(t) then -lo else lo) else t
  }

  /** Largest change of throttle in one output, never below one percent. */
  function StepSize(rate: int, range: int, dt: real): (step: real)
    ensures step >= 1.0
  {
    Max(1.0, (rate as real) * dt * 0.01 * (range as real))
  }

  function SlewStep(cfg: Config, s: State, dt: real): real {
    StepSize(cfg.slewRate, s.throttleMax - s.throttleMin, dt)
  }

  /** The request, pulled to within one step of the previous output when slewing is on. */
  function Slewed(cfg: Config, s: State, dt: real): real {
    if cfg.slewRate <= 0 then s.throttle
    else
      var step := SlewStep(cfg, s, dt);
      Constrain(s.throttle, s.throttlePrev - step, s.throttlePrev + step)
  }

  function AfterSetThrottle(s: State, demand: real): State {
    var lo, hi := SaneMin(s.throttleMin), SaneMax(s.throttleMax);
    s.(throttleMin := lo, throttleMax := hi, throttle := Request(lo, hi, demand))
  }

  function AfterSetSteering(s: State, demand: real): State {
    s.(steering := Constrain(demand, -4500.0, 4500.0))
  }

  /** Limits reached: disarmed, at the end of the range, or held back by the slew limiter. */
  function LimitsReached(s: State, armed: bool, output: real): Limits {
    Limits(
      !armed || s.steering <= -4500.0,
      !armed || s.steering >= 4500.0,
      !armed || s.throttle <= -(s.throttleMax as real) || output > s.throttle,
      !armed || s.throttle >= s.throttleMax as real || output < s.throttle)
  }

  function AfterOutput(cfg: Config, s: State, armed: bool, dt: real): State {
    var output := Slewed(cfg, s, dt);
    s.(throttle := output, throttlePrev := output, limit := LimitsReached(s, armed, output))
  }

  // ---- specification of the drive -----------------------------------------------------------

  /** Left and right throttle are written in tenths of a percent. */
  function PinValue(f: MotorFunction, command: real): real {
    if f.Throttle? then command else 10.0 * command
  }

  function Command(cfg: Config, sqrt: real -> real, throttle: real): real {
    ThrustCurve.ScaledThrottle(sqrt, cfg.expo, throttle)
  }

  /** Pins after one motor is given a command; a relay motor without a channel is left alone. */
  function Driven(cfg: Config, pins: Pins, f: MotorFunction, command: real): Pins {
    if !cfg.relayMode then pins.WithSignal(f, Scaled(PinValue(f, command)))
    else match cfg.ChannelOf(f)
      case Unassigned => pins
      case Assigned(reversed) =>
        var drive := Encode(reversed, command);
        pins.WithRelay(f, drive.relayHigh).WithSignal(f, Scaled(PinValue(f, drive.written)))
  }

  function SkidDriven(cfg: Config, sqrt: real -> real, pins: Pins, armed: bool, steering: real, throttle: real): Pins {
    if !cfg.HaveSkidSteering() then pins
    else if !armed then pins.(left := cfg.DisarmedSignal(), right := cfg.DisarmedSignal())
    else
      var mix := Mixed(steering, throttle);
      var p := Driven(cfg, pins, ThrottleLeft, Command(cfg, sqrt, 100.0 * mix.left));
      Driven(cfg, p, ThrottleRight, Command(cfg, sqrt, 100.0 * mix.right))
  }

  function RegularDriven(cfg: Config, sqrt: real -> real, pins: Pins, armed: bool, steering: real, throttle: real): Pins {
    var p := pins.(steering := steering);
    if armed then Driven(cfg, p, Throttle, Command(cfg, sqrt, throttle))
    else p.(throttle := cfg.DisarmedSignal())
  }

  function AllDriven(cfg: Config, sqrt: real -> real, pins: Pins, armed: bool, steering: real, throttle: real): Pins {
    SkidDriven(cfg, sqrt, RegularDriven(cfg, sqrt, pins, armed, steering, throttle), armed, steering, throttle)
  }

  // ---- the object ---------------------------------------------------------------------------

  class MotorsUGV {
    const cfg: Config
    const sqrt: real -> real
    var throttleMin: int
    var throttleMax: int
    var steering: real
    var throttle: real
    var throttlePrev: real
    var limit: Limits
    var pins: Pins

    function Abstract(): State
      reads this
    {
      State(throttleMin, throttleMax, steering, throttle, throttlePrev, limit)
    }

    constructor (cfg: Config, sqrt: real -> real, throttleMin: int, throttleMax: int)
      ensures this.cfg == cfg && this.sqrt == sqrt
      ensures Abstract() == State(throttleMin, throttleMax, 0.0, 0.0, 0.0, Limits(false, false, false, false))
    {
      this.cfg, this.sqrt := cfg, sqrt;
      this.throttleMin, this.throttleMax := throttleMin, throttleMax;
      steering, throttle, throttlePrev := 0.0, 0.0, 0.0;
      limit := Limits(false, false, false, false);
      pins := Pins(0.0, Trim, Trim, Trim, false, false);
    }

    method SetSteering(demand: real)
      modifies `steering
      ensures Abstract() == AfterSetSteering(old(Abstract()), demand)
    {
      steering := Constrain(demand, -4500.0, 4500.0);
    }

    method SetThrottle(demand: real)
      modifies `throttleMin, `throttleMax, `throttle
      ensures Abstract() == AfterSetThrottle(old(Abstract()), demand)
    {
      throttleMin := ConstrainInt(throttleMin, 0, 20);
      throttleMax := ConstrainInt(throttleMax, 30, 100);
      throttle := Constrain(demand, -(throttleMax as real), throttleMax as real);
      if throttleMin > 0 && Abs(throttle) < throttleMin as real {
        if IsNegative(throttle) {
          throttle := -(throttleMin as real);
        } else {
          throttle := throttleMin as real;
        }
      }
    }

    method Output(armed: bool, softArmed: bool, dt: real)
      modifies `throttle, `throttlePrev, `limit, `pins
      ensures Abstract() == AfterOutput(cfg, old(Abstract()), armed && softArmed, dt)
      ensures pins == AllDriven(cfg, sqrt, old(pins), armed && softArmed, steering, throttle)
    {
      var live := armed;
      if !softArmed {
        live := false;
      }
      SetLimitsFromInput(live);
      SlewLimitThrottle(dt);
      assert throttle == Slewed(cfg, old(Abstract()), dt);
      assert limit == LimitsReached(old(Abstract()), live, throttle);
      OutputRegular(live);
      OutputSkidSteering(live);
    }

    method SetLimitsFromInput(armed: bool)
      modifies `limit
      ensures limit == LimitsReached(Abstract(), armed, throttle)
    {
      limit := Limits(
        !armed || steering <= -4500.0,
        !armed || steering >= 4500.0,
        !armed || throttle <= -(throttleMax as real),
        !armed || throttle >= throttleMax as real);
    }

    method SlewLimitThrottle(dt: real)
      modifies `throttle, `throttlePrev, `limit
      ensures throttle == throttlePrev == Slewed(cfg, old(Abstract()), dt)
      ensures limit == old(limit).(
                throttleUpper := old(limit.throttleUpper) || throttle < old(throttle),
                throttleLower := old(limit.throttleLower) || throttle > old(throttle))
    {
      if cfg.slewRate > 0 {
        var change := SlewStep(cfg, Abstract(), dt);
        if throttle > throttlePrev + change {
          throttle := throttlePrev + change;
          limit := limit.(throttleUpper := true);
        } else if throttle < throttlePrev - change {
          throttle := throttlePrev - change;
          limit := limit.(throttleLower := true);
        }
      }
      throttlePrev := throttle;
    }

    method OutputRegular(armed: bool)
      modifies `pins
      ensures pins == RegularDriven(cfg, sqrt, old(pins), armed, steering, throttle)
    {
      pins := pins.(steering := steering);
      if armed {
        OutputThrottle(Throttle, throttle);
      } else if cfg.zeroPwmDisarmed {
        pins := pins.(throttle := ZeroPwm);
      } else {
        pins := pins.(throttle := Trim);
      }
    }

    method OutputSkidSteering(armed: bool)
      modifies `pins
      ensures pins == SkidDriven(cfg, sqrt, old(pins), armed, steering, throttle)
    {
      if !cfg.HaveSkidSteering() {
        return;
      }
      if !armed {
        if cfg.zeroPwmDisarmed {
          pins := pins.(left := ZeroPwm, right := ZeroPwm);
        } else {
          pins := pins.(left := Trim, right := Trim);
        }
        return;
      }
      var steeringScaled := Constrain(steering / 4500.0, -1.0, 1.0);
      var throttleScaled := Constrain(throttle / 100.0, -1.0, 1.0);
      var saturation := Abs(steeringScaled) + Abs(throttleScaled);
      if saturation > 1.0 {
        steeringScaled := steeringScaled / saturation;
        throttleScaled := throttleScaled / saturation;
      }
      var turn := Oriented(IsNegative(throttleScaled), steeringScaled);
      var motorLeft := throttleScaled + turn;
      var motorRight := throttleScaled - turn;
      assert Mix(motorLeft, motorRight) == Mixed(steering, throttle);
      OutputThrottle(ThrottleLeft, 100.0 * motorLeft);
      OutputThrottle(ThrottleRight, 100.0 * motorRight);
    }

    method OutputThrottle(f: MotorFunction, demand: real)
      modifies `pins
      ensures pins == Driven(cfg, old(pins), f, Command(cfg, sqrt, demand))
    {
      var throttle := Command(cfg, sqrt, demand);
      if cfg.relayMode {
        var channel := cfg.ChannelOf(f);
        if channel.Unassigned? {
          return;
        }
        var relayHigh := IsNegative(Oriented(channel.reversed, throttle));
        pins := pins.WithRelay(f, relayHigh);
        throttle := Oriented(channel.reversed, Abs(throttle));
      }
      pins := pins.WithSignal(f, Scaled(PinValue(f, throttle)));
    }
  }

  // ---- every interleaving of requests and outputs -------------------------------------------

  datatype Event = SetThrottle(demand: real) | SetSteering(demand: real) | Output(armed: bool, dt: real)

  function After(cfg: Config, s: State, e: Event): State {
    match e
    case SetThrottle(d) => AfterSetThrottle(s, d)
    case SetSteering(d) => AfterSetSteering(s, d)
    case Output(armed, dt) => AfterOutput(cfg, s, armed, dt)
  }

  function Run(cfg: Config, s: State, events: seq<Event>): State
    decreases |events|
  {
    if events == [] then s else Run(cfg, After(cfg, s, events[0]), events[1..])
  }

  /** The throttle of each output of a run, with the time step it was given. */
  function Outputs(cfg: Config, s: State, events: seq<Event>): seq<(real, real)>
    decreases |events|
  {
    if events == [] then []
    else
      var s' := After(cfg, s, events[0]);
      (if events[0].Output? then [(s'.throttle, events[0].dt)] else []) + Outputs(cfg, s', events[1..])
  }

  /** Parameters in range, and both the request and the last output within THR_MAX. */
  ghost predicate Sane(s: State) {
    && 0 <= s.throttleMin <= 20 && 30 <= s.throttleMax <= 100
    && Abs(s.throttle) <= s.throttleMax as real
    && Abs(s.throttlePrev) <= s.throttleMax as real
    && Abs(s.steering) <= 4500.0
  }

  /** The parameters are moved into 0..20 and 30..100, and no further than they have to be. */
  lemma SanitisedNearest(throttleMin: int, throttleMax: int, lo: real, hi: real)
    requires 0.0 <= lo <= 20.0 && 30.0 <= hi <= 100.0
    ensures 0 <= SaneMin(throttleMin) <= 20 && 30 <= SaneMax(throttleMax) <= 100
    ensures Abs((SaneMin(throttleMin) - throttleMin) as real) <= Abs(lo - (throttleMin as real))
    ensures Abs((SaneMax(throttleMax) - throttleMax) as real) <= Abs(hi - (throttleMax as real))
  {}

  lemma {:induction false} ThrottleStaysWithinMax(cfg: Config, s: State, events: seq<Event>)
    requires Sane(s)
    ensures Sane(Run(cfg, s, events))
    ensures Run(cfg, s, events).throttleMin == s.throttleMin
    ensures Run(cfg, s, events).throttleMax == s.throttleMax
    decreases |events|
  {
    if events == [] {
    } else {
      ThrottleStaysWithinMax(cfg, After(cfg, s, events[0]), events[1..]);
    }
  }

  /** With slewing on, each output is within one step of the one before, whatever happens between. */
  lemma {:induction false} ConsecutiveOutputsWithinStep(cfg: Config, s: State, events: seq<Event>)
    requires Sane(s) && cfg.slewRate > 0
    ensures StepsBounded(cfg.slewRate, s.throttleMax - s.throttleMin, s.throttlePrev, Outputs(cfg, s, events))
    decreases |events|
  {
    if events == [] {
    } else {
      var s' := After(cfg, s, events[0]);
      var outs' := Outputs(cfg, s', events[1..]);
      ConsecutiveOutputsWithinStep(cfg, s', events[1..]);
      if events[0].Output? {
        StepIsPercentPerSecond(cfg.slewRate, s.throttleMax - s.throttleMin, events[0].dt);
        var outs := [(s'.throttle, events[0].dt)] + outs';
        assert outs[1..] == outs';
      } else {
        assert [] + outs' == outs';
      }
    }
  }

  ghost predicate StepsBounded(rate: int, range: int, previous: real, outs: seq<(real, real)>)
    decreases |outs|
  {
    outs == [] ||
    (Abs(outs[0].0 - previous) <= PercentPerSecond(rate, range, outs[0].1)
     && StepsBounded(rate, range, outs[0].0, outs[1..]))
  }

  /** SLEWRATE percent of the throttle range a second, for `dt` seconds, but at least one percent. */
  function PercentPerSecond(rate: int, range: int, dt: real): real {
    Max(1.0, (range as real) * ((rate as real) / 100.0) * dt)
  }

  lemma StepIsPercentPerSecond(rate: int, range: int, dt: real)
    ensures StepSize(rate, range, dt) == PercentPerSecond(rate, range, dt)
  {
    var r, span := rate as real, range as real;
    assert r * dt * 0.01 * span == (r * 0.01) * (dt * span);
    assert span * (r / 100.0) * dt == (r / 100.0) * (dt * span);
  }

  /**
   An output moves toward the request by the whole gap or by the slew step, whichever is smaller; with
   slewing off it moves all the way.
   */
  lemma OutputMovesByStep(cfg: Config, s: State, armed: bool, dt: real)
    ensures var gap := s.throttle - s.throttlePrev;
            var moved := AfterOutput(cfg, s, armed, dt).throttle - s.throttlePrev;
            && AfterOutput(cfg, s, armed, dt).throttlePrev == AfterOutput(cfg, s, armed, dt).throttle
            && Sign(moved) == Sign(gap)
            && Abs(moved) == if cfg.slewRate <= 0 then Abs(gap)
                             else Min(Abs(gap), PercentPerSecond(cfg.slewRate, s.throttleMax - s.throttleMin, dt))
  {
    StepIsPercentPerSecond(cfg.slewRate, s.throttleMax - s.throttleMin, dt);
  }

  /**
   After an armed output at any point of any run, a throttle limit is flagged exactly when the
   request was at that end of the range or the output fell short of it on that side; never both. A
   steering limit is flagged exactly at that end of the range.
   */
  lemma LimitFlagsAreExact(cfg: Config, s: State, events: seq<Event>, dt: real)
    requires Sane(s)
    ensures var before := Run(cfg, s, events);
            var after := AfterOutput(cfg, before, true, dt);
            && (after.limit.throttleUpper <==>
                  before.throttle == before.throttleMax as real || after.throttle < before.throttle)
            && (after.limit.throttleLower <==>
                  before.throttle == -(before.throttleMax as real) || after.throttle > before.throttle)
            && !(after.limit.throttleUpper && after.limit.throttleLower)
            && (after.limit.steerLeft <==> before.steering == -4500.0)
            && (after.limit.steerRight <==> before.steering == 4500.0)
  {
    ThrottleStaysWithinMax(cfg, s, events);
    BothLimitsExactly(cfg, Run(cfg, s, events), dt);
  }

  /** In any state at all: both flags are raised exactly when the last output lies beyond THR_MAX. */
  lemma BothLimitsExactly(cfg: Config, s: State, dt: real)
    requires s.throttleMax > 0
    ensures var limit := AfterOutput(cfg, s, true, dt).limit;
            var step := SlewStep(cfg, s, dt);
            limit.throttleUpper && limit.throttleLower <==>
              cfg.slewRate > 0 &&
              (s.throttlePrev - step > s.throttle >= s.throttleMax as real ||
               s.throttlePrev + step < s.throttle <= -(s.throttleMax as real))
  {}

  /** That state is reached when THR_MAX is lowered while driving faster. */
  lemma LoweredMaxRaisesBothLimits(cfg: Config, s: State)
    requires cfg.slewRate == 100
    requires s.throttleMin == 0 && s.throttleMax == 100 && s.throttlePrev == 100.0
    ensures var after := AfterOutput(cfg, AfterSetThrottle(s.(throttleMax := 30), 50.0), true, 0.02);
            after.throttle == 99.0 && after.limit.throttleUpper && after.limit.throttleLower
  {}

  // ---- convergence --------------------------------------------------------------------------

  /** One control iteration per time step, always asking for the same throttle. */
  function Settle(cfg: Config, s: State, demand: real, armed: bool, dts: seq<real>): State
    decreases |dts|
  {
    if dts == [] then s
    else Settle(cfg, AfterOutput(cfg, AfterSetThrottle(s, demand), armed, dts[0]), demand, armed, dts[1..])
  }

  function Target(s: State, demand: real): real {
    Request(SaneMin(s.throttleMin), SaneMax(s.throttleMax), demand)
  }

  /**
   Repeating a request closes the gap by at least one percent a time without ever crossing the
   target, so it arrives exactly within as many iterations as the gap is wide.
   */
  lemma {:induction false} SlewConverges(cfg: Config, s: State, demand: real, armed: bool, dts: seq<real>)
    ensures var target := Target(s, demand);
            var gap := target - s.throttlePrev;
            var gap' := target - Settle(cfg, s, demand, armed, dts).throttlePrev;
            && (if gap >= 0.0 then 0.0 <= gap' <= gap else gap <= gap' <= 0.0)
            && Abs(gap') <= Max(0.0, Abs(gap) - (|dts| as real))
            && (|dts| as real >= Abs(gap) ==> gap' == 0.0)
            && (cfg.slewRate <= 0 && dts != [] ==> gap' == 0.0)
    decreases |dts|
  {
    if dts == [] {
    } else {
      var s' := AfterOutput(cfg, AfterSetThrottle(s, demand), armed, dts[0]);
      assert Target(s', demand) == Target(s, demand);
      SlewConverges(cfg, s', demand, armed, dts[1..]);
    }
  }

  /** Disarmed, no throttle channel is given a throttle, no relay moves and every limit is flagged. */
  lemma DisarmedIsNeverDriven(cfg: Config, sqrt: real -> real, s: State, pins: Pins, steering: real, throttle: real, dt: real)
    ensures var p := AllDriven(cfg, sqrt, pins, false, steering, throttle);
            var rest := if cfg.zeroPwmDisarmed then ZeroPwm else Trim;
            && p.throttle == rest
            && (cfg.left.Assigned? && cfg.right.Assigned? ==> p.left == p.right == rest)
            && p.relay0 == pins.relay0 && p.relay1 == pins.relay1
            && p.steering == steering
    ensures AfterOutput(cfg, s, false, dt).limit == Limits(true, true, true, true)
  {}

  /** A steering demand within 4500 either way is kept, and one beyond it moved to that end. */
  lemma SteeringIsKept(s: State, demand: real)
    ensures AfterSetSteering(s, demand) == s.(steering := AfterSetSteering(s, demand).steering)
    ensures Abs(demand) <= 4500.0 ==> AfterSetSteering(s, demand).steering == demand
    ensures Abs(demand) > 4500.0 ==>
              var steering := AfterSetSteering(s, demand).steering;
              Abs(steering) == 4500.0 && Sign(steering) == Sign(demand)
  {}

  // ---- the drive, end to end ----------------------------------------------------------------

  /** The signed percentage a motor is really being driven at, read back from the pins. */
  function Observed(cfg: Config, pins: Pins, f: MotorFunction): real
    requires pins.SignalOf(f).Scaled? && cfg.ChannelOf(f).Assigned?
  {
    var value := if f.Throttle? then pins.SignalOf(f).value else pins.SignalOf(f).value / 10.0;
    if cfg.relayMode then Decode(cfg.ChannelOf(f).reversed, RelayDrive(pins.RelayOf(f), value)) else value
  }

  /** Not in the sliver where the relay loses the sign. */
  ghost predicate RelayFaithful(cfg: Config, f: MotorFunction, command: real)
    requires cfg.ChannelOf(f).Assigned?
  {
    cfg.relayMode ==> !(-FLT_EPSILON < Oriented(cfg.ChannelOf(f).reversed, command) < 0.0)
  }

  /** The relays, if there are any, carry the sign of both motor commands. */
  ghost predicate RelaysFaithful(cfg: Config, sqrt: real -> real, steering: real, throttle: real)
    requires cfg.HaveSkidSteering()
  {
    var mix := Mixed(steering, throttle);
    && RelayFaithful(cfg, ThrottleLeft, Command(cfg, sqrt, 100.0 * mix.left))
    && RelayFaithful(cfg, ThrottleRight, Command(cfg, sqrt, 100.0 * mix.right))
  }

  /** Writing a command and reading the pins back gives the command. */
  lemma ObservedCommand(cfg: Config, pins: Pins, f: MotorFunction, command: real)
    requires cfg.ChannelOf(f).Assigned?
    ensures Driven(cfg, pins, f, command).SignalOf(f).Scaled?
    ensures Observed(cfg, Driven(cfg, pins, f, command), f) == command <==> RelayFaithful(cfg, f, command)
    ensures Abs(Observed(cfg, Driven(cfg, pins, f, command), f)) == Abs(command)
  {
    if cfg.relayMode {
      RelayPairRecoversThrottle(cfg.ChannelOf(f).reversed, command);
    }
  }

  lemma SkidPins(cfg: Config, sqrt: real -> real, pins: Pins, steering: real, throttle: real)
    requires cfg.HaveSkidSteering()
    ensures var p := SkidDriven(cfg, sqrt, pins, true, steering, throttle);
            var mix := Mixed(steering, throttle);
            var left, right := Command(cfg, sqrt, 100.0 * mix.left), Command(cfg, sqrt, 100.0 * mix.right);
            && p.left.Scaled? && p.right.Scaled?
            && Abs(Observed(cfg, p, ThrottleLeft)) == Abs(left)
            && Abs(Observed(cfg, p, ThrottleRight)) == Abs(right)
            && (RelayFaithful(cfg, ThrottleLeft, left) ==> Observed(cfg, p, ThrottleLeft) == left)
            && (RelayFaithful(cfg, ThrottleRight, right) ==> Observed(cfg, p, ThrottleRight) == right)
  {
    var mix := Mixed(steering, throttle);
    var p1 := Driven(cfg, pins, ThrottleLeft, Command(cfg, sqrt, 100.0 * mix.left));
    ObservedCommand(cfg, pins, ThrottleLeft, Command(cfg, sqrt, 100.0 * mix.left));
    ObservedCommand(cfg, p1, ThrottleRight, Command(cfg, sqrt, 100.0 * mix.right));
  }

  /**
   Through mixer, thrust curve and encoding: neither motor is driven beyond full scale, and one of
   them is at exactly full scale when and only when the combined demand reaches it.
   */
  lemma SkidOutputWithinScale(cfg: Config, sqrt: real -> real, pins: Pins, steering: real, throttle: real)
    requires cfg.HaveSkidSteering() && IsSqrtFunction(sqrt)
    ensures var p := SkidDriven(cfg, sqrt, pins, true, steering, throttle);
            && p.left.Scaled? && p.right.Scaled?
            && var busier := Max(Abs(Observed(cfg, p, ThrottleLeft)), Abs(Observed(cfg, p, ThrottleRight)));
               busier <= 100.0 && (busier == 100.0 <==> Saturation(steering, throttle) >= 1.0)
  {
    var mix := Mixed(steering, throttle);
    BusierMotorCarriesDemand(steering, throttle);
    SkidPins(cfg, sqrt, pins, steering, throttle);
    CommandKeepsRange(cfg, sqrt, 100.0 * mix.left);
    CommandKeepsRange(cfg, sqrt, 100.0 * mix.right);
  }

  lemma CommandKeepsRange(cfg: Config, sqrt: real -> real, throttle: real)
    requires IsSqrtFunction(sqrt) && -100.0 <= throttle <= 100.0
    ensures Abs(Command(cfg, sqrt, throttle)) <= 100.0
    ensures Abs(Command(cfg, sqrt, throttle)) == 100.0 <==> Abs(throttle) == 100.0
  {
    ThrustCurve.CurveKeepsDirection(sqrt, cfg.expo, throttle);
    ThrustCurve.FullScaleIsExact(sqrt, cfg.expo, throttle);
  }

  /** Left minus right, as driven, turns the vehicle the way the steering demand says. */
  lemma SkidOutputTurnsAsSteered(cfg: Config, sqrt: real -> real, pins: Pins, steering: real, throttle: real)
    requires cfg.HaveSkidSteering() && IsSqrtFunction(sqrt)
    ensures var p := SkidDriven(cfg, sqrt, pins, true, steering, throttle);
            && p.left.Scaled? && p.right.Scaled?
            && (RelaysFaithful(cfg, sqrt, steering, throttle) ==>
                  Sign(Observed(cfg, p, ThrottleLeft) - Observed(cfg, p, ThrottleRight))
                  == TravelDirection(MixerThrottle(steering, throttle)) * Sign(steering))
  {
    var mix := Mixed(steering, throttle);
    BusierMotorCarriesDemand(steering, throttle);
    MixTurnsAsSteered(steering, throttle);
    SkidPins(cfg, sqrt, pins, steering, throttle);
    CommandOrder(cfg, sqrt, 100.0 * mix.left, 100.0 * mix.right);
  }

  lemma CommandOrder(cfg: Config, sqrt: real -> real, t1: real, t2: real)
    requires IsSqrtFunction(sqrt) && Abs(t1) <= 100.0 && Abs(t2) <= 100.0
    ensures Sign(Command(cfg, sqrt, t1) - Command(cfg, sqrt, t2)) == Sign(t1 - t2)
  {
    if t1 < t2 { ThrustCurve.CurveStrictlyIncreasing(sqrt, cfg.expo, t1, t2); }
    if t2 < t1 { ThrustCurve.CurveStrictlyIncreasing(sqrt, cfg.expo, t2, t1); }
  }

  /**
   End to end: each motor delivers exactly the mixed percentage of thrust, whatever the exponent, so
   that the thrusts' mean is the mixed throttle and half their difference the mixed steering.
   */
  lemma MotorsGiveMixedThrust(cfg: Config, sqrt: real -> real, pins: Pins, steering: real, throttle: real)
    requires cfg.left.Assigned? && cfg.right.Assigned? && IsSqrtFunction(sqrt)
    ensures var p := AllDriven(cfg, sqrt, pins, true, steering, throttle);
            && p.left.Scaled? && p.right.Scaled?
            && (RelaysFaithful(cfg, sqrt, steering, throttle) ==>
                  var left := ThrustCurve.Produced(cfg.expo, Observed(cfg, p, ThrottleLeft));
                  var right := ThrustCurve.Produced(cfg.expo, Observed(cfg, p, ThrottleRight));
                  var mix := Mixed(steering, throttle);
                  && left == 100.0 * mix.left && right == 100.0 * mix.right
                  && (left + right) / 2.0 == 100.0 * MixerThrottle(steering, throttle)
                  && Abs(left - right) / 2.0 == 100.0 * Abs(MixerSteering(steering, throttle)))
  {
    var mix := Mixed(steering, throttle);
    BusierMotorCarriesDemand(steering, throttle);
    MixRecoversDemand(steering, throttle);
    SkidPins(cfg, sqrt, RegularDriven(cfg, sqrt, pins, true, steering, throttle), steering, throttle);
    ThrustCurve.RequestedThrustIsProduced(sqrt, cfg.expo, 100.0 * mix.left);
    ThrustCurve.RequestedThrustIsProduced(sqrt, cfg.expo, 100.0 * mix.right);
  }

  /** Each skid motor has its own relay, high exactly when the motor, as mounted, turns backwards. */
  lemma EachMotorHasItsRelay(cfg: Config, sqrt: real -> real, pins: Pins, steering: real, throttle: real)
    requires cfg.left.Assigned? && cfg.right.Assigned? && IsSqrtFunction(sqrt)
    requires cfg.relayMode && RelaysFaithful(cfg, sqrt, steering, throttle)
    ensures var p := AllDriven(cfg, sqrt, pins, true, steering, throttle);
            && p.left.Scaled? && p.right.Scaled?
            && (p.relay0 <==> if cfg.left.reversed then Observed(cfg, p, ThrottleLeft) > 0.0
                              else Observed(cfg, p, ThrottleLeft) < 0.0)
            && (p.relay1 <==> if cfg.right.reversed then Observed(cfg, p, ThrottleRight) > 0.0
                              else Observed(cfg, p, ThrottleRight) < 0.0)
  {
    SkidPins(cfg, sqrt, RegularDriven(cfg, sqrt, pins, true, steering, throttle), steering, throttle);
  }

  /** An armed vehicle with one motor steers by its servo and gives that motor the throttle's thrust. */
  lemma RegularMotorGivesThrottle(cfg: Config, sqrt: real -> real, pins: Pins, steering: real, throttle: real)
    requires cfg.throttle.Assigned? && !(cfg.left.Assigned? && cfg.right.Assigned?)
    requires IsSqrtFunction(sqrt) && -100.0 <= throttle <= 100.0
    ensures var p := AllDriven(cfg, sqrt, pins, true, steering, throttle);
            && p.steering == steering && p.throttle.Scaled?
            && (RelayFaithful(cfg, Throttle, Command(cfg, sqrt, throttle)) ==>
                  ThrustCurve.Produced(cfg.expo, Observed(cfg, p, Throttle)) == throttle)
  {
    ObservedCommand(cfg, pins.(steering := steering), Throttle, Command(cfg, sqrt, throttle));
    ThrustCurve.RequestedThrustIsProduced(sqrt, cfg.expo, throttle);
  }
}
