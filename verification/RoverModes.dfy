/**
 Rover's flight-mode and failsafe machine: set_mode with the entry checks and _enter overrides, the
 auto mission's effect on modes, the home state, and failsafe_trigger with the events that feed it.
 */
module RoverModes {
  import opened ArduMath

  datatype Mode = Manual | Acro | Steering | Hold | Auto | Rtl | SmartRtl | Guided | Initialising
  {
    predicate RequiresPosition() {
      Auto? || Rtl? || SmartRtl? || Guided? || Initialising?
    }

    predicate RequiresVelocity() {
      !Hold? && !Manual?
    }
  }

  datatype Home = Unset | SetNotLocked | SetAndLocked
  {
    function Rank(): nat {
      match this
      case Unset => 0
      case SetNotLocked => 1
      case SetAndLocked => 2
    }
  }

  datatype AutoSubmode = Waypoint | HeadingAndSpeed | AutoRtl

  /** The FAILSAFE_EVENT bits; a mask of them is a set. */
  datatype Failsafe = ThrottleLost | GcsLost | RcLost

  /** What a mission does to the vehicle when it starts a command or completes. */
  datatype Callback =
    | NavWaypoint | NavYawSpeed | NavReturnToLaunch | DoSetReverse(reverse: bool)
    | DoSetHome(locationValid: bool) | Other | MissionComplete

  /** Sensor and library state during one event. */
  datatype Env = Env(
    softArmed: bool, originSet: bool, horizPosition: bool, horizVelocity: bool,
    smartRtlActive: bool, missionCommands: nat, missionStart: seq<Callback>)

  datatype State = State(
    mode: Mode, inReverse: bool, home: Home, submode: AutoSubmode, autoReversed: bool,
    bits: set<Failsafe>, startTime: nat, triggered: set<Failsafe>)

  datatype Config = Config(fsAction: int, fsTimeout: real)

  // ---- entering modes -----------------------------------------------------------------------

  function PositionOk(env: Env): bool {
    env.originSet && env.horizPosition
  }

  /** The estimate checks of Mode::enter, skipped while disarmed. */
  predicate ChecksPass(m: Mode, env: Env) {
    env.softArmed ==>
      && (m.RequiresPosition() ==> PositionOk(env))
      && (m.RequiresVelocity() ==> PositionOk(env) || env.horizVelocity)
  }

  predicate CanEnter(m: Mode, s: State, env: Env) {
    && ChecksPass(m, env)
    && (m.Rtl? ==> s.home != Unset)
    && (m.SmartRtl? ==> env.originSet && env.smartRtlActive)
    && (m.Auto? ==> env.missionCommands > 0)
  }

  function AfterSetHome(s: State, env: Env, locationValid: bool, lock: bool): State {
    if !locationValid || !env.originSet then s
    else s.(home := if lock then SetAndLocked else if s.home == Unset then SetNotLocked else s.home)
  }

  function AfterCallback(c: Callback, s: State, env: Env): State {
    match c
    case NavWaypoint => s.(submode := Waypoint)
    case NavYawSpeed => s.(submode := HeadingAndSpeed)
    case NavReturnToLaunch => if CanEnter(Rtl, s, env) then s.(inReverse := false, submode := AutoRtl) else s
    case DoSetReverse(reverse) => s.(autoReversed := reverse, inReverse := reverse)
    case DoSetHome(valid) => AfterSetHome(s, env, valid, false)
    case Other => s
    case MissionComplete => s.(mode := Hold)
  }

  /** Callbacks run in order; nothing runs after the mission completes. */
  function AfterCallbacks(cs: seq<Callback>, s: State, env: Env): State {
    if cs == [] then s
    else if cs[0].MissionComplete? then AfterCallback(cs[0], s, env)
    else AfterCallbacks(cs[1..], AfterCallback(cs[0], s, env), env)
  }

  function AfterEnter(m: Mode, s: State, env: Env): State
    requires CanEnter(m, s, env)
  {
    match m
    case Rtl | SmartRtl | Guided => s.(inReverse := false)
    case Auto =>
      var reset := s.(submode := Waypoint, autoReversed := false, inReverse := s.inReverse && !s.autoReversed);
      AfterCallbacks(env.missionStart, reset, env)
    case _ => s
  }

  /** A refused request changes nothing, nor does a request for the current mode. */
  function AfterSetMode(s: State, m: Mode, env: Env): State {
    if s.mode == m || !CanEnter(m, s, env) then s else AfterEnter(m, s, env).(mode := m)
  }

  predicate ModeGranted(s: State, m: Mode, env: Env) {
    s.mode == m || CanEnter(m, s, env)
  }

  // ---- failsafe -----------------------------------------------------------------------------

  function TimedOut(s: State, cfg: Config, time: nat): bool {
    (Elapsed(Clock(time), s.startTime) as real) > cfg.fsTimeout * 1000.0
  }

  function WithBits(s: State, kind: Failsafe, on: bool, time: nat): State {
    var bits := if on then s.bits + {kind} else s.bits - {kind};
    s.(bits := bits,
       startTime := if s.bits == {} && bits != {} then Clock(time) else s.startTime,
       triggered := s.triggered * bits)
  }

  /** A failsafe_trigger call that takes action. */
  predicate Fires(s: State, cfg: Config, kind: Failsafe, on: bool, time: nat) {
    var s' := WithBits(s, kind, on, time);
    s'.triggered == {} && s'.bits != {} && TimedOut(s', cfg, time) && s.mode != Rtl && s.mode != Hold
  }

  /** Where the configured action ends up: the first mode of its list that can be entered. */
  function AfterAction(s: State, action: int, env: Env): State {
    if action == 1 then
      if ModeGranted(s, Rtl, env) then AfterSetMode(s, Rtl, env) else AfterSetMode(s, Hold, env)
    else if action == 2 then AfterSetMode(s, Hold, env)
    else if action == 3 then
      if ModeGranted(s, SmartRtl, env) then AfterSetMode(s, SmartRtl, env)
      else if ModeGranted(s, Rtl, env) then AfterSetMode(s, Rtl, env)
      else AfterSetMode(s, Hold, env)
    else if action == 4 then
      if ModeGranted(s, SmartRtl, env) then AfterSetMode(s, SmartRtl, env) else AfterSetMode(s, Hold, env)
    else s
  }

  function AfterTrigger(s: State, cfg: Config, kind: Failsafe, on: bool, time: nat, env: Env): State {
    var s' := WithBits(s, kind, on, time);
    if Fires(s, cfg, kind, on, time) then AfterAction(s'.(triggered := s'.bits), cfg.fsAction, env) else s'
  }

  /** What control_failsafe reads; clock readings of past events are 32-bit. */
  datatype RcInput = RcInput(
    enabled: bool, overrideActive: bool, overrideTimer: nat, pwm: nat, fsValue: nat, lastValidRc: nat, time: nat)

  predicate RcFailed(rc: RcInput) {
    if rc.overrideActive then Elapsed(Clock(rc.time), rc.overrideTimer) > 1500
    else rc.pwm < rc.fsValue || Elapsed(Clock(rc.time), rc.lastValidRc) > 2000
  }

  function RcKind(rc: RcInput): Failsafe {
    if rc.overrideActive then RcLost else ThrottleLost
  }

  // ---- mode updates -------------------------------------------------------------------------

  /** What a mode's update wrote to the reverse flag, where its control law decides. */
  datatype ReverseWrite = Keep | Write(reverse: bool)

  function AfterUpdate(s: State, w: ReverseWrite): State {
    match s.mode
    case Hold => s.(inReverse := false)
    case Manual | Acro | Steering => if w.Write? then s.(inReverse := w.reverse) else s
    case _ => s
  }

  /** update_mission: the mission runs only in Auto, with home set and more than one command. */
  function AfterMission(s: State, cs: seq<Callback>, env: Env): State {
    if s.mode == Auto && s.home != Unset && env.missionCommands > 1 then AfterCallbacks(cs, s, env) else s
  }

  // ---- the object ---------------------------------------------------------------------------

  class Rover {
    const cfg: Config
    var mode: Mode
    var inReverse: bool
    var home: Home
    var submode: AutoSubmode
    var autoReversed: bool
    var bits: set<Failsafe>
    var startTime: nat
    var triggered: set<Failsafe>

    function Abstract(): State
      reads this
    {
      State(mode, inReverse, home, submode, autoReversed, bits, startTime, triggered)
    }

    constructor (cfg: Config)
      ensures this.cfg == cfg && Abstract() == State(Initialising, false, Unset, Waypoint, false, {}, 0, {})
    {
      this.cfg := cfg;
      mode, inReverse, home, submode, autoReversed := Initialising, false, Unset, Waypoint, false;
      bits, startTime, triggered := {}, 0, {};
    }

    method SetReverse(reverse: bool)
      modifies `inReverse
      ensures inReverse == reverse
    {
      if inReverse == reverse {
        return;
      }
      inReverse := reverse;
    }

    method SetMode(m: Mode, env: Env) returns (ok: bool)
      modifies this
      ensures Abstract() == AfterSetMode(old(Abstract()), m, env)
      ensures ok == ModeGranted(old(Abstract()), m, env)
      decreases ModeOrder(m), 2
    {
      if mode == m {
        return true;
      }
      var entered := Enter(m, env);
      if !entered {
        return false;
      }
      mode := m;
      return true;
    }

    static function ModeOrder(m: Mode): nat {
      if m.Hold? then 0 else if m.Auto? then 2 else 1
    }

    method Enter(m: Mode, env: Env) returns (ok: bool)
      modifies this
      ensures ok == CanEnter(m, old(Abstract()), env)
      ensures ok ==> Abstract() == AfterEnter(m, old(Abstract()), env)
      ensures !ok ==> Abstract() == old(Abstract())
      decreases ModeOrder(m), 1
    {
      if env.softArmed {
        var positionOk := env.originSet && env.horizPosition;
        if m.RequiresPosition() && !positionOk {
          return false;
        }
        if m.RequiresVelocity() && !positionOk && !env.horizVelocity {
          return false;
        }
      }
      match m {
        case Rtl =>
          if home == Unset {
            return false;
          }
          SetReverse(false);
        case SmartRtl =>
          if !env.originSet {
            return false;
          }
          if !env.smartRtlActive {
            return false;
          }
          SetReverse(false);
        case Guided =>
          SetReverse(false);
        case Auto =>
          if env.missionCommands == 0 {
            return false;
          }
          submode := Waypoint;
          SetReversed(false);
          RunCallbacks(env.missionStart, env);
        case _ =>
      }
      return true;
    }

    /** ModeAuto::set_reversed touches the vehicle's flag only when its own flag changes. */
    method SetReversed(value: bool)
      modifies `autoReversed, `inReverse
      ensures autoReversed == value
      ensures inReverse == if old(autoReversed) != value then value else old(inReverse)
    {
      if autoReversed != value {
        autoReversed := value;
        SetReverse(autoReversed);
      }
    }

    method RunCallbacks(cs: seq<Callback>, env: Env)
      modifies this
      ensures Abstract() == AfterCallbacks(cs, old(Abstract()), env)
      decreases 2, 0
    {
      var i := 0;
      while i < |cs|
        invariant 0 <= i <= |cs|
        invariant AfterCallbacks(cs[i..], Abstract(), env) == AfterCallbacks(cs, old(Abstract()), env)
      {
        assert cs[i..][0] == cs[i] && cs[i..][1..] == cs[i + 1..];
        match cs[i] {
          case NavWaypoint =>
            submode := Waypoint;
          case NavYawSpeed =>
            submode := HeadingAndSpeed;
          case NavReturnToLaunch =>
            StartRtl(env);
          case DoSetReverse(reverse) =>
            SetReversed(reverse);
            SetReverse(reverse);
          case DoSetHome(valid) =>
            var _ := SetHome(env, valid, false);
          case Other =>
          case MissionComplete =>
            var _ := SetMode(Hold, env);
            return;
        }
        i := i + 1;
      }
    }

    method StartRtl(env: Env)
      modifies this
      ensures Abstract() == AfterCallback(NavReturnToLaunch, old(Abstract()), env)
      decreases 1, 3
    {
      var entered := Enter(Rtl, env);
      if entered {
        submode := AutoRtl;
      }
    }

    method SetHome(env: Env, locationValid: bool, lock: bool) returns (ok: bool)
      modifies `home
      ensures Abstract() == AfterSetHome(old(Abstract()), env, locationValid, lock)
      ensures ok == (locationValid && env.originSet)
    {
      if !locationValid {
        return false;
      }
      if !env.originSet {
        return false;
      }
      if home == Unset {
        home := SetNotLocked;
      }
      if lock {
        home := SetAndLocked;
      }
      return true;
    }

    method UpdateHomeFromEkf(env: Env, locationValid: bool)
      modifies `home
      ensures Abstract() == if old(home) == Unset then AfterSetHome(old(Abstract()), env, locationValid, false)
                            else old(Abstract())
    {
      if home != Unset {
        return;
      }
      var _ := SetHome(env, locationValid, false);
    }

    method FailsafeTrigger(kind: Failsafe, on: bool, time: nat, env: Env)
      modifies this
      ensures Abstract() == AfterTrigger(old(Abstract()), cfg, kind, on, time, env)
    {
      var oldBits := bits;
      if on {
        bits := bits + {kind};
      } else {
        bits := bits - {kind};
      }
      if oldBits == {} && bits != {} {
        startTime := Clock(time);
      }
      triggered := triggered * bits;
      assert Abstract() == WithBits(old(Abstract()), kind, on, time);
      if triggered == {} && bits != {} && TimedOut(Abstract(), cfg, time) && mode != Rtl && mode != Hold {
        triggered := bits;
        TakeAction(env);
      }
    }

    method TakeAction(env: Env)
      modifies this
      ensures Abstract() == AfterAction(old(Abstract()), cfg.fsAction, env)
    {
      var ok;
      if cfg.fsAction == 1 {
        ok := SetMode(Rtl, env);
        if !ok {
          ok := SetMode(Hold, env);
        }
      } else if cfg.fsAction == 2 {
        ok := SetMode(Hold, env);
      } else if cfg.fsAction == 3 {
        ok := SetMode(SmartRtl, env);
        if !ok {
          ok := SetMode(Rtl, env);
          if !ok {
            ok := SetMode(Hold, env);
          }
        }
      } else if cfg.fsAction == 4 {
        ok := SetMode(SmartRtl, env);
        if !ok {
          ok := SetMode(Hold, env);
        }
      }
    }

    method ControlFailsafe(rc: RcInput, env: Env)
      modifies this
      ensures Abstract() == if rc.enabled then AfterTrigger(old(Abstract()), cfg, RcKind(rc), RcFailed(rc), rc.time, env)
                            else old(Abstract())
    {
      if !rc.enabled {
        return;
      }
      if rc.overrideActive {
        FailsafeTrigger(RcLost, Elapsed(Clock(rc.time), rc.overrideTimer) > 1500, rc.time, env);
      } else {
        var failed := rc.pwm < rc.fsValue;
        if Elapsed(Clock(rc.time), rc.lastValidRc) > 2000 {
          failed := true;
        }
        FailsafeTrigger(ThrottleLost, failed, rc.time, env);
      }
    }

    method Update(w: ReverseWrite)
      modifies `inReverse
      ensures Abstract() == AfterUpdate(old(Abstract()), w)
    {
      match mode {
        case Hold =>
          SetReverse(false);
        case Manual | Acro | Steering =>
          if w.Write? {
            SetReverse(w.reverse);
          }
        case _ =>
      }
    }

    method UpdateMission(cs: seq<Callback>, env: Env)
      modifies this
      ensures Abstract() == AfterMission(old(Abstract()), cs, env)
    {
      if mode == Auto {
        if home != Unset && env.missionCommands > 1 {
          RunCallbacks(cs, env);
        }
      }
    }
  }
}
