/**
 What holds in every reachable state and over every run of Rover's mode and failsafe machine.
 */
module RoverRuns {
  import opened ArduMath
  import opened RoverModes

  datatype Event =
    | Trigger(kind: Failsafe, on: bool, time: nat, env: Env)
    | Request(mode: Mode, env: Env)
    | Update(write: ReverseWrite)
    | Mission(callbacks: seq<Callback>, env: Env)
    | SetHome(locationValid: bool, lock: bool, env: Env)

  function After(cfg: Config, s: State, e: Event): State {
    match e
    case Trigger(kind, on, time, env) => AfterTrigger(s, cfg, kind, on, time, env)
    case Request(m, env) => AfterSetMode(s, m, env)
    case Update(w) => AfterUpdate(s, w)
    case Mission(cs, env) => AfterMission(s, cs, env)
    case SetHome(valid, lock, env) => AfterSetHome(s, env, valid, lock)
  }

  predicate FiresOn(cfg: Config, s: State, e: Event) {
    e.Trigger? && Fires(s, cfg, e.kind, e.on, e.time)
  }

  /** A run from any start: the events, and the state around each. Trigger times never go back. */
  datatype Run = Run(cfg: Config, states: seq<State>, events: seq<Event>)
  {
    ghost predicate Valid() {
      && |states| == |events| + 1
      && (forall i :: 0 <= i < |events| ==> Step(i))
      && (forall i, j :: 0 <= i <= j < |events| && events[i].Trigger? && events[j].Trigger?
            ==> events[i].time <= events[j].time)
    }

    ghost predicate Step(i: nat)
      requires i < |events| && |states| == |events| + 1
    {
      states[i + 1] == After(cfg, states[i], events[i])
    }

    ghost predicate FiresAt(i: nat)
      requires i < |events| && |states| == |events| + 1
    {
      FiresOn(cfg, states[i], events[i])
    }
  }

  // ---- the mode machine ---------------------------------------------------------------------

  ghost predicate Sound(s: State) {
    && (s.mode == Rtl || s.submode == AutoRtl ==> s.home != Unset)
    && (s.mode in {Guided, Rtl, SmartRtl} ==> !s.inReverse)
    && s.triggered <= s.bits
  }

  lemma {:induction false} CallbacksKeepSound(cs: seq<Callback>, s: State, env: Env)
    requires s.submode == AutoRtl ==> s.home != Unset
    ensures var s' := AfterCallbacks(cs, s, env);
            && (s'.submode == AutoRtl ==> s'.home != Unset)
            && s.home.Rank() <= s'.home.Rank()
            && (s'.mode == s.mode || s'.mode == Hold)
            && s'.bits == s.bits && s'.triggered == s.triggered && s'.startTime == s.startTime
    decreases |cs|
  {
    if cs == [] || cs[0].MissionComplete? {
    } else {
      CallbacksKeepSound(cs[1..], AfterCallback(cs[0], s, env), env);
    }
  }

  lemma SetModeKeepsSound(s: State, m: Mode, env: Env)
    requires Sound(s)
    ensures var s' := AfterSetMode(s, m, env);
            && Sound(s') && s.home.Rank() <= s'.home.Rank()
            && s'.mode == (if ModeGranted(s, m, env) then m else s.mode)
            && s'.bits == s.bits && s'.triggered == s.triggered && s'.startTime == s.startTime
  {
    if m == Auto && s.mode != Auto && CanEnter(m, s, env) {
      CallbacksKeepSound(env.missionStart, s.(submode := Waypoint, autoReversed := false, inReverse := s.inReverse && !s.autoReversed), env);
    }
  }

  /** What each mode needs of the vehicle: an armed one needs its estimates. */
  predicate Enterable(m: Mode, s: State, env: Env) {
    var position := !env.softArmed || (env.originSet && env.horizPosition);
    match m
    case Hold | Manual => true
    case Acro | Steering => position || env.horizVelocity
    case Guided | Initialising => position
    case Auto => position && env.missionCommands > 0
    case Rtl => position && s.home != Unset
    case SmartRtl => position && env.originSet && env.smartRtlActive
  }

  /** A request ends in the mode exactly when the vehicle is in it or it can be entered. */
  lemma RequestIsGrantedExactly(s: State, m: Mode, env: Env)
    ensures var s' := AfterSetMode(s, m, env);
            && s'.mode == (if s.mode == m || Enterable(m, s, env) then m else s.mode)
            && (s.mode == m || !Enterable(m, s, env) ==> s' == s)
            && ModeGranted(s, m, env) == (s.mode == m || Enterable(m, s, env))
  {}

  /**
   Whatever the event, an armed vehicle gets into Auto, RTL, SmartRTL or Guided only with a position
   estimate and an origin.
   */
  lemma PositionModesNeedEstimate(r: Run, n: nat)
    requires r.Valid() && n < |r.events|
    requires r.states[n + 1].mode in {Auto, Rtl, SmartRtl, Guided} && r.states[n].mode != r.states[n + 1].mode
    ensures var e := r.events[n];
            && (e.Trigger? || e.Request?)
            && (e.env.softArmed ==> e.env.originSet && e.env.horizPosition)
  {
    assert r.Step(n);
    var s, e := r.states[n], r.events[n];
    match e
    case Trigger(kind, on, time, env) =>
      var latched := WithBits(s, kind, on, time);
      var ready := latched.(triggered := latched.bits);
      RequestIsGrantedExactly(ready, Rtl, env);
      RequestIsGrantedExactly(ready, SmartRtl, env);
      RequestIsGrantedExactly(ready, Hold, env);
    case Request(m, env) => RequestIsGrantedExactly(s, m, env);
    case Update(w) =>
    case Mission(cs, env) => MissionEffects(cs, s, env);
    case SetHome(valid, lock, env) =>
  }

  /**
   A firing failsafe with action 1 to 4 always ends in RTL, SmartRTL or Hold, in the first of the
   configured modes that will have the vehicle.
   */
  lemma FailsafeActionEndsSafely(s: State, cfg: Config, kind: Failsafe, on: bool, time: nat, env: Env)
    requires Sound(s) && Fires(s, cfg, kind, on, time)
    ensures var s' := AfterTrigger(s, cfg, kind, on, time, env);
            var rtl, smart := Enterable(Rtl, s, env), s.mode == SmartRtl || Enterable(SmartRtl, s, env);
            && (cfg.fsAction == 1 ==> s'.mode == if rtl then Rtl else Hold)
            && (cfg.fsAction == 2 ==> s'.mode == Hold)
            && (cfg.fsAction == 3 ==> s'.mode == if smart then SmartRtl else if rtl then Rtl else Hold)
            && (cfg.fsAction == 4 ==> s'.mode == if smart then SmartRtl else Hold)
            && (cfg.fsAction !in {1, 2, 3, 4} ==> s'.mode == s.mode)
            && s'.triggered == s'.bits != {}
  {
    var latched := WithBits(s, kind, on, time);
    var ready := latched.(triggered := latched.bits);
    SetModeKeepsSound(ready, Rtl, env);
    SetModeKeepsSound(ready, SmartRtl, env);
    SetModeKeepsSound(ready, Hold, env);
    RequestIsGrantedExactly(ready, Rtl, env);
    RequestIsGrantedExactly(ready, SmartRtl, env);
  }

  lemma ActionKeepsSound(s: State, action: int, env: Env)
    requires Sound(s)
    ensures var s' := AfterAction(s, action, env);
            && Sound(s') && s.home.Rank() <= s'.home.Rank()
            && s'.bits == s.bits && s'.triggered == s.triggered && s'.startTime == s.startTime
  {
    SetModeKeepsSound(s, Rtl, env);
    SetModeKeepsSound(s, SmartRtl, env);
    SetModeKeepsSound(s, Hold, env);
  }

  lemma EventKeepsSound(cfg: Config, s: State, e: Event)
    requires Sound(s)
    ensures Sound(After(cfg, s, e))
    ensures s.home.Rank() <= After(cfg, s, e).home.Rank()
  {
    match e
    case Trigger(kind, on, time, env) =>
      var latched := WithBits(s, kind, on, time);
      ActionKeepsSound(latched.(triggered := latched.bits), cfg.fsAction, env);
    case Request(m, env) => SetModeKeepsSound(s, m, env);
    case Update(w) =>
    case Mission(cs, env) => CallbacksKeepSound(cs, s, env);
    case SetHome(valid, lock, env) =>
  }

  /**
   In every reachable state: RTL, also as a submode of Auto, has a home; Guided, RTL and SmartRTL
   never drive in reverse; every latched failsafe is still present. Home never becomes less set.
   */
  lemma {:induction false} EveryStateIsSound(r: Run, i: nat, n: nat)
    requires r.Valid() && i <= n <= |r.events| && Sound(r.states[i])
    ensures Sound(r.states[n])
    ensures r.states[i].home.Rank() <= r.states[n].home.Rank()
    decreases n
  {
    if i == n {
    } else {
      EveryStateIsSound(r, i, n - 1);
      assert r.Step(n - 1);
      EventKeepsSound(r.cfg, r.states[n - 1], r.events[n - 1]);
    }
  }

  // ---- the reverse flag a mission leaves ----------------------------------------------------

  /** Whether callback i writes the reverse flag: RTL does, if it can be entered by then. */
  predicate WritesReverse(cs: seq<Callback>, i: nat, s: State, env: Env)
    requires i < |cs|
  {
    cs[i].DoSetReverse? ||
    (cs[i].NavReturnToLaunch? && (env.softArmed ==> env.originSet && env.horizPosition)
     && (s.home != Unset || (env.originSet && DoSetHome(true) in cs[..i])))
  }

  /** Callback i runs and writes the reverse flag. */
  predicate RunsAndWrites(cs: seq<Callback>, i: nat, s: State, env: Env)
    requires i < |cs|
  {
    MissionComplete !in cs[..i] && WritesReverse(cs, i, s, env)
  }

  ghost predicate LastWrite(cs: seq<Callback>, i: nat, s: State, env: Env)
    requires i < |cs|
  {
    RunsAndWrites(cs, i, s, env) && forall j :: i < j < |cs| ==> !RunsAndWrites(cs, j, s, env)
  }

  lemma WritesShift(cs: seq<Callback>, i: nat, s: State, env: Env)
    requires 0 < i < |cs| && !cs[0].MissionComplete?
    ensures RunsAndWrites(cs, i, s, env) <==> RunsAndWrites(cs[1..], i - 1, AfterCallback(cs[0], s, env), env)
  {
    assert cs[..i] == [cs[0]] + cs[1..][..i - 1];
  }

  /** The flag a mission leaves is what its last writing callback wrote, or else the flag it found. */
  lemma {:induction false} LastWriteDecides(cs: seq<Callback>, s: State, env: Env)
    ensures var s' := AfterCallbacks(cs, s, env);
            && ((forall i :: 0 <= i < |cs| ==> !RunsAndWrites(cs, i, s, env)) ==> s'.inReverse == s.inReverse)
            && (forall i :: 0 <= i < |cs| && LastWrite(cs, i, s, env) ==> s'.inReverse == (cs[i] == DoSetReverse(true)))
    decreases |cs|
  {
    if cs == [] {
    } else if cs[0].MissionComplete? {
      assert forall i :: 0 < i < |cs| ==> cs[..i][0] == cs[0];
    } else {
      var rest, s1 := cs[1..], AfterCallback(cs[0], s, env);
      LastWriteDecides(rest, s1, env);
      forall j | 0 <= j < |rest|
        ensures RunsAndWrites(rest, j, s1, env) <==> RunsAndWrites(cs, j + 1, s, env)
      {
        WritesShift(cs, j + 1, s, env);
      }
      assert RunsAndWrites(cs, 0, s, env) || s1.inReverse == s.inReverse;
      forall i | 0 <= i < |cs| && LastWrite(cs, i, s, env)
        ensures AfterCallbacks(cs, s, env).inReverse == (cs[i] == DoSetReverse(true))
      {
        if i == 0 {
          assert forall j :: 0 <= j < |rest| ==> !RunsAndWrites(rest, j, s1, env);
        } else {
          assert LastWrite(rest, i - 1, s1, env);
        }
      }
    }
  }

  /**
   Auto does not clear a reverse flag it did not set: unless the mission's first commands write the
   flag, entering it in reverse stays in reverse.
   */
  lemma AutoInheritsReverse(s: State, env: Env)
    requires s.mode != Auto && CanEnter(Auto, s, env)
    ensures var cs, reverse := env.missionStart, AfterSetMode(s, Auto, env).inReverse;
            && ((forall i :: 0 <= i < |cs| ==> !RunsAndWrites(cs, i, s, env)) ==>
                  reverse == (s.inReverse && !s.autoReversed))
            && (forall i :: 0 <= i < |cs| && LastWrite(cs, i, s, env) ==> reverse == (cs[i] == DoSetReverse(true)))
  {
    var reset := s.(submode := Waypoint, autoReversed := false, inReverse := s.inReverse && !s.autoReversed);
    var cs := env.missionStart;
    LastWriteDecides(cs, reset, env);
    assert forall i :: 0 <= i < |cs| ==> RunsAndWrites(cs, i, s, env) == RunsAndWrites(cs, i, reset, env);
    assert forall i :: 0 <= i < |cs| ==> LastWrite(cs, i, s, env) == LastWrite(cs, i, reset, env);
  }

  /** A flag that was down is raised only by a DoSetReverse. */
  lemma {:induction false} MissionReversesOnCommand(cs: seq<Callback>, s: State, env: Env)
    requires !s.inReverse && AfterCallbacks(cs, s, env).inReverse
    ensures DoSetReverse(true) in cs
    decreases |cs|
  {
    if cs == [] {
    } else if AfterCallback(cs[0], s, env).inReverse {
      assert cs[0] == DoSetReverse(true);
    } else {
      MissionReversesOnCommand(cs[1..], AfterCallback(cs[0], s, env), env);
    }
  }

  /** The vehicle starts to reverse only by a manual mode's control law or by a mission command. */
  lemma ReverseHasCause(r: Run, n: nat)
    requires r.Valid() && n < |r.events| && !r.states[n].inReverse && r.states[n + 1].inReverse
    ensures var mode := r.states[n].mode;
            match r.events[n]
            case Update(w) => mode in {Manual, Acro, Steering} && w == Write(true)
            case Mission(cs, _) => mode == Auto && DoSetReverse(true) in cs
            case Request(m, env) => m == Auto && DoSetReverse(true) in env.missionStart
            case _ => false
  {
    assert r.Step(n);
    var s := r.states[n];
    match r.events[n]
    case Mission(cs, env) => MissionReversesOnCommand(cs, s, env);
    case Request(m, env) =>
      if m == Auto {
        var reset := s.(submode := Waypoint, autoReversed := false, inReverse := s.inReverse && !s.autoReversed);
        MissionReversesOnCommand(env.missionStart, reset, env);
      }
    case _ =>
  }

  /** Updating Hold clears the flag, updating a manual mode writes it, and nothing else changes. */
  lemma UpdateWritesReverse(s: State, w: ReverseWrite)
    ensures AfterUpdate(s, w) == s.(inReverse := AfterUpdate(s, w).inReverse)
    ensures s.mode == Hold ==> !AfterUpdate(s, w).inReverse
    ensures s.mode in {Manual, Acro, Steering} && w.Write? ==> AfterUpdate(s, w).inReverse == w.reverse
    ensures s.mode !in {Hold, Manual, Acro, Steering} || (s.mode != Hold && w.Keep?) ==>
              AfterUpdate(s, w).inReverse == s.inReverse
  {}

  // ---- the other things a mission does ------------------------------------------------------

  /** Setting home raises it to the level asked for, never lowers it, and does nothing else. */
  lemma SetHomeRaisesLevel(s: State, env: Env, valid: bool, lock: bool)
    ensures var s' := AfterSetHome(s, env, valid, lock);
            var level := if !valid || !env.originSet then 0 else if lock then 2 else 1;
            && s'.home.Rank() == (if level > s.home.Rank() then level else s.home.Rank())
            && s' == s.(home := s'.home)
  {}

  /** Callback i runs and sets home. */
  predicate SetsHomeAt(cs: seq<Callback>, i: nat)
    requires i < |cs|
  {
    MissionComplete !in cs[..i] && cs[i] == DoSetHome(true)
  }

  ghost predicate SetsHome(cs: seq<Callback>) {
    exists i :: 0 <= i < |cs| && SetsHomeAt(cs, i)
  }

  lemma SetsHomeLater(cs: seq<Callback>)
    requires cs != [] && !cs[0].MissionComplete?
    ensures SetsHome(cs) <==> cs[0] == DoSetHome(true) || SetsHome(cs[1..])
  {
    var rest := cs[1..];
    forall j | 0 <= j < |rest|
      ensures SetsHomeAt(rest, j) <==> SetsHomeAt(cs, j + 1)
    {
      assert cs[..j + 1] == [cs[0]] + rest[..j];
    }
    if SetsHome(cs) {
      var i :| 0 <= i < |cs| && SetsHomeAt(cs, i);
      assert i == 0 || SetsHomeAt(rest, i - 1);
    }
    assert cs[0] == DoSetHome(true) ==> SetsHomeAt(cs, 0);
    if SetsHome(rest) {
      var j :| 0 <= j < |rest| && SetsHomeAt(rest, j);
      assert SetsHomeAt(cs, j + 1);
    }
  }

  /** A mission sets an unset home if a command says so, and ends in Hold exactly if it completes. */
  lemma {:induction false} MissionEffects(cs: seq<Callback>, s: State, env: Env)
    ensures var s' := AfterCallbacks(cs, s, env);
            && s'.mode == (if MissionComplete in cs then Hold else s.mode)
            && s'.home == (if env.originSet && SetsHome(cs) && s.home == Unset then SetNotLocked else s.home)
    decreases |cs|
  {
    if cs == [] {
    } else if cs[0].MissionComplete? {
      assert forall i :: 0 < i < |cs| ==> cs[..i][0] == cs[0];
    } else {
      MissionEffects(cs[1..], AfterCallback(cs[0], s, env), env);
      SetsHomeLater(cs);
    }
  }

  /** Callback i runs and starts a submode of Auto: RTL does, if it can be entered by then. */
  predicate StartsSubmode(cs: seq<Callback>, i: nat, s: State, env: Env)
    requires i < |cs|
  {
    MissionComplete !in cs[..i] &&
    (cs[i].NavWaypoint? || cs[i].NavYawSpeed? || (cs[i].NavReturnToLaunch? && WritesReverse(cs, i, s, env)))
  }

  ghost predicate LastStart(cs: seq<Callback>, i: nat, s: State, env: Env)
    requires i < |cs|
  {
    StartsSubmode(cs, i, s, env) && forall j :: i < j < |cs| ==> !StartsSubmode(cs, j, s, env)
  }

  /** The submode a mission leaves is that of its last navigation command to start one. */
  lemma {:induction false} LastStartDecides(cs: seq<Callback>, s: State, env: Env)
    ensures var s' := AfterCallbacks(cs, s, env);
            && ((forall i :: 0 <= i < |cs| ==> !StartsSubmode(cs, i, s, env)) ==> s'.submode == s.submode)
            && (forall i :: 0 <= i < |cs| && LastStart(cs, i, s, env) ==>
                  s'.submode == if cs[i].NavWaypoint? then Waypoint else if cs[i].NavYawSpeed? then HeadingAndSpeed else AutoRtl)
    decreases |cs|
  {
    if cs == [] {
    } else if cs[0].MissionComplete? {
      assert forall i :: 0 < i < |cs| ==> cs[..i][0] == cs[0];
    } else {
      var rest, s1 := cs[1..], AfterCallback(cs[0], s, env);
      LastStartDecides(rest, s1, env);
      forall j | 0 <= j < |rest|
        ensures StartsSubmode(rest, j, s1, env) <==> StartsSubmode(cs, j + 1, s, env)
      {
        WritesShift(cs, j + 1, s, env);
        assert cs[..j + 1] == [cs[0]] + rest[..j];
      }
      assert StartsSubmode(cs, 0, s, env) || s1.submode == s.submode;
      forall i | 0 <= i < |cs| && LastStart(cs, i, s, env)
        ensures AfterCallbacks(cs, s, env).submode ==
                if cs[i].NavWaypoint? then Waypoint else if cs[i].NavYawSpeed? then HeadingAndSpeed else AutoRtl
      {
        if i == 0 {
          assert forall j :: 0 <= j < |rest| ==> !StartsSubmode(rest, j, s1, env);
        } else {
          assert LastStart(rest, i - 1, s1, env);
        }
      }
    }
  }

  /** Entering Auto heads for a waypoint, unless the mission's first commands start something else. */
  lemma AutoStartsWithWaypoint(s: State, env: Env)
    requires s.mode != Auto && CanEnter(Auto, s, env)
    ensures var cs, submode := env.missionStart, AfterSetMode(s, Auto, env).submode;
            && ((forall i :: 0 <= i < |cs| ==> !StartsSubmode(cs, i, s, env)) ==> submode == Waypoint)
            && (forall i :: 0 <= i < |cs| && LastStart(cs, i, s, env) ==>
                  submode == if cs[i].NavWaypoint? then Waypoint else if cs[i].NavYawSpeed? then HeadingAndSpeed else AutoRtl)
  {
    var reset := s.(submode := Waypoint, autoReversed := false, inReverse := s.inReverse && !s.autoReversed);
    var cs := env.missionStart;
    LastStartDecides(cs, reset, env);
    assert forall i :: 0 <= i < |cs| ==> StartsSubmode(cs, i, s, env) == StartsSubmode(cs, i, reset, env);
    assert forall i :: 0 <= i < |cs| ==> LastStart(cs, i, s, env) == LastStart(cs, i, reset, env);
  }

  /** Auto remembers as its own the reverse flag last commanded, and only that. */
  lemma {:induction false} AutoRemembersCommand(cs: seq<Callback>, s: State, env: Env)
    requires MissionComplete !in cs
    ensures var s' := AfterCallbacks(cs, s, env);
            && ((forall c :: c in cs ==> !c.DoSetReverse?) ==> s'.autoReversed == s.autoReversed)
            && (forall i :: 0 <= i < |cs| && cs[i].DoSetReverse? && (forall j :: i < j < |cs| ==> !cs[j].DoSetReverse?) ==>
                  s'.autoReversed == cs[i].reverse)
    decreases |cs|
  {
    if cs == [] {
    } else {
      var rest := cs[1..];
      AutoRemembersCommand(rest, AfterCallback(cs[0], s, env), env);
      forall i | 0 <= i < |cs| && cs[i].DoSetReverse? && (forall j :: i < j < |cs| ==> !cs[j].DoSetReverse?)
        ensures AfterCallbacks(cs, s, env).autoReversed == cs[i].reverse
      {
        if i == 0 {
          assert forall c :: c in rest ==> !c.DoSetReverse?;
        } else {
          assert rest[i - 1] == cs[i];
          assert forall j :: i - 1 < j < |rest| ==> rest[j] == cs[j + 1] && !rest[j].DoSetReverse?;
        }
      }
    }
  }

  /** A mission is left alone outside Auto, without a home, and if it has only its home entry. */
  lemma MissionNeedsAutoAndHome(s: State, cs: seq<Callback>, env: Env)
    ensures var run := s.mode == Auto && s.home != Unset && env.missionCommands > 1;
            AfterMission(s, cs, env) == if run then AfterCallbacks(cs, s, env) else s
  {}

  // ---- failsafe history ---------------------------------------------------------------------

  /** Only trigger calls change the failsafe; one that does not fire changes nothing else. */
  lemma BitsChangeOnlyOnTrigger(cfg: Config, s: State, e: Event)
    requires Sound(s)
    ensures var s' := After(cfg, s, e);
            if e.Trigger? then
              && s'.bits == (if e.on then s.bits + {e.kind} else s.bits - {e.kind})
              && s'.startTime == (if s.bits == {} && s'.bits != {} then Clock(e.time) else s.startTime)
              && (FiresOn(cfg, s, e) ==> s'.triggered == s'.bits)
              && (!FiresOn(cfg, s, e) ==>
                    s' == s.(bits := s'.bits, startTime := s'.startTime, triggered := s.triggered * s'.bits))
            else s'.bits == s.bits && s'.startTime == s.startTime && s'.triggered == s.triggered
  {
    match e
    case Trigger(kind, on, time, env) =>
      var latched := WithBits(s, kind, on, time);
      ActionKeepsSound(latched.(triggered := latched.bits), cfg.fsAction, env);
    case Request(m, env) => SetModeKeepsSound(s, m, env);
    case Update(w) =>
    case Mission(cs, env) => CallbacksKeepSound(cs, s, env);
    case SetHome(valid, lock, env) =>
  }

  /** Event i reports on failsafe f. */
  predicate Reports(e: Event, f: Failsafe) {
    e.Trigger? && e.kind == f
  }

  /** Over every run, a failsafe is present exactly as last reported, or else as at the start. */
  lemma {:induction false} LastReportDecides(r: Run, f: Failsafe, n: nat)
    requires r.Valid() && n <= |r.events| && Sound(r.states[0])
    ensures (forall i :: 0 <= i < n ==> !Reports(r.events[i], f)) ==> (f in r.states[n].bits <==> f in r.states[0].bits)
    ensures forall k :: 0 <= k < n && Reports(r.events[k], f) && (forall i :: k < i < n ==> !Reports(r.events[i], f)) ==>
              (f in r.states[n].bits <==> r.events[k].on)
  {
    if n == 0 {
    } else {
      LastReportDecides(r, f, n - 1);
      EveryStateIsSound(r, 0, n - 1);
      assert r.Step(n - 1);
      BitsChangeOnlyOnTrigger(r.cfg, r.states[n - 1], r.events[n - 1]);
    }
  }

  /** The current failsafe was first reported by event k, which started the timer, and has lasted since. */
  ghost predicate BeganAt(r: Run, k: nat, n: nat)
    requires r.Valid() && k < n <= |r.events|
  {
    && r.events[k].Trigger? && r.events[k].on && r.states[k].bits == {}
    && r.states[n].startTime == Clock(r.events[k].time)
    && (forall m :: k < m <= n ==> r.states[m].bits != {})
  }

  lemma {:induction false} FailsafeHasBeginning(r: Run, n: nat)
    requires r.Valid() && n <= |r.events| && Sound(r.states[0]) && r.states[0].bits == {}
    ensures r.states[n].bits != {} ==> exists k :: 0 <= k < n && BeganAt(r, k, n)
  {
    if n == 0 {
    } else {
      FailsafeHasBeginning(r, n - 1);
      EveryStateIsSound(r, 0, n - 1);
      assert r.Step(n - 1);
      BitsChangeOnlyOnTrigger(r.cfg, r.states[n - 1], r.events[n - 1]);
      if r.states[n].bits != {} {
        if r.states[n - 1].bits == {} {
          assert BeganAt(r, n - 1, n);
        } else {
          var k :| 0 <= k < n - 1 && BeganAt(r, k, n - 1);
          assert BeganAt(r, k, n);
        }
      }
    }
  }

  /**
   Exactly when an action fires: at a trigger call outside RTL and Hold that leaves a failsafe present
   but none of the latched ones, when the 32-bit clock shows more than FS_TIMEOUT seconds since the
   report that began it.
   */
  lemma FiringIsExact(r: Run, n: nat)
    requires r.Valid() && n < |r.events| && Sound(r.states[0]) && r.states[0].bits == {}
    ensures var s, s', e := r.states[n], r.states[n + 1], r.events[n];
            r.FiresAt(n) <==>
            && e.Trigger? && s.mode != Rtl && s.mode != Hold
            && s'.bits != {} && s.triggered * s'.bits == {}
            && exists k :: 0 <= k <= n && BeganAt(r, k, n + 1)
                           && ((((e.time - r.events[k].time) % 0x1_0000_0000) as real) > r.cfg.fsTimeout * 1000.0)
  {
    FailsafeHasBeginning(r, n + 1);
    EveryStateIsSound(r, 0, n);
    assert r.Step(n);
    BitsChangeOnlyOnTrigger(r.cfg, r.states[n], r.events[n]);
    var e := r.events[n];
    if e.Trigger? {
      forall k | 0 <= k <= n && BeganAt(r, k, n + 1)
        ensures Elapsed(Clock(e.time), r.states[n + 1].startTime) == (e.time - r.events[k].time) % 0x1_0000_0000
      {
        ElapsedNeverOverestimates(r.events[k].time, e.time);
      }
    }
  }

  /**
   An action fires only for a failsafe present without a break since the report that started its
   timer, and only after more than FS_TIMEOUT seconds of true time, even if the clock wrapped.
   */
  lemma FiringIsJustified(r: Run, n: nat)
    requires r.Valid() && n < |r.events| && Sound(r.states[0]) && r.states[0].bits == {}
    requires r.FiresAt(n)
    ensures exists k :: 0 <= k <= n && BeganAt(r, k, n + 1)
                        && ((r.events[n].time - r.events[k].time) as real) > r.cfg.fsTimeout * 1000.0
  {
    FiringIsExact(r, n);
    var k :| 0 <= k <= n && BeganAt(r, k, n + 1)
             && ((((r.events[n].time - r.events[k].time) % 0x1_0000_0000) as real) > r.cfg.fsTimeout * 1000.0);
    ElapsedNeverOverestimates(r.events[k].time, r.events[n].time);
  }

  /** A failsafe is latched exactly if some action fired with it present and it has stayed present. */
  lemma {:induction false} LatchIsExact(r: Run, f: Failsafe, n: nat)
    requires r.Valid() && n <= |r.events| && Sound(r.states[0]) && r.states[0].triggered == {}
    ensures f in r.states[n].triggered <==>
            exists i :: 0 <= i < n && r.FiresAt(i) && forall m :: i < m <= n ==> f in r.states[m].bits
  {
    if n == 0 {
    } else {
      LatchIsExact(r, f, n - 1);
      EveryStateIsSound(r, 0, n - 1);
      assert r.Step(n - 1);
      BitsChangeOnlyOnTrigger(r.cfg, r.states[n - 1], r.events[n - 1]);
      if f in r.states[n].triggered && !r.FiresAt(n - 1) {
        var i :| 0 <= i < n - 1 && r.FiresAt(i) && forall m :: i < m <= n - 1 ==> f in r.states[m].bits;
        assert forall m :: i < m <= n ==> f in r.states[m].bits;
      }
    }
  }

  /** While a latched failsafe is never cleared it stays latched, so nothing fires. */
  lemma {:induction false} LatchHolds(r: Run, f: Failsafe, i: nat, n: nat)
    requires r.Valid() && i <= n <= |r.events| && Sound(r.states[i])
    requires f in r.states[i].triggered
    requires forall m :: i < m <= n ==> f in r.states[m].bits
    ensures f in r.states[n].triggered
    ensures forall m :: i <= m < n ==> !r.FiresAt(m)
    decreases n
  {
    if i == n {
    } else {
      LatchHolds(r, f, i, n - 1);
      EveryStateIsSound(r, i, n - 1);
      assert r.Step(n - 1);
      var s, e := r.states[n - 1], r.events[n - 1];
      BitsChangeOnlyOnTrigger(r.cfg, s, e);
      if e.Trigger? {
        assert f in WithBits(s, e.kind, e.on, e.time).triggered;
      }
    }
  }

  /** Between two firings every failsafe latched by the first has been cleared at least once. */
  lemma NoRefireWhileLatched(r: Run, i: nat, j: nat, f: Failsafe)
    requires r.Valid() && i < j < |r.events| && Sound(r.states[0])
    requires r.FiresAt(i) && r.FiresAt(j)
    requires f in r.states[i + 1].triggered
    ensures exists m :: i + 1 < m <= j + 1 && f !in r.states[m].bits
  {
    EveryStateIsSound(r, 0, i + 1);
    if forall m :: i + 1 < m <= j + 1 ==> f in r.states[m].bits {
      LatchHolds(r, f, i + 1, j + 1);
      assert false;
    }
  }

  // ---- the radio that feeds it --------------------------------------------------------------

  /** However the clock wraps, a healthy radio link heard within two seconds never reads as failed. */
  lemma HealthyRadioNeverFails(rc: RcInput, lastValid: nat)
    requires lastValid <= rc.time && rc.lastValidRc == Clock(lastValid)
    requires !rc.overrideActive && rc.pwm >= rc.fsValue && rc.time - lastValid <= 2000
    ensures !RcFailed(rc)
  {
    ElapsedNeverOverestimates(lastValid, rc.time);
  }

  /**
   Each of the two inputs sets or clears a failsafe of its own: a pulse below the threshold or two
   silent seconds the throttle one, and a second and a half without an override the RC one.
   */
  lemma RadioSetsItsFailsafe(s: State, cfg: Config, rc: RcInput, env: Env, lastValid: nat, lastOverride: nat)
    requires Sound(s) && lastValid <= rc.time && lastOverride <= rc.time
    requires rc.lastValidRc == Clock(lastValid) && rc.overrideTimer == Clock(lastOverride)
    ensures var bits := AfterTrigger(s, cfg, RcKind(rc), RcFailed(rc), rc.time, env).bits;
            if rc.overrideActive then
              && (RcLost in bits <==> (rc.time - lastOverride) % 0x1_0000_0000 > 1500)
              && bits - {RcLost} == s.bits - {RcLost}
            else
              && (ThrottleLost in bits <==> rc.pwm < rc.fsValue || (rc.time - lastValid) % 0x1_0000_0000 > 2000)
              && bits - {ThrottleLost} == s.bits - {ThrottleLost}
  {
    ElapsedNeverOverestimates(lastValid, rc.time);
    ElapsedNeverOverestimates(lastOverride, rc.time);
    BitsChangeOnlyOnTrigger(cfg, s, Trigger(RcKind(rc), RcFailed(rc), rc.time, env));
  }
}
