/**
 Copter's NAV_PAYLOAD_PLACE mission command: do_payload_place and the fall-through state machine of
 verify_payload_place. Times of the run are true milliseconds; the machine sees the 32-bit clock.
 */
module PayloadPlace {
  import opened ArduMath

  const HOVER_CALIBRATE_TIME := 2000
  const DESCEND_CALIBRATE_TIME := 2000
  const PLACED_TIME := 500

  datatype Stage =
    | FlyToLocation | CalibratingHoverStart | CalibratingHover | DescendingStart | Descending
    | ReleasingStart | Releasing | Released | AscendingStart | Ascending | Done
  {
    function Rank(): (r: nat)
      ensures r <= 10
    {
      match this
      case FlyToLocation => 0
      case CalibratingHoverStart => 1
      case CalibratingHover => 2
      case DescendingStart => 3
      case Descending => 4
      case ReleasingStart => 5
      case Releasing => 6
      case Released => 7
      case AscendingStart => 8
      case Ascending => 9
      case Done => 10
    }
  }

  datatype State = State(
    stage: Stage, hoverStart: nat, hoverLevel: real, descendStart: nat, placeStart: nat,
    descendLevel: real, descendStartAltitude: real, descendMax: real)

  /** One call of verify_payload_place. */
  datatype Call = Call(
    time: nat, landed: bool, throttle: real, altitude: real, reachedWp: bool,
    gripperValid: bool, gripperReleased: bool)

  /** What a call returns and what it makes the gripper and the log see. */
  datatype Reply = Reply(completed: bool, release: bool, gripperMissing: bool, maxDescent: bool)

  const WAITING := Reply(false, false, false, false)
  const COMPLETE := Reply(true, false, false, false)

  /** IEEE x / d > f, with a zero denominator giving an infinity of the sign of x, or NaN. */
  predicate RatioAbove(x: real, d: real, f: real) {
    if d > 0.0 then x > f * d else if d < 0.0 then x < f * d else x > 0.0
  }

  /** Above 70% of the hover level and, once that is calibrated, above 90% of the descent level. */
  predicate AboveThresholds(hoverLevel: real, descendLevel: real, throttle: real) {
    RatioAbove(throttle, hoverLevel, 0.7) &&
    (IsZero(descendLevel) || RatioAbove(throttle, descendLevel, 0.9))
  }

  /** do_payload_place: only the stage and the descent limit are set. */
  function Started(s: State, flyFirst: bool, descendMax: nat): State {
    s.(stage := if flyFirst then FlyToLocation else CalibratingHoverStart, descendMax := descendMax as real)
  }

  // ---- the state machine, stage by stage ----------------------------------------------------

  function AfterCall(s: State, c: Call): (State, Reply) {
    FlyStep(if c.landed && s.stage.Rank() <= Descending.Rank() then s.(stage := ReleasingStart) else s, c)
  }

  function FlyStep(s: State, c: Call): (State, Reply) {
    if s.stage != FlyToLocation then HoverStep(s, c)
    else if !c.reachedWp then (s, WAITING)
    else HoverStep(s.(stage := CalibratingHoverStart), c)
  }

  function HoverStep(s: State, c: Call): (State, Reply) {
    var now := Clock(c.time);
    var s1 := if s.stage == CalibratingHoverStart then s.(hoverStart := now, stage := CalibratingHover) else s;
    if s1.stage != CalibratingHover then DescentStep(s1, c)
    else if Elapsed(now, s1.hoverStart) < HOVER_CALIBRATE_TIME then (s1, WAITING)
    else DescentStep(s1.(hoverLevel := c.throttle, stage := DescendingStart), c)
  }

  function DescentStep(s: State, c: Call): (State, Reply) {
    var now := Clock(c.time);
    var s1 := if s.stage == DescendingStart
      then s.(descendStart := now, descendStartAltitude := c.altitude, descendLevel := 0.0, stage := Descending)
      else s;
    if s1.stage != Descending then ReleaseStep(s1, c)
    else if !IsZero(s1.descendMax) && s1.descendStartAltitude - c.altitude > s1.descendMax then
      (s1.(stage := Ascending), WAITING.(maxDescent := true))
    else
      var s2 := if IsZero(s1.descendLevel) && Elapsed(now, s1.descendStart) > DESCEND_CALIBRATE_TIME
        then s1.(descendLevel := c.throttle) else s1;
      if AboveThresholds(s2.hoverLevel, s2.descendLevel, c.throttle) then (s2.(placeStart := 0), WAITING)
      else if s2.placeStart == 0 then (s2.(placeStart := now), WAITING)
      else if Elapsed(now, s2.placeStart) < PLACED_TIME then (s2, WAITING)
      else ReleaseStep(s2.(stage := ReleasingStart), c)
  }

  function ReleaseStep(s: State, c: Call): (State, Reply) {
    if s.stage == ReleasingStart then
      if !c.gripperValid then (s.(stage := AscendingStart), COMPLETE.(gripperMissing := true))
      else if !c.gripperReleased then (s.(stage := Releasing), WAITING.(release := true))
      else var (s', reply) := AscentStep(s.(stage := AscendingStart), c); (s', reply.(release := true))
    else if s.stage == Releasing && c.gripperValid && !c.gripperReleased then (s, WAITING)
    else AscentStep(if s.stage == Releasing || s.stage == Released then s.(stage := AscendingStart) else s, c)
  }

  function AscentStep(s: State, c: Call): (State, Reply) {
    var s1 := if s.stage == AscendingStart then s.(stage := Ascending) else s;
    if s1.stage == Ascending && !c.reachedWp then (s1, WAITING) else (s1.(stage := Done), COMPLETE)
  }

  class PayloadPlacer {
    var stage: Stage
    var hoverStart: nat
    var hoverLevel: real
    var descendStart: nat
    var placeStart: nat
    var descendLevel: real
    var descendStartAltitude: real
    var descendMax: real

    function Abstract(): State
      reads this
    {
      State(stage, hoverStart, hoverLevel, descendStart, placeStart, descendLevel, descendStartAltitude, descendMax)
    }

    method DoPayloadPlace(hasLocation: bool, p1: nat)
      modifies this
      ensures Abstract() == Started(old(Abstract()), hasLocation, p1)
    {
      if hasLocation {
        stage := FlyToLocation;
      } else {
        stage := CalibratingHoverStart;
      }
      descendMax := p1 as real;
    }

    method VerifyPayloadPlace(c: Call) returns (reply: Reply)
      modifies this
      ensures (Abstract(), reply) == AfterCall(old(Abstract()), c)
    {
      var now := Clock(c.time);
      reply := WAITING;
      ghost var result := AfterCall(Abstract(), c);
      if c.landed && stage.Rank() <= Descending.Rank() {
        stage := ReleasingStart;
      }
      assert FlyStep(Abstract(), c) == result;
      if stage == FlyToLocation {
        if !c.reachedWp {
          return;
        }
        stage := CalibratingHoverStart;
      }
      assert HoverStep(Abstract(), c) == result;
      if stage == CalibratingHoverStart {
        hoverStart := now;
        stage := CalibratingHover;
      }
      if stage == CalibratingHover {
        if Elapsed(now, hoverStart) < HOVER_CALIBRATE_TIME {
          return;
        }
        hoverLevel := c.throttle;
        stage := DescendingStart;
      }
      assert DescentStep(Abstract(), c) == result;
      if stage == DescendingStart {
        descendStart := now;
        descendStartAltitude := c.altitude;
        descendLevel := 0.0;
        stage := Descending;
      }
      if stage == Descending {
        if !IsZero(descendMax) && descendStartAltitude - c.altitude > descendMax {
          stage := Ascending;
          reply := reply.(maxDescent := true);
          return;
        }
        if IsZero(descendLevel) && Elapsed(now, descendStart) > DESCEND_CALIBRATE_TIME {
          descendLevel := c.throttle;
        }
        if AboveThresholds(hoverLevel, descendLevel, c.throttle) {
          placeStart := 0;
          return;
        }
        if placeStart == 0 {
          placeStart := now;
          return;
        } else if Elapsed(now, placeStart) < PLACED_TIME {
          return;
        }
        stage := ReleasingStart;
      }
      assert ReleaseStep(Abstract(), c) == result;
      reply := ReleaseAndAscend(c);
    }

    /** The stages from the release on, entered by falling through or from a later call. */
    method ReleaseAndAscend(c: Call) returns (reply: Reply)
      requires stage != FlyToLocation && stage != CalibratingHoverStart && stage != CalibratingHover
      requires stage != DescendingStart && stage != Descending
      modifies `stage
      ensures (Abstract(), reply) == ReleaseStep(old(Abstract()), c)
    {
      reply := WAITING;
      if stage == ReleasingStart {
        if c.gripperValid {
          reply := reply.(release := true);
        } else {
          stage := AscendingStart;
          reply := Reply(true, false, true, false);
          return;
        }
        stage := Releasing;
      }
      if stage == Releasing {
        if c.gripperValid && !c.gripperReleased {
          return;
        }
        stage := Released;
      }
      if stage == Released {
        stage := AscendingStart;
      }
      if stage == AscendingStart {
        stage := Ascending;
      }
      if stage == Ascending {
        if !c.reachedWp {
          return;
        }
        stage := Done;
      }
      reply := reply.(completed := true);
    }
  }

  // ---- runs ---------------------------------------------------------------------------------

  /** A run of one command: the calls in order, the state around each and the reply to each. */
  datatype Run = Run(states: seq<State>, calls: seq<Call>, replies: seq<Reply>)
  {
    ghost predicate Valid() {
      && |states| == |calls| + 1 && |replies| == |calls|
      && (forall i :: 0 <= i < |calls| ==> Step(i))
      && (forall i, j :: 0 <= i <= j < |calls| ==> calls[i].time <= calls[j].time)
    }

    ghost predicate Step(i: nat)
      requires i < |calls| && |states| == |calls| + 1 && |replies| == |calls|
    {
      (states[i + 1], replies[i]) == AfterCall(states[i], calls[i])
    }

    ghost predicate StartsFresh()
      requires Valid()
    {
      states[0].stage == FlyToLocation || states[0].stage == CalibratingHoverStart
    }
  }

  /** What one call may do to the stage, and when it tells the gripper to release. */
  ghost predicate Advances(s: State, s': State, reply: Reply) {
    && s.stage.Rank() <= s'.stage.Rank()
    && s'.stage != DescendingStart && s'.stage != ReleasingStart
    && (reply.release ==> s.stage.Rank() <= ReleasingStart.Rank() < s'.stage.Rank())
    && (s.stage != Releasing && s'.stage == Releasing ==> reply.release)
    && (reply.completed ==> s'.stage.Rank() > Releasing.Rank())
  }

  /** A call that gets past the release: descended too far, no gripper, or the gripper is done. */
  predicate PassesRelease(s: State, c: Call, reply: Reply) {
    reply.maxDescent || reply.gripperMissing ||
    ((c.gripperReleased || !c.gripperValid) && (reply.release || s.stage == Releasing))
  }

  lemma ReleaseAdvances(s: State, c: Call)
    requires s.stage.Rank() >= ReleasingStart.Rank()
    ensures var (s', reply) := ReleaseStep(s, c);
            && s.stage.Rank() <= s'.stage.Rank() && s'.stage != ReleasingStart
            && (reply.release ==> s.stage == ReleasingStart)
            && (s.stage == ReleasingStart && s'.stage == Releasing ==> reply.release)
            && (s.stage.Rank() <= Releasing.Rank() < s'.stage.Rank() ==> PassesRelease(s, c, reply))
            && (reply.completed ==> s'.stage.Rank() > Releasing.Rank())
  {}

  lemma DescentAdvances(s: State, c: Call)
    requires s.stage.Rank() >= DescendingStart.Rank()
    ensures var (s', reply) := DescentStep(s, c);
            && Advances(s, s', reply)
            && (s.stage.Rank() <= Releasing.Rank() < s'.stage.Rank() ==> PassesRelease(s, c, reply))
  {
    ReleaseAdvances(s.(stage := ReleasingStart), c);
    if s.stage.Rank() >= ReleasingStart.Rank() {
      ReleaseAdvances(s, c);
    }
  }

  lemma HoverAdvances(s: State, c: Call)
    requires s.stage != FlyToLocation
    ensures var (s', reply) := HoverStep(s, c);
            && Advances(s, s', reply)
            && (s.stage.Rank() <= Releasing.Rank() < s'.stage.Rank() ==> PassesRelease(s, c, reply))
  {
    if s.stage.Rank() >= DescendingStart.Rank() {
      DescentAdvances(s, c);
    } else {
      var start := if s.stage == CalibratingHoverStart then Clock(c.time) else s.hoverStart;
      DescentAdvances(s.(hoverStart := start, hoverLevel := c.throttle, stage := DescendingStart), c);
    }
  }

  lemma CallAdvances(s: State, c: Call)
    ensures var (s', reply) := AfterCall(s, c);
            && Advances(s, s', reply)
            && (s.stage.Rank() <= Releasing.Rank() < s'.stage.Rank() ==> PassesRelease(s, c, reply))
  {
    var s1 := if c.landed && s.stage.Rank() <= Descending.Rank() then s.(stage := ReleasingStart) else s;
    HoverAdvances(if s1.stage == FlyToLocation then s1.(stage := CalibratingHoverStart) else s1, c);
  }

  lemma StepAdvances(r: Run, i: nat)
    requires r.Valid() && i < |r.calls|
    ensures Advances(r.states[i], r.states[i + 1], r.replies[i])
    ensures r.states[i].stage.Rank() <= Releasing.Rank() < r.states[i + 1].stage.Rank() ==>
              PassesRelease(r.states[i], r.calls[i], r.replies[i])
  {
    assert r.Step(i);
    CallAdvances(r.states[i], r.calls[i]);
  }

  lemma {:induction false} StageNeverGoesBack(r: Run, i: nat, j: nat)
    requires r.Valid() && i <= j <= |r.calls|
    ensures r.states[i].stage.Rank() <= r.states[j].stage.Rank()
    decreases j
  {
    if i == j {
    } else {
      StageNeverGoesBack(r, i, j - 1);
      StepAdvances(r, j - 1);
    }
  }

  /** The gripper is told to release at most once in a run, whatever state it starts from. */
  lemma ReleasesAtMostOnce(r: Run, i: nat, j: nat)
    requires r.Valid() && i < j < |r.calls|
    ensures !(r.replies[i].release && r.replies[j].release)
  {
    StageNeverGoesBack(r, i + 1, j);
    StepAdvances(r, i);
    StepAdvances(r, j);
  }

  ghost predicate CommandedBefore(r: Run, n: nat)
    requires r.Valid() && n <= |r.calls|
  {
    exists k :: 0 <= k < n && r.replies[k].release
  }

  /**
   Call m ended the wait for the gripper: it had been told to release and reported released, or was
   no longer there; or the call found no gripper at all, or a descent that went too far.
   */
  ghost predicate EndsWaitAt(r: Run, m: nat)
    requires r.Valid() && m < |r.calls|
  {
    r.replies[m].maxDescent || r.replies[m].gripperMissing ||
    ((r.calls[m].gripperReleased || !r.calls[m].gripperValid) && CommandedBefore(r, m + 1))
  }

  /** Waiting for the gripper means it was told to release; past that, some call ended the wait. */
  lemma {:induction false} WaitsUntilReleased(r: Run, n: nat)
    requires r.Valid() && r.StartsFresh() && n <= |r.calls|
    ensures r.states[n].stage == Releasing ==> CommandedBefore(r, n)
    ensures r.states[n].stage.Rank() > Releasing.Rank() ==> exists m :: 0 <= m < n && EndsWaitAt(r, m)
  {
    if n == 0 {
    } else {
      WaitsUntilReleased(r, n - 1);
      StepAdvances(r, n - 1);
      if r.replies[n - 1].release {
        assert CommandedBefore(r, n);
      }
      if r.states[n - 1].stage.Rank() <= Releasing.Rank() < r.states[n].stage.Rank() {
        assert EndsWaitAt(r, n - 1);
      }
    }
  }

  /** A command completes only after some call, perhaps the same one, ended the wait. */
  lemma CompletionHasReason(r: Run, n: nat)
    requires r.Valid() && r.StartsFresh() && n < |r.calls| && r.replies[n].completed
    ensures exists m :: 0 <= m <= n && EndsWaitAt(r, m)
  {
    StepAdvances(r, n);
    WaitsUntilReleased(r, n + 1);
  }

  // ---- when each stage is left --------------------------------------------------------------

  /** A vehicle that has landed before the release tells the gripper, if there is one, at once. */
  lemma LandingReleasesAtOnce(s: State, c: Call)
    requires c.landed && s.stage.Rank() <= Descending.Rank()
    ensures var (s', reply) := AfterCall(s, c);
            && (reply.release <==> c.gripperValid) && (reply.gripperMissing <==> !c.gripperValid)
            && s'.stage.Rank() >= Releasing.Rank()
  {}

  /** Until then the flight ends on arrival and the hover after 2000 ms on the 32-bit clock. */
  lemma WaitingStagesEnd(s: State, c: Call)
    requires !c.landed
    ensures var s' := AfterCall(s, c).0;
            && (s.stage == FlyToLocation ==> (s'.stage == FlyToLocation <==> !c.reachedWp))
            && (s.stage == CalibratingHover ==>
                  (s'.stage == CalibratingHover <==> (Clock(c.time) - s.hoverStart) % 0x1_0000_0000 < 2000))
  {}

  /**
   Afterwards the wait for the gripper ends when it reports released or is gone, and the command
   completes, having released, when the vehicle has climbed back to its waypoint.
   */
  lemma FinalStagesEnd(s: State, c: Call)
    requires s.stage.Rank() >= Releasing.Rank()
    ensures var (s', reply) := AfterCall(s, c);
            && !reply.release && !reply.gripperMissing && !reply.maxDescent
            && (s.stage == Releasing ==> (s'.stage == Releasing <==> c.gripperValid && !c.gripperReleased))
            && (s.stage != Releasing || s'.stage != Releasing ==>
                  (reply.completed <==> c.reachedWp || s.stage == Done) && (reply.completed <==> s'.stage == Done))
  {}

  // ---- when the gripper is released ---------------------------------------------------------

  /** The throttle is at most a fraction of a level that was calibrated; a zero level only admits none. */
  predicate AtMost(throttle: real, fraction: real, level: real) {
    if level > 0.0 then throttle <= fraction * level
    else if level < 0.0 then throttle >= fraction * level
    else throttle <= 0.0
  }

  /** Call j can calibrate the descent level: over two seconds after call d, with a nonzero throttle. */
  predicate Calibrates(calls: seq<Call>, d: nat, j: nat)
    requires d <= j < |calls|
  {
    (calls[j].time - calls[d].time) % 0x1_0000_0000 > 2000 && Abs(calls[j].throttle) >= FLT_EPSILON
  }

  /** The call from d on, and before n, that calibrates the descent level, or n if there is none. */
  function Calibrator(calls: seq<Call>, d: nat, n: nat): (k: nat)
    requires d <= n <= |calls|
    ensures d <= k <= n
    decreases n
  {
    if n == d then n
    else
      var k := Calibrator(calls, d, n - 1);
      if k < n - 1 || Calibrates(calls, d, n - 1) then k else n
  }

  /** It is the first that can. */
  lemma {:induction false} CalibratorIsFirst(calls: seq<Call>, d: nat, n: nat)
    requires d <= n <= |calls|
    ensures var k := Calibrator(calls, d, n);
            && (k < n ==> Calibrates(calls, d, k))
            && (forall i :: d <= i < k ==> !Calibrates(calls, d, i))
    decreases n
  {
    if n == d {
    } else {
      CalibratorIsFirst(calls, d, n - 1);
    }
  }

  /**
   Call m of a descent begun at call d saw low throttle: at most 70% of the throttle that ended the
   hover, or at most 90% of the throttle that calibrated the descent, if that was done by then.
   */
  ghost predicate LowAt(r: Run, d: nat, m: nat)
    requires r.Valid() && d <= m < |r.calls|
  {
    var k := Calibrator(r.calls, d, m + 1);
    AtMost(r.calls[m].throttle, 0.7, r.calls[d].throttle) ||
    (k <= m && AtMost(r.calls[m].throttle, 0.9, r.calls[k].throttle))
  }

  /** The hover began at call h, on arrival, and went on up to call n. */
  ghost predicate HoveringFrom(r: Run, h: nat, n: nat)
    requires r.Valid() && h < n <= |r.calls|
  {
    && (r.states[h].stage == FlyToLocation ==> r.calls[h].reachedWp)
    && (forall m :: h < m <= n ==> r.states[m].stage == CalibratingHover)
  }

  /** Hover calibration began at call h and ended, at least two seconds later, at call d. */
  ghost predicate Hovered(r: Run, h: nat, d: nat)
    requires r.Valid() && h < d < |r.calls|
  {
    r.calls[d].time - r.calls[h].time >= 2000 && HoveringFrom(r, h, d)
  }

  ghost predicate DescendingSince(r: Run, d: nat, n: nat)
    requires r.Valid() && d <= n <= |r.calls|
  {
    r.states[d].stage != Descending && forall m :: d < m <= n ==> r.states[m].stage == Descending
  }

  /** Calls p to n of the descent begun at d all saw low throttle, for at least half a second. */
  ghost predicate Settled(r: Run, d: nat, p: nat, n: nat)
    requires r.Valid() && d <= p < n < |r.calls|
  {
    && DescendingSince(r, d, n)
    && r.calls[n].time - r.calls[p].time >= 500
    && (forall m :: p <= m <= n ==> LowAt(r, d, m))
  }

  ghost predicate SafeRelease(r: Run, n: nat)
    requires r.Valid() && n < |r.calls|
  {
    r.calls[n].landed ||
    exists h, d, p :: 0 <= h < d <= p < n && Hovered(r, h, d) && Settled(r, d, p, n)
  }

  // ---- the timers of a reachable state ------------------------------------------------------

  predicate Low(after: State, c: Call) {
    !AboveThresholds(after.hoverLevel, after.descendLevel, c.throttle)
  }

  /** Low throttle as the machine judged it at call m. */
  ghost predicate JudgedLow(r: Run, m: nat)
    requires r.Valid() && m < |r.calls|
  {
    Low(r.states[m + 1], r.calls[m])
  }

  /** The hover timer was set by call h and the vehicle has hovered since. */
  ghost predicate HoverTimer(r: Run, h: nat, n: nat)
    requires r.Valid() && h < n <= |r.calls|
  {
    r.states[n].hoverStart == Clock(r.calls[h].time) && HoveringFrom(r, h, n)
  }

  /** The place timer was set by call p, not before call d, and all calls since were judged low. */
  ghost predicate PlaceTimer(r: Run, d: nat, p: nat, n: nat)
    requires r.Valid() && d <= p < n <= |r.calls|
  {
    && r.states[n].placeStart == Clock(r.calls[p].time)
    && (forall m :: p <= m < n ==> JudgedLow(r, m))
  }

  ghost predicate DescentSince(r: Run, h: nat, d: nat, n: nat)
    requires r.Valid() && h < d < n <= |r.calls|
  {
    && Hovered(r, h, d) && DescendingSince(r, d, n)
    && (r.states[n].placeStart == 0 || exists p :: d <= p < n && PlaceTimer(r, d, p, n))
  }

  /** A command whose place timer is clear, or whose vehicle never reads a zero throttle. */
  ghost predicate CleanStart(r: Run)
    requires r.Valid()
  {
    r.StartsFresh() &&
    (r.states[0].placeStart == 0 || forall i :: 0 <= i < |r.calls| ==> r.calls[i].throttle > 0.0)
  }

  /** The timers of every reachable state, up to the release. */
  ghost predicate TimersSound(r: Run, n: nat)
    requires r.Valid() && n <= |r.calls|
  {
    var s := r.states[n];
    && s.stage != DescendingStart && s.stage != ReleasingStart
    && (s.stage.Rank() <= CalibratingHover.Rank() ==>
          s.placeStart == r.states[0].placeStart)
    && (s.stage == CalibratingHover ==> exists h :: 0 <= h < n && HoverTimer(r, h, n))
    && (s.stage == Descending ==> exists h, d :: 0 <= h < d < n && DescentSince(r, h, d, n))
  }

  /** How one call reaches or stays in the hover. */
  lemma CallIntoHover(s: State, c: Call)
    ensures var s' := AfterCall(s, c).0;
            && (s'.stage.Rank() <= CalibratingHover.Rank() ==> s'.placeStart == s.placeStart)
            && (s'.stage == CalibratingHover ==>
                  if s.stage == CalibratingHover then s'.hoverStart == s.hoverStart
                  else s'.hoverStart == Clock(c.time) && (s.stage == FlyToLocation ==> c.reachedWp))
  {}

  /** How one call reaches or stays in the descent, and what it then knows of the throttle. */
  lemma CallIntoDescent(s: State, c: Call)
    requires AfterCall(s, c).0.stage == Descending
    ensures var s' := AfterCall(s, c).0;
            && s.stage.Rank() <= Descending.Rank()
            && (s'.placeStart != 0 ==> Low(s', c))
            && s'.placeStart == (if !Low(s', c) then 0 else if s.placeStart != 0 then s.placeStart else Clock(c.time))
            && (s.stage == CalibratingHover ==> Elapsed(Clock(c.time), s.hoverStart) >= HOVER_CALIBRATE_TIME)
            && (s.stage == CalibratingHover && c.throttle > 0.0 ==> s'.placeStart == 0)
            && s.stage != FlyToLocation && s.stage != CalibratingHoverStart
  {}

  lemma {:induction false} TimersStaySound(r: Run, n: nat)
    requires r.Valid() && CleanStart(r) && n <= |r.calls|
    ensures TimersSound(r, n)
  {
    if n == 0 {
    } else {
      TimersStaySound(r, n - 1);
      var before, c, after := r.states[n - 1], r.calls[n - 1], r.states[n];
      assert r.Step(n - 1);
      CallAdvances(before, c);
      CallIntoHover(before, c);
      if after.stage == CalibratingHover {
        HoverContinues(r, n);
      }
      if after.stage == Descending {
        CallIntoDescent(before, c);
        if before.stage == Descending {
          DescentContinues(r, n);
        } else {
          DescentBegins(r, n);
        }
      }
    }
  }

  lemma HoverContinues(r: Run, n: nat)
    requires r.Valid() && 0 < n <= |r.calls| && TimersSound(r, n - 1)
    requires r.states[n].stage == CalibratingHover
    ensures exists h :: 0 <= h < n && HoverTimer(r, h, n)
  {
    assert r.Step(n - 1);
    CallIntoHover(r.states[n - 1], r.calls[n - 1]);
    if r.states[n - 1].stage == CalibratingHover {
      var h :| 0 <= h < n - 1 && HoverTimer(r, h, n - 1);
      assert HoverTimer(r, h, n);
    } else {
      assert HoverTimer(r, n - 1, n);
    }
  }

  lemma DescentBegins(r: Run, n: nat)
    requires r.Valid() && CleanStart(r) && 0 < n <= |r.calls| && TimersSound(r, n - 1)
    requires r.states[n - 1].stage != Descending && r.states[n].stage == Descending
    ensures exists h, d :: 0 <= h < d < n && DescentSince(r, h, d, n)
  {
    var d := n - 1;
    assert r.Step(d);
    CallIntoDescent(r.states[d], r.calls[d]);
    var h :| 0 <= h < d && HoverTimer(r, h, d);
    ElapsedNeverOverestimates(r.calls[h].time, r.calls[d].time);
    assert Hovered(r, h, d);
    if r.states[n].placeStart != 0 {
      assert PlaceTimer(r, d, d, n);
    }
    assert DescentSince(r, h, d, n);
  }

  lemma DescentContinues(r: Run, n: nat)
    requires r.Valid() && 0 < n <= |r.calls| && TimersSound(r, n - 1)
    requires r.states[n - 1].stage == r.states[n].stage == Descending
    ensures exists h, d :: 0 <= h < d < n && DescentSince(r, h, d, n)
  {
    var h, d :| 0 <= h < d < n - 1 && DescentSince(r, h, d, n - 1);
    StayingInDescent(r, n - 1);
    if r.states[n].placeStart != 0 {
      if r.states[n - 1].placeStart == 0 {
        assert PlaceTimer(r, d, n - 1, n);
      } else {
        var p :| d <= p < n - 1 && PlaceTimer(r, d, p, n - 1);
        assert PlaceTimer(r, d, p, n);
      }
    }
    assert DescentSince(r, h, d, n);
  }

  lemma StayingInDescent(r: Run, n: nat)
    requires r.Valid() && n < |r.calls| && r.states[n].stage == r.states[n + 1].stage == Descending
    ensures !r.calls[n].landed && !r.replies[n].maxDescent
    ensures r.states[n + 1].placeStart ==
            if !JudgedLow(r, n) then 0
            else if r.states[n].placeStart != 0 then r.states[n].placeStart else Clock(r.calls[n].time)
  {
    assert r.Step(n);
    CallIntoDescent(r.states[n], r.calls[n]);
    CallStaysInDescent(r.states[n], r.calls[n]);
  }

  lemma CallStaysInDescent(s: State, c: Call)
    requires s.stage == AfterCall(s, c).0.stage == Descending
    ensures !c.landed && !AfterCall(s, c).1.maxDescent
  {}

  /** What a releasing call that has not landed must have found. */
  lemma CallThatReleases(s: State, c: Call)
    requires AfterCall(s, c).1.release && !c.landed
    ensures s.stage == ReleasingStart || s.stage == DescendingStart || s.stage == Descending
            || (s.stage == CalibratingHover && s.placeStart != 0 && c.throttle <= 0.0)
    ensures s.stage == Descending ==>
              && s.placeStart != 0 && Elapsed(Clock(c.time), s.placeStart) >= PLACED_TIME
              && Low(AfterCall(s, c).0, c) && !AfterCall(s, c).1.maxDescent
  {}

  lemma ReleaseFromDescent(r: Run, n: nat)
    requires r.Valid() && n < |r.calls| && r.replies[n].release && !r.calls[n].landed
    requires r.states[n].stage == Descending
    ensures r.states[n].placeStart != 0 && Elapsed(Clock(r.calls[n].time), r.states[n].placeStart) >= 500
    ensures JudgedLow(r, n) && !r.replies[n].maxDescent
  {
    assert r.Step(n);
    CallThatReleases(r.states[n], r.calls[n]);
  }

  // ---- what the levels mean -----------------------------------------------------------------

  /** The levels and marks in state n are those of the descent begun at call d. */
  ghost predicate Levels(r: Run, d: nat, n: nat)
    requires r.Valid() && d < n <= |r.calls|
  {
    var s := r.states[n];
    && s.hoverLevel == r.calls[d].throttle
    && s.descendStart == Clock(r.calls[d].time) && s.descendStartAltitude == r.calls[d].altitude
    && s.descendMax == r.states[d].descendMax
    && var k := Calibrator(r.calls, d, n);
       if k < n then s.descendLevel == r.calls[k].throttle else IsZero(s.descendLevel)
  }

  /** What a call of the descent that has not landed does to the levels. */
  lemma CallKeepsLevels(s: State, c: Call)
    requires s.stage == Descending && !c.landed
    ensures var s' := AfterCall(s, c).0;
            var tooFar := !IsZero(s.descendMax) && s.descendStartAltitude - c.altitude > s.descendMax;
            && s'.hoverLevel == s.hoverLevel && s'.descendStart == s.descendStart
            && s'.descendStartAltitude == s.descendStartAltitude && s'.descendMax == s.descendMax
            && (AfterCall(s, c).1.maxDescent <==> tooFar)
            && (!tooFar ==>
                  s'.descendLevel == (if IsZero(s.descendLevel) && Elapsed(Clock(c.time), s.descendStart) > 2000
                                      then c.throttle else s.descendLevel))
  {}

  lemma LevelsContinue(r: Run, d: nat, n: nat)
    requires r.Valid() && d < n < |r.calls| && Levels(r, d, n)
    requires r.states[n].stage == Descending && !r.calls[n].landed && !r.replies[n].maxDescent
    ensures Levels(r, d, n + 1)
  {
    assert r.Step(n);
    CallKeepsLevels(r.states[n], r.calls[n]);
    ElapsedNeverOverestimates(r.calls[d].time, r.calls[n].time);
    CalibratorIsFirst(r.calls, d, n);
  }

  lemma CallBeginsDescent(s: State, c: Call)
    requires s.stage == CalibratingHover && AfterCall(s, c).0.stage == Descending
    ensures AfterCall(s, c).0 ==
            s.(stage := Descending, hoverLevel := c.throttle, descendStart := Clock(c.time), descendLevel := 0.0,
               descendStartAltitude := c.altitude, placeStart := AfterCall(s, c).0.placeStart)
  {}

  lemma LevelsBegin(r: Run, d: nat)
    requires r.Valid() && d < |r.calls| && r.states[d].stage == CalibratingHover && r.states[d + 1].stage == Descending
    ensures Levels(r, d, d + 1)
  {
    assert r.Step(d);
    CallBeginsDescent(r.states[d], r.calls[d]);
  }

  /** A descent that began, out of the hover, at call d keeps its levels. */
  lemma {:induction false} LevelsHold(r: Run, d: nat, n: nat)
    requires r.Valid() && d < n <= |r.calls| && r.states[d].stage == CalibratingHover && DescendingSince(r, d, n)
    ensures Levels(r, d, n)
    decreases n
  {
    if n == d + 1 {
      LevelsBegin(r, d);
    } else {
      LevelsHold(r, d, n - 1);
      StayingInDescent(r, n - 1);
      LevelsContinue(r, d, n - 1);
    }
  }

  /** What the machine judges low is low. */
  lemma JudgedLowIsLow(r: Run, d: nat, m: nat)
    requires r.Valid() && d <= m < |r.calls| && r.states[d].stage == CalibratingHover && DescendingSince(r, d, m)
    requires r.states[d + 1].stage == Descending && !r.calls[m].landed && !r.replies[m].maxDescent
    ensures JudgedLow(r, m) <==> LowAt(r, d, m)
  {
    if m == d {
      LevelsHold(r, d, d + 1);
    } else {
      LevelsHold(r, d, m);
      LevelsContinue(r, d, m);
    }
    LevelsDecide(r, d, m);
  }

  lemma LevelsDecide(r: Run, d: nat, m: nat)
    requires r.Valid() && d <= m < |r.calls| && Levels(r, d, m + 1)
    ensures JudgedLow(r, m) <==> LowAt(r, d, m)
  {
    CalibratorIsFirst(r.calls, d, m + 1);
  }

  lemma CallStartsDescent(r: Run, d: nat)
    requires r.Valid() && d < |r.calls| && r.states[d].stage == CalibratingHover && r.states[d + 1].stage == Descending
    ensures !r.calls[d].landed && !r.replies[d].maxDescent
  {
    assert r.Step(d);
    CallBeginsUnlimited(r.states[d], r.calls[d]);
  }

  lemma CallBeginsUnlimited(s: State, c: Call)
    requires s.stage == CalibratingHover && AfterCall(s, c).0.stage == Descending
    ensures !c.landed && !AfterCall(s, c).1.maxDescent
  {}

  /** The judgements of a whole stretch of the descent. */
  lemma StretchIsLow(r: Run, d: nat, p: nat, n: nat)
    requires r.Valid() && d <= p <= n <= |r.calls| && d < n
    requires r.states[d].stage == CalibratingHover && DescendingSince(r, d, n)
    ensures forall m :: p <= m < n ==> (JudgedLow(r, m) <==> LowAt(r, d, m))
  {
    forall m | p <= m < n
      ensures JudgedLow(r, m) <==> LowAt(r, d, m)
    {
      if m == d {
        CallStartsDescent(r, d);
      } else {
        StayingInDescent(r, m);
      }
      JudgedLowIsLow(r, d, m);
    }
  }

  // ---- when the gripper is released, and when not -------------------------------------------

  /**
   Over every run from a clean start, the gripper is released only on landing, or after two seconds
   of hover followed by half a second in which every check saw the throttle low.
   */
  lemma ReleaseIsSafe(r: Run, n: nat)
    requires r.Valid() && CleanStart(r) && n < |r.calls| && r.replies[n].release
    ensures SafeRelease(r, n)
  {
    if !r.calls[n].landed {
      TimersStaySound(r, n);
      assert r.Step(n);
      CallThatReleases(r.states[n], r.calls[n]);
      assert r.states[n].stage == Descending;
      var h, d :| 0 <= h < d < n && DescentSince(r, h, d, n);
      ReleaseFromDescent(r, n);
      var p :| d <= p < n && PlaceTimer(r, d, p, n);
      TimerIsSettled(r, d, p, n);
    }
  }

  lemma TimerIsSettled(r: Run, d: nat, p: nat, n: nat)
    requires r.Valid() && d <= p < n < |r.calls| && r.states[d].stage == CalibratingHover && DescendingSince(r, d, n)
    requires r.replies[n].release && !r.calls[n].landed && PlaceTimer(r, d, p, n)
    ensures Settled(r, d, p, n)
  {
    ReleaseFromDescent(r, n);
    ElapsedNeverOverestimates(r.calls[p].time, r.calls[n].time);
    StretchIsLow(r, d, p, n);
    JudgedLowIsLow(r, d, n);
  }

  /** The descent found by the timers is the one that began at call d, out of the hover. */
  lemma DescentIsKnown(r: Run, d: nat, n: nat)
    requires r.Valid() && CleanStart(r) && d < n <= |r.calls| && DescendingSince(r, d, n)
    ensures exists h :: 0 <= h < d && DescentSince(r, h, d, n)
    ensures r.states[d].stage == CalibratingHover
  {
    TimersStaySound(r, n);
    var h, e :| 0 <= h < e < n && DescentSince(r, h, e, n);
    assert e == d;
  }

  lemma LowCallKeepsTimer(r: Run, d: nat, n: nat)
    requires r.Valid() && d < n <= |r.calls| && r.states[n].stage == Descending && JudgedLow(r, n - 1)
    ensures var before := r.states[n - 1].placeStart;
            r.states[n].placeStart == if before != 0 then before else Clock(r.calls[n - 1].time)
  {
    assert r.Step(n - 1);
    CallIntoDescent(r.states[n - 1], r.calls[n - 1]);
  }

  /** If the 32-bit clock does not read zero at p, the place timer then runs from p or before. */
  lemma {:induction false} TimerKeepsRunning(r: Run, d: nat, p: nat, n: nat)
    requires r.Valid() && CleanStart(r) && d <= p < n <= |r.calls| && DescendingSince(r, d, n)
    requires r.calls[p].time % 0x1_0000_0000 != 0 && forall m :: p <= m < n ==> JudgedLow(r, m)
    ensures exists q :: d <= q <= p && r.states[n].placeStart == Clock(r.calls[q].time) != 0
    decreases n
  {
    LowCallKeepsTimer(r, d, n);
    if p == n - 1 {
      DescentIsKnown(r, d, n);
      var h :| 0 <= h < d && DescentSince(r, h, d, n);
      var q :| d <= q < n && PlaceTimer(r, d, q, n);
    } else {
      TimerKeepsRunning(r, d, p, n - 1);
    }
  }

  /**
   Conversely, a call of the descent that ends half a second of low throttle, begun at a call that
   does not read the 32-bit clock at zero, releases if there is a gripper, unless it is the call that
   finds the descent has gone too far.
   */
  lemma SettledReleases(r: Run, d: nat, p: nat, n: nat)
    requires r.Valid() && CleanStart(r) && d <= p < n < |r.calls| && Settled(r, d, p, n)
    requires r.calls[p].time % 0x1_0000_0000 != 0 && r.calls[n].time - r.calls[d].time < 0x1_0000_0000
    requires !r.replies[n].maxDescent
    ensures r.replies[n].release <==> r.calls[n].gripperValid
  {
    assert r.Step(n);
    var s, c := r.states[n], r.calls[n];
    if c.landed {
      LandingReleasesAtOnce(s, c);
    } else {
      DescentIsKnown(r, d, n);
      StretchIsLow(r, d, p, n);
      TimerKeepsRunning(r, d, p, n);
      var q :| d <= q <= p && s.placeStart == Clock(r.calls[q].time) != 0;
      ElapsedNeverOverestimates(r.calls[q].time, c.time);
      JudgedLowIsLow(r, d, n);
      LowCallReleases(s, c);
    }
  }

  lemma LowCallReleases(s: State, c: Call)
    requires s.stage == Descending && !c.landed && Low(AfterCall(s, c).0, c) && !AfterCall(s, c).1.maxDescent
    requires s.placeStart != 0 && Elapsed(Clock(c.time), s.placeStart) >= 500
    ensures AfterCall(s, c).1.release <==> c.gripperValid
  {}

  lemma {:induction false} LimitIsKept(r: Run, n: nat)
    requires r.Valid() && n <= |r.calls|
    ensures r.states[n].descendMax == r.states[0].descendMax
  {
    if n == 0 {
    } else {
      LimitIsKept(r, n - 1);
      assert r.Step(n - 1);
      CallKeepsLimit(r.states[n - 1], r.calls[n - 1]);
    }
  }

  lemma CallKeepsLimit(s: State, c: Call)
    ensures AfterCall(s, c).0.descendMax == s.descendMax
  {}

  /** A descent is given up exactly at a call in the air that finds it past the limit, if one is set. */
  lemma DescentLimitIsExact(r: Run, d: nat, n: nat)
    requires r.Valid() && CleanStart(r) && d < n < |r.calls| && DescendingSince(r, d, n) && !r.calls[n].landed
    ensures r.replies[n].maxDescent <==>
            Abs(r.states[0].descendMax) >= FLT_EPSILON
            && r.calls[d].altitude - r.calls[n].altitude > r.states[0].descendMax
    ensures r.replies[n].maxDescent ==> r.states[n + 1].stage == Ascending && !r.replies[n].release
  {
    DescentIsKnown(r, d, n);
    LevelsHold(r, d, n);
    LimitIsKept(r, d);
    assert r.Step(n);
    CallKeepsLevels(r.states[n], r.calls[n]);
    CallGivesUp(r.states[n], r.calls[n]);
  }

  /** The limit of a command is its parameter, and zero is none. */
  lemma CommandLimitsDescent(r: Run, previous: State, flyFirst: bool, p1: nat, d: nat, n: nat)
    requires r.Valid() && previous.placeStart == 0 && r.states[0] == Started(previous, flyFirst, p1)
    requires d < n < |r.calls| && DescendingSince(r, d, n) && !r.calls[n].landed
    ensures r.replies[n].maxDescent <==> p1 > 0 && r.calls[d].altitude - r.calls[n].altitude > p1 as real
  {
    DescentLimitIsExact(r, d, n);
  }

  lemma CallGivesUp(s: State, c: Call)
    requires s.stage == Descending
    ensures AfterCall(s, c).1.maxDescent ==> AfterCall(s, c).0.stage == Ascending && !AfterCall(s, c).1.release
  {}

  // ---- a stale place timer ------------------------------------------------------------------

  ghost predicate AlwaysSafe(s0: State) {
    forall r: Run, n: nat ::
      r.Valid() && r.states[0] == s0 && n < |r.calls| && r.replies[n].release ==> SafeRelease(r, n)
  }

  /**
   do_payload_place leaves the place timer as the previous command left it. A new command is safe on
   every run exactly when that timer is zero.
   */
  lemma SafeExactlyWhenTimerClear(previous: State, flyFirst: bool, descendMax: nat)
    requires previous.placeStart < 0x1_0000_0000
    ensures AlwaysSafe(Started(previous, flyFirst, descendMax)) <==> previous.placeStart == 0
  {
    var s0 := Started(previous, flyFirst, descendMax);
    if s0.placeStart == 0 {
      forall r: Run, n: nat | r.Valid() && r.states[0] == s0 && n < |r.calls| && r.replies[n].release
        ensures SafeRelease(r, n)
      {
        ReleaseIsSafe(r, n);
      }
    } else {
      var r := StaleTimerReleasesEarly(s0);
    }
  }

  /** A hover that ends with zero throttle on a timer stale by half a second releases at once. */
  lemma StaleHoverReleases(s: State, c: Call)
    requires s.stage == CalibratingHover && s.descendMax >= 0.0 && s.placeStart != 0
    requires !c.landed && c.throttle == 0.0 && c.gripperValid
    requires Elapsed(Clock(c.time), s.hoverStart) >= HOVER_CALIBRATE_TIME
    requires Elapsed(Clock(c.time), s.placeStart) >= PLACED_TIME
    ensures AfterCall(s, c).1.release
  {}

  /** The first call of a command, short of the end of the calibration, only starts the hover. */
  lemma HoverStarts(s: State, c: Call)
    requires s.stage == FlyToLocation || s.stage == CalibratingHoverStart
    requires !c.landed && c.reachedWp
    ensures AfterCall(s, c).0 == s.(stage := CalibratingHover, hoverStart := Clock(c.time))
  {}

  /** A time when a timer started at clock reading `p` shows half a second. */
  lemma StaleTime(p: nat) returns (t: nat)
    requires p < 0x1_0000_0000
    ensures t >= HOVER_CALIBRATE_TIME && Elapsed(Clock(t), p) == PLACED_TIME
    ensures Elapsed(Clock(t), Clock(t - HOVER_CALIBRATE_TIME)) == HOVER_CALIBRATE_TIME
  {
    t := 0x1_0000_0000 + p + PLACED_TIME;
  }

  /** Two calls with zero throttle, two seconds apart, the second half a second after the stale time. */
  lemma StaleTimerReleasesEarly(s0: State) returns (r: Run)
    requires s0.stage == FlyToLocation || s0.stage == CalibratingHoverStart
    requires 0 < s0.placeStart < 0x1_0000_0000 && s0.descendMax >= 0.0
    ensures r.Valid() && r.states[0] == s0 && |r.calls| == 2
    ensures r.replies[1].release && !SafeRelease(r, 1)
  {
    var t := StaleTime(s0.placeStart);
    var first := Call(t - HOVER_CALIBRATE_TIME, false, 0.0, 0.0, true, true, false);
    var second := first.(time := t);
    var (s1, reply1) := AfterCall(s0, first);
    var (s2, reply2) := AfterCall(s1, second);
    HoverStarts(s0, first);
    StaleHoverReleases(s1, second);
    r := Run([s0, s1, s2], [first, second], [reply1, reply2]);
    assert r.Step(0) && r.Step(1);
  }
}
