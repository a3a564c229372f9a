/**
 ModeSmartRTL: waiting for the saved path to be cleaned up, then following it home point by point.
 The path kept by the AP_SmartRTL library is a sequence whose last point is the newest.
 */
module SmartRtl {

  datatype Point = Point(north: real, east: real, down: real)

  datatype Stage = WaitForPathCleanup | PathFollow | StopAtHome | Failure

  datatype State = State(stage: Stage, loadPoint: bool, reachedDestination: bool, destination: Point, path: seq<Point>)

  /**
   What one update finds: whether the cleanup has finished and with which path, whether the library
   refuses to pop (inactive, or its semaphore taken), whether the origin is known, and whether the
   vehicle is at or past its destination.
   */
  datatype Leg = Leg(cleanupDone: bool, cleaned: seq<Point>, popBlocked: bool, originSet: bool, arrived: bool)

  /** An update of the mode, or the library being offered the current position. */
  datatype Event = Update(leg: Leg) | Save(position: Point, accepted: bool)

  predicate Pops(s: State, e: Event) {
    e.Update? && s.stage == PathFollow && s.loadPoint && !e.leg.popBlocked && s.path != []
  }

  /** An update that finds the vehicle at or past its destination; stopping comes before looking. */
  predicate Arrives(s: State, e: Event) {
    e.Update? && s.stage == PathFollow && e.leg.arrived && (s.loadPoint ==> !e.leg.popBlocked && s.path != [])
  }

  function AfterPop(s: State, leg: Leg): State
    requires s.path != []
  {
    var n := |s.path| - 1;
    var popped := s.(path := s.path[..n], loadPoint := false);
    if leg.originSet then popped.(destination := s.path[n], reachedDestination := false)
    else popped.(stage := Failure)
  }

  function AfterUpdate(s: State, leg: Leg): State {
    match s.stage
    case WaitForPathCleanup =>
      if leg.cleanupDone then s.(stage := PathFollow, loadPoint := true, path := leg.cleaned) else s
    case PathFollow =>
      if s.loadPoint && (leg.popBlocked || s.path == []) then s.(stage := StopAtHome)
      else
        var loaded := if s.loadPoint then AfterPop(s, leg) else s;
        if leg.arrived then loaded.(loadPoint := true) else loaded
    case StopAtHome | Failure => s.(reachedDestination := true)
  }

  function AfterSave(s: State, inSmartRtl: bool, position: Point, accepted: bool): State {
    if !inSmartRtl && accepted then s.(path := s.path + [position]) else s
  }

  class ModeSmartRtl {
    var stage: Stage
    var loadPoint: bool
    var reachedDestination: bool
    var destination: Point
    var path: seq<Point>

    function Abstract(): State
      reads this
    {
      State(stage, loadPoint, reachedDestination, destination, path)
    }

    /** ModeSmartRTL::_enter; the target starts at the current location. */
    method Enter(originSet: bool, libraryActive: bool, current: Point) returns (ok: bool)
      modifies this
      ensures ok == (originSet && libraryActive)
      ensures Abstract() == if ok then State(WaitForPathCleanup, old(loadPoint), false, current, old(path))
                            else old(Abstract())
    {
      if !originSet {
        return false;
      }
      if !libraryActive {
        return false;
      }
      destination := current;
      stage := WaitForPathCleanup;
      reachedDestination := false;
      return true;
    }

    method Update(leg: Leg)
      modifies this
      ensures Abstract() == AfterUpdate(old(Abstract()), leg)
    {
      match stage {
        case WaitForPathCleanup =>
          if leg.cleanupDone {
            path := leg.cleaned;
            stage := PathFollow;
            loadPoint := true;
          }
        case PathFollow =>
          if loadPoint {
            if leg.popBlocked || path == [] {
              stage := StopAtHome;
              return;
            }
            var nextPoint := path[|path| - 1];
            path := path[..|path| - 1];
            loadPoint := false;
            if leg.originSet {
              destination := nextPoint;
              reachedDestination := false;
            } else {
              stage := Failure;
            }
          }
          if leg.arrived {
            loadPoint := true;
          }
        case StopAtHome | Failure =>
          reachedDestination := true;
      }
    }

    method SavePosition(inSmartRtl: bool, position: Point, accepted: bool)
      modifies `path
      ensures Abstract() == AfterSave(old(Abstract()), inSmartRtl, position, accepted)
    {
      var savePos := !inSmartRtl;
      if savePos && accepted {
        path := path + [position];
      }
    }
  }

  // ---- runs inside the mode -----------------------------------------------------------------

  function After(s: State, e: Event): State {
    match e
    case Update(leg) => AfterUpdate(s, leg)
    case Save(position, accepted) => AfterSave(s, true, position, accepted)
  }

  /** A run that starts following the path. */
  datatype Run = Run(states: seq<State>, events: seq<Event>)
  {
    ghost predicate Valid() {
      && |states| == |events| + 1
      && states[0].stage == PathFollow
      && (forall i :: 0 <= i < |events| ==> Step(i))
    }

    ghost predicate Step(i: nat)
      requires i < |events| && |states| == |events| + 1
    {
      states[i + 1] == After(states[i], events[i])
    }

    ghost predicate PopsAt(i: nat)
      requires i < |events| && |states| == |events| + 1
    {
      Pops(states[i], events[i])
    }

    ghost predicate ArrivesAt(i: nat)
      requires i < |events| && |states| == |events| + 1
    {
      Arrives(states[i], events[i])
    }
  }

  /** The points popped by the first n events. */
  function Popped(states: seq<State>, events: seq<Event>, n: nat): seq<Point>
    requires n <= |events| < |states|
    decreases n
  {
    if n == 0 then []
    else
      var before := Popped(states, events, n - 1);
      var s := states[n - 1];
      if Pops(s, events[n - 1]) then before + [s.path[|s.path| - 1]] else before
  }

  function Reversed(s: seq<Point>): (r: seq<Point>)
    ensures |r| == |s|
    ensures forall i :: 0 <= i < |s| ==> r[i] == s[|s| - 1 - i]
  {
    seq(|s|, i requires 0 <= i < |s| => s[|s| - 1 - i])
  }

  /**
   Whatever happens while following, the points still on the path and the points popped, newest
   first, are together exactly the path as it was: last in first out, nothing added, nothing lost.
   */
  lemma {:induction false} PathIsFollowedBackwards(r: Run, n: nat)
    requires r.Valid() && n <= |r.events|
    ensures r.states[0].path == r.states[n].path + Reversed(Popped(r.states, r.events, n))
    ensures r.states[n].stage != WaitForPathCleanup
  {
    if n == 0 {
    } else {
      PathIsFollowedBackwards(r, n - 1);
      assert r.Step(n - 1);
      var before, popped := r.states[n - 1].path, Popped(r.states, r.events, n - 1);
      if r.PopsAt(n - 1) {
        var last := before[|before| - 1];
        assert Reversed(popped + [last]) == [last] + Reversed(popped);
        assert before == before[..|before| - 1] + [last];
      }
    }
  }

  /** A popped point is loaded as the destination and stays it until the next pop. */
  lemma {:induction false} NoArrivalNoPop(r: Run, i: nat, n: nat)
    requires r.Valid() && i < n <= |r.events| && r.PopsAt(i) && r.events[i].leg.originSet
    requires forall m :: i < m < n ==> !r.PopsAt(m)
    ensures var s := r.states[i];
            r.states[n].destination == s.path[|s.path| - 1]
    ensures (forall m :: i <= m < n ==> !r.ArrivesAt(m)) ==> !r.states[n].loadPoint
    decreases n
  {
    assert r.Step(n - 1);
    var arrives := r.ArrivesAt(n - 1);
    if n == i + 1 {
    } else {
      NoArrivalNoPop(r, i, n - 1);
      assert !r.PopsAt(n - 1);
      PathIsFollowedBackwards(r, n - 1);
    }
  }

  /** Failing to set a destination ends the following for good. */
  lemma {:induction false} FailureIsFinal(r: Run, i: nat, n: nat)
    requires r.Valid() && i <= n <= |r.events| && r.states[i].stage == Failure
    ensures r.states[n].stage == Failure
    decreases n
  {
    if i == n {
    } else {
      FailureIsFinal(r, i, n - 1);
      assert r.Step(n - 1);
    }
  }

  /** Each pop after the first happens only once the previous point has been reached or passed. */
  lemma NextPopNeedsArrival(r: Run, i: nat, j: nat)
    requires r.Valid() && i < j < |r.events| && r.PopsAt(i) && r.PopsAt(j)
    requires forall m :: i < m < j ==> !r.PopsAt(m)
    ensures exists m :: i <= m < j && r.ArrivesAt(m)
                        && r.states[m + 1].destination == r.states[i].path[|r.states[i].path| - 1]
  {
    assert r.Step(i);
    if !r.events[i].leg.originSet {
      FailureIsFinal(r, i + 1, j);
    }
    NoArrivalNoPop(r, i, j);
    var m :| i <= m < j && r.ArrivesAt(m);
    NoArrivalNoPop(r, i, m + 1);
  }

  /** The mode stops at home only with the path used up, or with the library refusing to pop. */
  lemma StopsOnlyWhenPathEmpty(r: Run, n: nat)
    requires r.Valid() && n < |r.events|
    requires r.states[n].stage == PathFollow && r.states[n + 1].stage == StopAtHome
    ensures r.events[n].Update? && r.states[n].loadPoint
    ensures r.states[n].path == [] || r.events[n].leg.popBlocked
    ensures !r.events[n].leg.popBlocked ==> Reversed(Popped(r.states, r.events, n)) == r.states[0].path
  {
    assert r.Step(n);
    PathIsFollowedBackwards(r, n);
  }

  /** How many of the first n events reached or passed the destination of a leg. */
  function Arrivals(states: seq<State>, events: seq<Event>, n: nat): nat
    requires n <= |events| < |states|
    decreases n
  {
    if n == 0 then 0
    else
      Arrivals(states, events, n - 1) + (if Arrives(states[n - 1], events[n - 1]) then 1 else 0)
  }

  /** The library never refuses to pop and the origin stays known. */
  ghost predicate WellServed(r: Run, n: nat)
    requires n <= |r.events|
  {
    forall i :: 0 <= i < n && r.events[i].Update? ==> !r.events[i].leg.popBlocked && r.events[i].leg.originSet
  }

  /** Each popped point is one completed leg, except the one still being driven. */
  lemma {:induction false} LegsAreCounted(r: Run, n: nat)
    requires r.Valid() && n <= |r.events| && r.states[0].loadPoint && WellServed(r, n)
    ensures var s := r.states[n];
            var driving := if s.stage == PathFollow && !s.loadPoint then 1 else 0;
            && (s.stage == PathFollow || (s.stage == StopAtHome && s.path == []))
            && Arrivals(r.states, r.events, n) + driving + |s.path| == |r.states[0].path|
  {
    if n == 0 {
    } else {
      LegsAreCounted(r, n - 1);
      assert r.Step(n - 1);
    }
  }

  /** Event k is an update that finds a leg completed for every point of the saved path. */
  ghost predicate EveryLegDoneAt(r: Run, k: nat)
    requires r.Valid() && k < |r.events|
  {
    r.events[k].Update? && Arrivals(r.states, r.events, k) == |r.states[0].path|
  }

  lemma StopsOnceEveryLegDone(r: Run, k: nat)
    requires r.Valid() && k < |r.events| && r.states[0].loadPoint && WellServed(r, k + 1)
    ensures r.states[k + 1].stage == StopAtHome <==> r.states[k].stage == StopAtHome || EveryLegDoneAt(r, k)
  {
    LegsAreCounted(r, k);
    assert r.Step(k);
  }

  /**
   However the driving, the updates and the offered points interleave: the vehicle has stopped at
   home exactly when some update found a leg completed for every point of the saved path.
   */
  lemma {:induction false} HomeExactlyWhenEveryLegDone(r: Run, n: nat)
    requires r.Valid() && n <= |r.events| && r.states[0].loadPoint && WellServed(r, n)
    ensures r.states[n].stage == StopAtHome <==> exists k :: 0 <= k < n && EveryLegDoneAt(r, k)
  {
    if n == 0 {
    } else {
      HomeExactlyWhenEveryLegDone(r, n - 1);
      StopsOnceEveryLegDone(r, n - 1);
    }
  }

  // ---- before and after following -----------------------------------------------------------

  /** Nothing happens until the cleanup is done; then its path is followed from its newest point. */
  lemma FollowsTheCleanedPath(s: State, leg: Leg)
    requires s.stage == WaitForPathCleanup
    ensures leg.cleanupDone ==>
              After(s, Update(leg)) == State(PathFollow, true, s.reachedDestination, s.destination, leg.cleaned)
    ensures !leg.cleanupDone ==> After(s, Update(leg)) == s
  {}

  /** Outside the mode every accepted point becomes the newest of the path; inside it none does. */
  lemma SavesOnlyOutside(s: State, position: Point, accepted: bool)
    ensures AfterSave(s, true, position, accepted) == s
    ensures AfterSave(s, false, position, accepted).path == if accepted then s.path + [position] else s.path
    ensures AfterSave(s, false, position, accepted) == s.(path := AfterSave(s, false, position, accepted).path)
  {}

  /** Following fails exactly at a pop without an origin. */
  lemma FailsOnlyWithoutOrigin(r: Run, n: nat)
    requires r.Valid() && n < |r.events| && r.states[n].stage == PathFollow
    ensures r.states[n + 1].stage == Failure <==> r.PopsAt(n) && !r.events[n].leg.originSet
  {
    assert r.Step(n);
  }

  /**
   A run that starts out not having reached its destination never reports it reached while following,
   and reports it at the first update after it has stopped at home or failed.
   */
  lemma {:induction false} ReachedOnlyWhenStopped(r: Run, n: nat)
    requires r.Valid() && n <= |r.events| && !r.states[0].reachedDestination
    ensures r.states[n].reachedDestination <==>
            exists k :: 0 <= k < n && r.events[k].Update? && r.states[k].stage in {StopAtHome, Failure}
  {
    PathIsFollowedBackwards(r, n);
    if n == 0 {
    } else {
      ReachedOnlyWhenStopped(r, n - 1);
      PathIsFollowedBackwards(r, n - 1);
      assert r.Step(n - 1);
      if r.states[n - 1].stage == PathFollow && r.states[n - 1].reachedDestination {
        StoppedStays(r, n - 1);
      }
    }
  }

  /** Once stopped or failed, the mode stays so. */
  lemma {:induction false} StoppedStays(r: Run, n: nat)
    requires r.Valid() && n <= |r.events|
    ensures r.states[n].stage == PathFollow ==> forall k :: 0 <= k < n ==> r.states[k].stage == PathFollow
  {
    if n == 0 {
    } else {
      StoppedStays(r, n - 1);
      PathIsFollowedBackwards(r, n - 1);
      assert r.Step(n - 1);
    }
  }
}
