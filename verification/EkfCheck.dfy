/**
 Copter's EKF variance check: a counter with hysteresis that raises and clears the EKF failsafe.
 */
module EkfCheck {

  const ITERATIONS_MAX := 10

  /** One call of ekf_check: no origin yet, check not applicable, or a verdict on the variances. */
  datatype Reading = NoOrigin | Inactive | Checked(bad: bool)

  datatype State = State(failCount: nat, badVariance: bool, failsafe: bool, notifyBad: bool)

  const FRESH := State(0, false, false, false)

  /** What the EKF failsafe event does to the flight mode; a landing gives up the GPS. */
  datatype Response = NoResponse | AltHold | LandWithPause(withoutGps: bool)

  /** The last two say whether AltHold and Land would let themselves be entered. */
  datatype Situation = Situation(actionIsAltHold: bool, radioFailsafe: bool, altHoldEntered: bool, landEntered: bool)

  function EventResponse(alreadyFailsafe: bool, env: Situation): Response {
    if alreadyFailsafe then NoResponse
    else if env.actionIsAltHold && !env.radioFailsafe && env.altHoldEntered then AltHold
    else LandWithPause(env.landEntered)
  }

  /** A check with verdict `bad`: up while unflagged and bad, down while good, flag at the ends. */
  function AfterCheck(s: State, bad: bool): State {
    if bad then
      if s.badVariance then s.(notifyBad := true)
      else if s.failCount + 1 >= ITERATIONS_MAX then State(ITERATIONS_MAX, true, true, true)
      else s.(failCount := s.failCount + 1, notifyBad := false)
    else
      if s.failCount == 0 then s.(notifyBad := s.badVariance)
      else if s.badVariance && s.failCount == 1 then FRESH
      else s.(failCount := s.failCount - 1, notifyBad := s.badVariance)
  }

  function After(s: State, r: Reading): State {
    match r
    case NoOrigin => s
    case Inactive => FRESH
    case Checked(bad) => AfterCheck(s, bad)
  }

  class EkfChecker {
    var failCount: nat
    var badVariance: bool
    var failsafe: bool
    var notifyBad: bool

    function Abstract(): State
      reads this
    {
      State(failCount, badVariance, failsafe, notifyBad)
    }

    constructor ()
      ensures Abstract() == FRESH
    {
      failCount, badVariance, failsafe, notifyBad := 0, false, false, false;
    }

    method Check(r: Reading, env: Situation) returns (response: Response)
      modifies this
      ensures Abstract() == After(old(Abstract()), r)
      ensures response != NoResponse <==> r == Checked(true) && !old(badVariance) && badVariance && !old(failsafe)
      ensures response != NoResponse ==> response == EventResponse(false, env)
    {
      response := NoResponse;
      if r.NoOrigin? {
        return;
      }
      if r.Inactive? {
        failCount := 0;
        badVariance := false;
        notifyBad := badVariance;
        FailsafeOffEvent();
        return;
      }
      if r.bad {
        if !badVariance {
          failCount := failCount + 1;
          if failCount >= ITERATIONS_MAX {
            failCount := ITERATIONS_MAX;
            badVariance := true;
            response := FailsafeEvent(env);
          }
        }
      } else if failCount > 0 {
        failCount := failCount - 1;
        if badVariance && failCount == 0 {
          badVariance := false;
          FailsafeOffEvent();
        }
      }
      notifyBad := badVariance;
    }

    method FailsafeEvent(env: Situation) returns (response: Response)
      modifies `failsafe
      ensures failsafe
      ensures response == EventResponse(old(failsafe), env)
    {
      if failsafe {
        return NoResponse;
      }
      failsafe := true;
      var landing := true;
      if env.actionIsAltHold {
        if !env.radioFailsafe && env.altHoldEntered {
          landing := false;
        }
      }
      response := if landing then LandWithPause(false) else AltHold;
      if landing && env.landEntered {
        response := LandWithPause(true);
      }
    }

    method FailsafeOffEvent()
      modifies `failsafe
      ensures !failsafe
    {
      if !failsafe {
        return;
      }
      failsafe := false;
    }
  }

  // ---- every reachable state ----------------------------------------------------------------

  function Run(s: State, readings: seq<Reading>): State
    decreases |readings|
  {
    if readings == [] then s else After(Run(s, readings[..|readings| - 1]), readings[|readings| - 1])
  }

  /** The failsafe and the notification follow the flag, and the flag bounds the counter. */
  ghost predicate Consistent(s: State) {
    && s.failsafe == s.badVariance == s.notifyBad
    && (if s.badVariance then 1 <= s.failCount <= 10 else s.failCount < 10)
  }

  lemma {:induction false} FailsafeFollowsFlag(readings: seq<Reading>)
    ensures Consistent(Run(FRESH, readings))
    decreases |readings|
  {
    if readings == [] {
    } else {
      FailsafeFollowsFlag(readings[..|readings| - 1]);
    }
  }

  /** The verdicts since the check last started afresh; calls without an origin do not count. */
  function Verdicts(readings: seq<Reading>): seq<bool>
    decreases |readings|
  {
    if readings == [] then []
    else
      var before := Verdicts(readings[..|readings| - 1]);
      match readings[|readings| - 1]
      case NoOrigin => before
      case Inactive => []
      case Checked(bad) => before + [bad]
  }

  function RunChecks(s: State, h: seq<bool>): State
    decreases |h|
  {
    if h == [] then s else AfterCheck(RunChecks(s, h[..|h| - 1]), h[|h| - 1])
  }

  /** Only the verdicts since the last restart matter. */
  lemma {:induction false} RunDependsOnVerdicts(readings: seq<Reading>)
    ensures Run(FRESH, readings) == RunChecks(FRESH, Verdicts(readings))
    decreases |readings|
  {
    if readings == [] {
    } else {
      var before := readings[..|readings| - 1];
      RunDependsOnVerdicts(before);
      var r := readings[|readings| - 1];
      if r.Checked? {
        var h := Verdicts(before) + [r.bad];
        assert h[..|h| - 1] == Verdicts(before);
      }
    }
  }

  // ---- raising the flag ---------------------------------------------------------------------

  /** Bad minus good verdicts in a window. */
  function Score(h: seq<bool>, start: nat, end: nat): int
    requires start <= end <= |h|
    decreases end
  {
    if start == end then 0 else Score(h, start, end - 1) + (if h[end - 1] then 1 else -1)
  }

  ghost predicate LargestRecentScore(h: seq<bool>, n: nat, v: int)
    requires n <= |h|
  {
    && (exists start :: 0 <= start <= n && Score(h, start, n) == v)
    && (forall start :: 0 <= start <= n ==> Score(h, start, n) <= v)
  }

  ghost predicate RaisedBefore(h: seq<bool>, n: nat)
    requires n <= |h|
  {
    exists m :: 0 <= m < n && RunChecks(FRESH, h[..m]).badVariance
  }

  /**
   Until the flag is raised the counter is the largest bad-minus-good score of any recent window,
   and the flag rises at the very check that brings this score to ten.
   */
  lemma {:induction false} CounterIsLargestRecentScore(h: seq<bool>, n: nat)
    requires n <= |h| && !RaisedBefore(h, n)
    ensures var s := RunChecks(FRESH, h[..n]);
            && LargestRecentScore(h, n, s.failCount)
            && (s.badVariance <==> s.failCount == 10)
            && s.failCount <= 10
  {
    if n == 0 {
      assert Score(h, 0, 0) == 0;
    } else {
      assert !RaisedBefore(h, n - 1);
      assert h[..n][..n - 1] == h[..n - 1];
      CounterIsLargestRecentScore(h, n - 1);
      var before := RunChecks(FRESH, h[..n - 1]);
      var count := RunChecks(FRESH, h[..n]).failCount;
      var best :| 0 <= best <= n - 1 && Score(h, best, n - 1) == before.failCount;
      assert Score(h, best, n) == before.failCount + (if h[n - 1] then 1 else -1);
      assert Score(h, n, n) == 0;
      forall start | 0 <= start <= n ensures Score(h, start, n) <= count {
        if start < n { assert Score(h, start, n - 1) <= before.failCount; }
      }
    }
  }

  /** Some window ending at check n, or earlier, holds ten more bad than good verdicts. */
  ghost predicate TenNetBad(h: seq<bool>, n: nat)
    requires n <= |h|
  {
    exists start, end :: 0 <= start <= end <= n && Score(h, start, end) >= 10
  }

  ghost predicate TenNetBadAt(h: seq<bool>, n: nat)
    requires n <= |h|
  {
    exists start :: 0 <= start <= n && Score(h, start, n) >= 10
  }

  lemma TenNetBadSplits(h: seq<bool>, n: nat)
    requires n <= |h|
    ensures TenNetBad(h, n) <==> TenNetBadAt(h, n) || (n > 0 && TenNetBad(h, n - 1))
  {
    if TenNetBad(h, n) {
      var start, end :| 0 <= start <= end <= n && Score(h, start, end) >= 10;
      if end == n {
        assert TenNetBadAt(h, n);
      } else {
        assert TenNetBad(h, n - 1);
      }
    }
    if TenNetBadAt(h, n) {
      var start :| 0 <= start <= n && Score(h, start, n) >= 10;
      assert TenNetBad(h, n);
    }
    if n > 0 && TenNetBad(h, n - 1) {
      var start, end :| 0 <= start <= end <= n - 1 && Score(h, start, end) >= 10;
      assert TenNetBad(h, n);
    }
  }

  /** The flag has been raised by check n exactly when some window up to n held ten more bad than good. */
  lemma {:induction false} RaisedIffTenNetBad(h: seq<bool>, n: nat)
    requires n <= |h|
    ensures RaisedBefore(h, n) || RunChecks(FRESH, h[..n]).badVariance <==> TenNetBad(h, n)
  {
    TenNetBadSplits(h, n);
    if n == 0 {
    } else {
      RaisedIffTenNetBad(h, n - 1);
      assert RaisedBefore(h, n) <==> RaisedBefore(h, n - 1) || RunChecks(FRESH, h[..n - 1]).badVariance;
    }
    if !RaisedBefore(h, n) {
      CounterIsLargestRecentScore(h, n);
    }
  }

  // ---- clearing the flag --------------------------------------------------------------------

  function Goods(h: seq<bool>): nat
    decreases |h|
  {
    if h == [] then 0 else Goods(h[..|h| - 1]) + (if h[|h| - 1] then 0 else 1)
  }

  const RAISED := State(10, true, true, true)

  /** A raised flag survives nine good checks and falls at the tenth, whatever bad ones intervene. */
  lemma {:induction false} ClearsAtTenthGoodCheck(h: seq<bool>)
    ensures Goods(h) < 10 ==> RunChecks(RAISED, h) == RAISED.(failCount := 10 - Goods(h))
    ensures Goods(h) == 10 && !h[|h| - 1] ==> RunChecks(RAISED, h) == FRESH
    decreases |h|
  {
    if h == [] {
    } else {
      ClearsAtTenthGoodCheck(h[..|h| - 1]);
    }
  }

  // ---- the response -------------------------------------------------------------------------

  /** What the k-th reading of a run that starts afresh makes the check do. */
  function ResponseAt(readings: seq<Reading>, k: nat, env: Situation): Response
    requires k < |readings|
  {
    var before, after := Run(FRESH, readings[..k]), Run(FRESH, readings[..k + 1]);
    if !before.badVariance && after.badVariance then EventResponse(before.failsafe, env) else NoResponse
  }

  /**
   There is a response exactly at the bad check that raises the flag: AltHold if that is the chosen action, the radio works and the mode can be entered;
   otherwise a landing, without GPS as soon as Land is entered.
   */
  lemma RespondsWhenRaised(readings: seq<Reading>, k: nat, env: Situation)
    requires k < |readings|
    ensures var response := ResponseAt(readings, k, env);
            var altHold := env.actionIsAltHold && !env.radioFailsafe && env.altHoldEntered;
            && (response != NoResponse <==>
                  !Run(FRESH, readings[..k]).badVariance && Run(FRESH, readings[..k + 1]).badVariance)
            && (response != NoResponse ==> response == if altHold then AltHold else LandWithPause(env.landEntered))
            && (response != NoResponse ==> readings[k] == Checked(true))
  {
    FailsafeFollowsFlag(readings[..k]);
    assert readings[..k + 1][..k] == readings[..k];
  }
}
