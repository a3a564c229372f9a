/**
 Copter's parachute_check: a loss-of-control counter that releases the parachute after one second.
 */
module ParachuteCheck {

  const ANGLE_DEVIATION_DEG: real := 30.0

  /** What one call of the check sees. */
  datatype Sample = Sample(
    enabled: bool, armed: bool, acroOrFlip: bool, landed: bool, altCm: int, angleErrorDeg: real, baroAlt: int)
  {
    predicate Flying() {
      armed && !acroOrFlip && !landed
    }

    /** An enabled check of a flying vehicle that finds it out of control. */
    predicate Bad() {
      enabled && Flying() && angleErrorDeg > 30.0
    }

    predicate Good() {
      enabled && Flying() && angleErrorDeg <= 30.0
    }
  }

  /** Loop rate in Hz, and the minimum release altitude in metres (zero: none). */
  datatype Config = Config(loopRate: nat, altMin: int)
  {
    /** At the minimum altitude in metres, or above it, or there is none. */
    predicate HighEnough(x: Sample) {
      altMin == 0 || (x.altCm as real) / 100.0 >= altMin as real
    }
  }

  datatype State = State(count: nat, baroStart: int)

  datatype Outcome = Outcome(state: State, released: bool)

  function AfterBad(cfg: Config, s: State, x: Sample): Outcome {
    var count := if s.count < cfg.loopRate then s.count + 1 else s.count;
    if count == 1 then Outcome(State(1, x.baroAlt), false)
    else if x.baroAlt >= s.baroStart then Outcome(s.(count := 0), false)
    else if count >= cfg.loopRate then Outcome(s.(count := 0), true)
    else Outcome(s.(count := count), false)
  }

  function After(cfg: Config, s: State, x: Sample): Outcome {
    if !x.enabled then Outcome(s, false)
    else if !x.armed || x.acroOrFlip || x.landed then Outcome(s.(count := 0), false)
    else if s.count == 0 && cfg.altMin != 0 && x.altCm < cfg.altMin * 100 then Outcome(s, false)
    else if x.angleErrorDeg <= ANGLE_DEVIATION_DEG then Outcome(s.(count := if s.count > 0 then s.count - 1 else 0), false)
    else AfterBad(cfg, s, x)
  }

  class ParachuteChecker {
    const cfg: Config
    var controlLossCount: nat
    var baroAltStart: int

    function Abstract(): State
      reads this
    {
      State(controlLossCount, baroAltStart)
    }

    constructor (cfg: Config)
      ensures this.cfg == cfg && Abstract() == State(0, 0)
    {
      this.cfg := cfg;
      controlLossCount, baroAltStart := 0, 0;
    }

    /** The result says whether the parachute was released by this call. */
    method Check(x: Sample) returns (released: bool)
      modifies this
      ensures Outcome(Abstract(), released) == After(cfg, old(Abstract()), x)
    {
      released := false;
      if !x.enabled {
        return;
      }
      if !x.armed {
        controlLossCount := 0;
        return;
      }
      if x.acroOrFlip {
        controlLossCount := 0;
        return;
      }
      if x.landed {
        controlLossCount := 0;
        return;
      }
      if controlLossCount == 0 && cfg.altMin != 0 && x.altCm < cfg.altMin * 100 {
        return;
      }
      if x.angleErrorDeg <= ANGLE_DEVIATION_DEG {
        if controlLossCount > 0 {
          controlLossCount := controlLossCount - 1;
        }
        return;
      }
      if controlLossCount < cfg.loopRate {
        controlLossCount := controlLossCount + 1;
      }
      if controlLossCount == 1 {
        baroAltStart := x.baroAlt;
      } else if x.baroAlt >= baroAltStart {
        controlLossCount := 0;
      } else if controlLossCount >= cfg.loopRate {
        controlLossCount := 0;
        released := true;
      }
    }
  }

  // ---- episodes of lost control -------------------------------------------------------------

  /** State before sample n of a run. */
  function StateAt(cfg: Config, xs: seq<Sample>, n: nat): State
    requires n <= |xs|
  {
    if n == 0 then State(0, 0) else After(cfg, StateAt(cfg, xs, n - 1), xs[n - 1]).state
  }

  predicate ReleasedAt(cfg: Config, xs: seq<Sample>, n: nat)
    requires n < |xs|
  {
    After(cfg, StateAt(cfg, xs, n), xs[n]).released
  }

  function Bads(xs: seq<Sample>, start: nat, end: nat): nat
    requires start <= end <= |xs|
    decreases end
  {
    if start == end then 0 else Bads(xs, start, end - 1) + (if xs[end - 1].Bad() then 1 else 0)
  }

  function Goods(xs: seq<Sample>, start: nat, end: nat): nat
    requires start <= end <= |xs|
    decreases end
  {
    if start == end then 0 else Goods(xs, start, end - 1) + (if xs[end - 1].Good() then 1 else 0)
  }

  function Balance(xs: seq<Sample>, start: nat, end: nat): int
    requires start <= end <= |xs|
  {
    Bads(xs, start, end) - Goods(xs, start, end)
  }

  /**
   Samples start..end belong to one episode: it opened with a bad sample high enough, the vehicle was
   flying at every enabled sample, the balance of bad over good never came back to zero, and every
   later bad sample saw the barometer below its value at the start.
   */
  ghost predicate Episode(cfg: Config, xs: seq<Sample>, start: nat, end: nat)
    requires start < end <= |xs|
  {
    && xs[start].Bad() && cfg.HighEnough(xs[start])
    && (forall m :: start <= m < end && xs[m].enabled ==> xs[m].Flying())
    && (forall m :: start < m <= end ==> Balance(xs, start, m) >= 1)
    && (forall m :: start < m < end && xs[m].Bad() ==> xs[m].baroAlt < xs[start].baroAlt)
  }

  /** The counter counts the current episode. */
  ghost predicate Counts(cfg: Config, xs: seq<Sample>, start: nat, end: nat, s: State)
    requires start < end <= |xs|
  {
    Episode(cfg, xs, start, end) && s == State(Balance(xs, start, end), xs[start].baroAlt)
  }

  /**
   Between calls the counter is below the loop rate and, when not zero, is exactly bad minus good
   samples since it last left zero.
   */
  lemma {:induction false} CounterCountsEpisode(cfg: Config, xs: seq<Sample>, n: nat)
    requires cfg.loopRate >= 2 && n <= |xs|
    ensures StateAt(cfg, xs, n).count < cfg.loopRate
    ensures StateAt(cfg, xs, n).count > 0 ==>
              exists start :: 0 <= start < n && Counts(cfg, xs, start, n, StateAt(cfg, xs, n))
  {
    if n == 0 {
    } else {
      CounterCountsEpisode(cfg, xs, n - 1);
      var before, after := StateAt(cfg, xs, n - 1), StateAt(cfg, xs, n);
      if after.count > 0 {
        if before.count == 0 {
          assert Bads(xs, n - 1, n - 1) == 0 && Goods(xs, n - 1, n - 1) == 0;
          assert Counts(cfg, xs, n - 1, n, after);
        } else {
          var start :| 0 <= start < n - 1 && Counts(cfg, xs, start, n - 1, before);
          EpisodeGrows(cfg, xs, start, n - 1);
          assert Counts(cfg, xs, start, n, after);
        }
      }
    }
  }

  /** One more sample keeps the episode going if it does none of the things that end it. */
  lemma EpisodeGrows(cfg: Config, xs: seq<Sample>, start: nat, end: nat)
    requires start < end < |xs| && Episode(cfg, xs, start, end)
    requires xs[end].enabled ==> xs[end].Flying()
    requires xs[end].Bad() ==> xs[end].baroAlt < xs[start].baroAlt
    requires xs[end].Good() ==> Balance(xs, start, end) >= 2
    ensures Episode(cfg, xs, start, end + 1)
  {
    assert Balance(xs, start, end) >= 1;
    assert Balance(xs, start, end + 1) >= 1;
  }

  /** An episode whose bad samples, up to `last`, outnumber its good ones by a full second of checks. */
  ghost predicate FullSecond(cfg: Config, xs: seq<Sample>, start: nat, last: nat)
    requires start <= last < |xs|
  {
    && Episode(cfg, xs, start, last + 1)
    && Balance(xs, start, last + 1) == cfg.loopRate
    && Bads(xs, start, last + 1) >= cfg.loopRate
  }

  /** The parachute is released only for a vehicle found out of control in the air, at that very check. */
  lemma ReleaseNeedsBadSample(cfg: Config, xs: seq<Sample>, n: nat)
    requires n < |xs| && ReleasedAt(cfg, xs, n)
    ensures xs[n].enabled && xs[n].armed && !xs[n].acroOrFlip && !xs[n].landed && xs[n].angleErrorDeg > 30.0
  {}

  /** A check that finds no vehicle in the air ends the episode; a check of a disabled parachute does not. */
  lemma GroundEndsEpisode(cfg: Config, xs: seq<Sample>, n: nat)
    requires n < |xs|
    ensures xs[n].enabled && !xs[n].Flying() ==> StateAt(cfg, xs, n + 1).count == 0
    ensures !xs[n].enabled ==> StateAt(cfg, xs, n + 1) == StateAt(cfg, xs, n)
  {}

  /** An episode begins exactly at a bad sample that is high enough. */
  lemma EpisodeBeginsExactly(cfg: Config, xs: seq<Sample>, n: nat)
    requires cfg.loopRate >= 1 && n < |xs| && StateAt(cfg, xs, n).count == 0
    ensures StateAt(cfg, xs, n + 1).count > 0 <==> xs[n].Bad() && cfg.HighEnough(xs[n])
  {}

  /**
   A release needs a full second of net lost control in one episode that began above the minimum
   altitude, with the barometer below its starting value at every bad sample after the first.
   */
  lemma ReleaseNeedsSustainedFall(cfg: Config, xs: seq<Sample>, n: nat)
    requires cfg.loopRate >= 2 && n < |xs| && ReleasedAt(cfg, xs, n)
    ensures exists start :: 0 <= start < n && FullSecond(cfg, xs, start, n)
  {
    CounterCountsEpisode(cfg, xs, n);
    var s := StateAt(cfg, xs, n);
    assert s.count > 0;
    var start :| 0 <= start < n && Counts(cfg, xs, start, n, s);
    EpisodeGrows(cfg, xs, start, n);
    assert Balance(xs, start, n + 1) == s.count + 1;
    assert FullSecond(cfg, xs, start, n);
  }

  /** And a sample that completes such a second does release, resetting the counter. */
  lemma SustainedFallReleases(cfg: Config, xs: seq<Sample>, start: nat, n: nat)
    requires cfg.loopRate >= 2 && start < n < |xs|
    requires Counts(cfg, xs, start, n, StateAt(cfg, xs, n))
    ensures ReleasedAt(cfg, xs, n) <==> FullSecond(cfg, xs, start, n)
    ensures ReleasedAt(cfg, xs, n) ==> StateAt(cfg, xs, n + 1).count == 0
  {
    CounterCountsEpisode(cfg, xs, n);
    if xs[n].Bad() && xs[n].baroAlt < xs[start].baroAlt {
      EpisodeGrows(cfg, xs, start, n);
    }
  }

  /** The loop rate matters: at one check a second the parachute is never released. */
  lemma {:induction false} RateOneNeverReleases(cfg: Config, xs: seq<Sample>, n: nat)
    requires cfg.loopRate == 1 && n < |xs|
    ensures StateAt(cfg, xs, n).count <= 1 && !ReleasedAt(cfg, xs, n)
  {
    if n == 0 {
    } else {
      RateOneNeverReleases(cfg, xs, n - 1);
    }
  }
}
