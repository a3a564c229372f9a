/**
 AntennaTracker::update_scan: both axes sweep back and forth between their limits.
 */
module TrackerScan {
  import opened ArduMath

  /** One axis of the scan. */
  datatype Sweep = Sweep(value: real, reverse: bool)

  datatype State = State(bearing: Sweep, pitch: Sweep)

  function Moved(s: Sweep, delta: real): real {
    if s.reverse then s.value - delta else s.value + delta
  }

  function Advance(s: Sweep, delta: real, lo: real, hi: real): Sweep {
    var moved := Moved(s, delta);
    Sweep(Constrain(moved, lo, hi), if s.reverse then !(moved < lo) else moved > hi)
  }

  function Delta(scanSpeed: real): real {
    scanSpeed * 0.02
  }

  function After(s: State, scanSpeed: real, manualYaw: bool, manualPitch: bool): State {
    State(if manualYaw then s.bearing else Advance(s.bearing, Delta(scanSpeed), 0.0, 360.0),
          if manualPitch then s.pitch else Advance(s.pitch, Delta(scanSpeed), -90.0, 90.0))
  }

  class Scanner {
    var bearing: real
    var reverseYaw: bool
    var pitch: real
    var reversePitch: bool

    function Abstract(): State
      reads this
    {
      State(Sweep(bearing, reverseYaw), Sweep(pitch, reversePitch))
    }

    method UpdateScan(scanSpeed: real, manualYaw: bool, manualPitch: bool)
      modifies this
      ensures Abstract() == After(old(Abstract()), scanSpeed, manualYaw, manualPitch)
    {
      if !manualYaw {
        var delta := scanSpeed * 0.02;
        bearing := if reverseYaw then bearing - delta else bearing + delta;
        if bearing < 0.0 && reverseYaw {
          reverseYaw := false;
        }
        if bearing > 360.0 && !reverseYaw {
          reverseYaw := true;
        }
        bearing := Constrain(bearing, 0.0, 360.0);
      }
      if !manualPitch {
        var delta := scanSpeed * 0.02;
        pitch := if reversePitch then pitch - delta else pitch + delta;
        if pitch < -90.0 && reversePitch {
          reversePitch := false;
        }
        if pitch > 90.0 && !reversePitch {
          reversePitch := true;
        }
        pitch := Constrain(pitch, -90.0, 90.0);
      }
    }
  }

  // ---- one axis, over many updates ----------------------------------------------------------

  /** The axis after n updates. */
  function Swept(s: Sweep, delta: real, lo: real, hi: real, n: nat): Sweep
    decreases n
  {
    if n == 0 then s else Swept(Advance(s, delta, lo, hi), delta, lo, hi, n - 1)
  }

  lemma {:induction false} SweptSplits(s: Sweep, delta: real, lo: real, hi: real, m: nat, n: nat)
    ensures Swept(s, delta, lo, hi, m + n) == Swept(Swept(s, delta, lo, hi, m), delta, lo, hi, n)
    decreases m
  {
    if m == 0 {
    } else {
      SweptSplits(Advance(s, delta, lo, hi), delta, lo, hi, m - 1, n);
    }
  }

  /** One update moves the axis on, in its direction, by one step, or by less onto that end. */
  predicate MovesOneStep(s: Sweep, next: Sweep, step: real, lo: real, hi: real) {
    if s.reverse then next.value == s.value - step || (next.value == lo && 0.0 <= s.value - lo < step)
    else next.value == s.value + step || (next.value == hi && 0.0 <= hi - s.value < step)
  }

  /** From any start the first update lands in range; after that each moves one step on, or onto an end. */
  lemma {:induction false} SweepStaysInRange(s: Sweep, delta: real, lo: real, hi: real, n: nat)
    requires lo <= hi && delta > 0.0 && n > 0
    ensures lo <= Swept(s, delta, lo, hi, n).value <= hi
    ensures MovesOneStep(Swept(s, delta, lo, hi, n), Swept(s, delta, lo, hi, n + 1), delta, lo, hi)
    decreases n
  {
    var next := Advance(s, delta, lo, hi);
    if n > 1 {
      SweepStaysInRange(next, delta, lo, hi, n - 1);
    } else {
      assert Swept(s, delta, lo, hi, 1) == next;
      assert Swept(s, delta, lo, hi, 2) == Swept(next, delta, lo, hi, 1) == Advance(next, delta, lo, hi);
    }
  }

  /** Updates that surely cross the range once. */
  function CrossingTime(delta: real, lo: real, hi: real): (n: nat)
    requires lo <= hi && delta > 0.0
    ensures (n as real) * delta > hi - lo
  {
    var q := (hi - lo) / delta;
    assert q * delta == hi - lo;
    assert q >= 0.0 by { if q < 0.0 { MulPositive(-q, delta); } }
    var n := q.Floor + 1;
    MulPositive((n as real) - q, delta);
    n
  }

  /** Moving up, the axis reaches the top exactly and turns round there within the distance left. */
  lemma {:induction false} ReachesTop(s: Sweep, delta: real, lo: real, hi: real, n: nat)
    requires lo <= s.value <= hi && delta > 0.0 && !s.reverse
    requires (n as real) * delta > hi - s.value
    ensures Reaches(s, delta, lo, hi, n, Sweep(hi, true))
    decreases n
  {
    var next := Advance(s, delta, lo, hi);
    assert n > 0;
    assert Swept(s, delta, lo, hi, 1) == next;
    if s.value + delta > hi {
    } else {
      assert ((n - 1) as real) * delta == (n as real) * delta - delta;
      ReachesTop(next, delta, lo, hi, n - 1);
      var k :| 0 < k <= n - 1 && Swept(next, delta, lo, hi, k) == Sweep(hi, true);
      assert Swept(s, delta, lo, hi, k + 1) == Sweep(hi, true);
    }
  }

  /** The same downwards, by reflecting the range. */
  function Mirrored(s: Sweep): Sweep {
    Sweep(-s.value, !s.reverse)
  }

  lemma {:induction false} MirrorSweep(s: Sweep, delta: real, lo: real, hi: real, n: nat)
    requires lo <= hi && delta > 0.0 && lo <= s.value <= hi
    ensures Swept(Mirrored(s), delta, -hi, -lo, n) == Mirrored(Swept(s, delta, lo, hi, n))
    decreases n
  {
    if n == 0 {
    } else {
      var next := Advance(s, delta, lo, hi);
      assert Advance(Mirrored(s), delta, -hi, -lo) == Mirrored(next);
      MirrorSweep(next, delta, lo, hi, n - 1);
    }
  }

  lemma ReachesBottom(s: Sweep, delta: real, lo: real, hi: real, n: nat)
    requires lo <= s.value <= hi && delta > 0.0 && s.reverse
    requires (n as real) * delta > s.value - lo
    ensures Reaches(s, delta, lo, hi, n, Sweep(lo, false))
  {
    ReachesTop(Mirrored(s), delta, -hi, -lo, n);
    var k :| 0 < k <= n && Swept(Mirrored(s), delta, -hi, -lo, k) == Sweep(-lo, true);
    MirrorSweep(s, delta, lo, hi, k);
    assert Mirrored(Mirrored(Swept(s, delta, lo, hi, k))) == Swept(s, delta, lo, hi, k);
  }

  ghost predicate Reaches(s: Sweep, delta: real, lo: real, hi: real, bound: nat, end: Sweep) {
    exists k :: 0 < k <= bound && Swept(s, delta, lo, hi, k) == end
  }

  lemma ReachInTurn(s: Sweep, delta: real, lo: real, hi: real, n: nat, first: Sweep, second: Sweep)
    requires Reaches(s, delta, lo, hi, n, first) && Reaches(first, delta, lo, hi, n, second)
    ensures Reaches(s, delta, lo, hi, 2 * n, first) && Reaches(s, delta, lo, hi, 2 * n, second)
  {
    var k :| 0 < k <= n && Swept(s, delta, lo, hi, k) == first;
    var m :| 0 < m <= n && Swept(first, delta, lo, hi, m) == second;
    SweptSplits(s, delta, lo, hi, k, m);
    assert 0 < k + m <= 2 * n && Swept(s, delta, lo, hi, k + m) == second;
  }

  /**
   From any state in range both ends are hit exactly, each within two crossings. As this holds from
   every state reached, both are hit again and again.
   */
  lemma BothEndsAreReached(s: Sweep, delta: real, lo: real, hi: real, crossing: nat)
    requires lo <= s.value <= hi && delta > 0.0 && (crossing as real) * delta > hi - lo
    ensures Reaches(s, delta, lo, hi, 2 * crossing, Sweep(hi, true))
    ensures Reaches(s, delta, lo, hi, 2 * crossing, Sweep(lo, false))
  {
    var top, bottom := Sweep(hi, true), Sweep(lo, false);
    if s.reverse {
      ReachesBottom(s, delta, lo, hi, crossing);
      ReachesTop(bottom, delta, lo, hi, crossing);
      ReachInTurn(s, delta, lo, hi, crossing, bottom, top);
    } else {
      ReachesTop(s, delta, lo, hi, crossing);
      ReachesBottom(top, delta, lo, hi, crossing);
      ReachInTurn(s, delta, lo, hi, crossing, top, bottom);
    }
  }

  /** Under manual control an axis is left alone, and the other scans as it would anyway. */
  lemma ManualAxisIsLeftAlone(s: State, scanSpeed: real, manualYaw: bool, manualPitch: bool)
    ensures var scanned, manual := After(s, scanSpeed, false, false), After(s, scanSpeed, manualYaw, manualPitch);
            && manual.bearing == (if manualYaw then s.bearing else scanned.bearing)
            && manual.pitch == (if manualPitch then s.pitch else scanned.pitch)
  {}

  // ---- the whole scan -----------------------------------------------------------------------

  function Scanned(s: State, scanSpeed: real, n: nat): State
    decreases n
  {
    if n == 0 then s else Scanned(After(s, scanSpeed, false, false), scanSpeed, n - 1)
  }

  lemma {:induction false} AxesScanIndependently(s: State, scanSpeed: real, n: nat)
    ensures Scanned(s, scanSpeed, n) ==
            State(Swept(s.bearing, Delta(scanSpeed), 0.0, 360.0, n), Swept(s.pitch, Delta(scanSpeed), -90.0, 90.0, n))
    decreases n
  {
    if n == 0 {
    } else {
      AxesScanIndependently(After(s, scanSpeed, false, false), scanSpeed, n - 1);
    }
  }

  ghost predicate HitsBetween(s: State, scanSpeed: real, first: nat, last: nat, bearing: real, pitch: real) {
    && (exists k :: first <= k <= last && Scanned(s, scanSpeed, k).bearing.value == bearing)
    && (exists k :: first <= k <= last && Scanned(s, scanSpeed, k).pitch.value == pitch)
  }

  /**
   Scanning without manual control covers everything for ever: after the first update, every window
   of two crossings of the wider axis contains updates exactly at 0 and 360 degrees of bearing and
   exactly at -90 and 90 degrees of pitch, and every update moves each axis on by a fiftieth of the
   scan speed, or by less onto an end.
   */
  lemma ScanCoversForEver(s: State, scanSpeed: real, n: nat)
    requires scanSpeed > 0.0 && n > 0
    ensures var step := scanSpeed / 50.0;
            var window := 2 * CrossingTime(step, 0.0, 360.0);
            && 0.0 <= Scanned(s, scanSpeed, n).bearing.value <= 360.0
            && -90.0 <= Scanned(s, scanSpeed, n).pitch.value <= 90.0
            && MovesOneStep(Scanned(s, scanSpeed, n).bearing, Scanned(s, scanSpeed, n + 1).bearing, step, 0.0, 360.0)
            && MovesOneStep(Scanned(s, scanSpeed, n).pitch, Scanned(s, scanSpeed, n + 1).pitch, step, -90.0, 90.0)
            && HitsBetween(s, scanSpeed, n, n + window, 0.0, -90.0)
            && HitsBetween(s, scanSpeed, n, n + window, 360.0, 90.0)
  {
    var delta := Delta(scanSpeed);
    var window := 2 * CrossingTime(delta, 0.0, 360.0);
    CrossingTimeGrows(delta);
    AxesScanIndependently(s, scanSpeed, n);
    AxesScanIndependently(s, scanSpeed, n + 1);
    SweepStaysInRange(s.bearing, delta, 0.0, 360.0, n);
    SweepStaysInRange(s.pitch, delta, -90.0, 90.0, n);
    AxisHits(s.bearing, delta, 0.0, 360.0, n, window);
    AxisHits(s.pitch, delta, -90.0, 90.0, n, window);
    forall k: nat ensures Scanned(s, scanSpeed, k) ==
        State(Swept(s.bearing, delta, 0.0, 360.0, k), Swept(s.pitch, delta, -90.0, 90.0, k)) {
      AxesScanIndependently(s, scanSpeed, k);
    }
  }

  lemma CrossingTimeGrows(delta: real)
    requires delta > 0.0
    ensures CrossingTime(delta, -90.0, 90.0) <= CrossingTime(delta, 0.0, 360.0)
  {
    var q1, q2 := 180.0 / delta, 360.0 / delta;
    assert q1 * delta == 180.0 && q2 * delta == 360.0;
    if q1 > q2 { MulPositive(q1 - q2, delta); }
  }

  lemma AxisHits(s: Sweep, delta: real, lo: real, hi: real, n: nat, window: nat)
    requires lo <= hi && delta > 0.0 && n > 0 && window >= 2 * CrossingTime(delta, lo, hi)
    ensures exists k :: n <= k <= n + window && Swept(s, delta, lo, hi, k).value == lo
    ensures exists k :: n <= k <= n + window && Swept(s, delta, lo, hi, k).value == hi
  {
    SweepStaysInRange(s, delta, lo, hi, n);
    var now, crossing := Swept(s, delta, lo, hi, n), CrossingTime(delta, lo, hi);
    BothEndsAreReached(now, delta, lo, hi, crossing);
    var top :| 0 < top <= 2 * crossing && Swept(now, delta, lo, hi, top) == Sweep(hi, true);
    var bottom :| 0 < bottom <= 2 * crossing && Swept(now, delta, lo, hi, bottom) == Sweep(lo, false);
    SweptSplits(s, delta, lo, hi, n, top);
    SweptSplits(s, delta, lo, hi, n, bottom);
    assert Swept(s, delta, lo, hi, n + top).value == hi;
    assert Swept(s, delta, lo, hi, n + bottom).value == lo;
  }
}
