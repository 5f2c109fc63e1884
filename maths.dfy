/**
 * Angle helpers of the surf-report application (`Helpers\Maths`): angle
 * normalisation, shortest angular distance, the short span between two
 * bearings, wrap-aware range membership, and the period/direction match
 * score the spot selector ranks forecasts by.
 */
module Maths {
  import opened Common
  import opened Php

  /** `normAngle`: `fmod(deg, 360)`, shifted up by 360 when negative. */
  function NormAngle(deg: real): (r: real)
    ensures 0.0 <= r < 360.0
  {
    var x := FMod(deg, 360.0);
    if x < 0.0 then x + 360.0 else x
  }

  /** The floored remainder `x - 360 * floor(x / 360)`, an independent definition of `NormAngle`. */
  function FlooredRem360(x: real): real
  {
    x - 360.0 * (x / 360.0).Floor as real
  }

  lemma NormAngleIsFlooredRem(x: real)
    ensures NormAngle(x) == FlooredRem360(x)
  {
    var t := x / 360.0;
    assert x == 360.0 * t;
    if x < 0.0 {
      var u := -x / 360.0;
      assert u == -t;
      var n := NonnegMod(-x, 360.0);
      assert n == -x - 360.0 * u.Floor as real;
      if n == 0.0 {
        assert u == u.Floor as real;
        assert t.Floor == -u.Floor;
      } else {
        assert u != u.Floor as real;
        assert t.Floor == -u.Floor - 1;
      }
    }
  }

  /** Angles that differ by whole turns normalise to the same bearing. */
  lemma NormAnglePeriodic(x: real, k: int)
    ensures NormAngle(x + 360.0 * k as real) == NormAngle(x)
  {
    NormAngleIsFlooredRem(x);
    NormAngleIsFlooredRem(x + 360.0 * k as real);
    var t := x / 360.0;
    assert (x + 360.0 * k as real) / 360.0 == t + k as real;
    assert (t + k as real).Floor == t.Floor + k;
  }

  /** A bearing already in [0, 360) is left alone. */
  lemma NormAngleFixes(x: real)
    requires 0.0 <= x < 360.0
    ensures NormAngle(x) == x
  {
    NormAngleIsFlooredRem(x);
    assert (x / 360.0).Floor == 0;
  }

  /** Adding a turn fraction `d` in [0, 360) to a bearing wraps past 360 at most once. */
  lemma NormAngleShift(a: real, d: real)
    requires 0.0 <= d < 360.0
    ensures NormAngle(a + d) ==
      (if NormAngle(a) + d < 360.0 then NormAngle(a) + d else NormAngle(a) + d - 360.0)
  {
    NormAngleIsFlooredRem(a);
    NormAngleIsFlooredRem(a + d);
    var t := a / 360.0;
    var n := NormAngle(a);
    assert n == a - 360.0 * t.Floor as real;
    assert (a + d) / 360.0 == t + d / 360.0;
    if n + d < 360.0 {
      assert (t + d / 360.0).Floor == t.Floor;
    } else {
      assert (t + d / 360.0).Floor == t.Floor + 1;
    }
  }

  /** `angDist`: the smaller of the two arcs between two bearings. */
  function AngDist(a: real, b: real): (r: real)
    ensures 0.0 <= r <= 180.0
  {
    var d := AbsR(NormAngle(a) - NormAngle(b));
    if d > 180.0 then 360.0 - d else d
  }

  /** The distance is zero exactly when both bearings name the same direction. */
  lemma AngDistZero(a: real, b: real)
    ensures AngDist(a, b) == 0.0 <==> NormAngle(a) == NormAngle(b)
    ensures AngDist(a, b) == AngDist(b, a)
  {
  }

  /** `angSpan`: the clockwise span from `min` to `max`, or the other way round when shorter. */
  function AngSpan(min: real, max: real): (r: real)
    ensures 0.0 <= r <= 180.0
  {
    var lo := NormAngle(min);
    var hi := NormAngle(max);
    var span := if hi - lo < 0.0 then hi - lo + 360.0 else hi - lo;
    if span <= 360.0 - span then span else 360.0 - span
  }

  /** The short span between two bearings is the same quantity as their distance. */
  lemma AngSpanIsAngDist(min: real, max: real)
    ensures AngSpan(min, max) == AngDist(min, max)
  {
  }

  /** The clockwise span from `min` to `max`, in [0, 360). */
  function ClockwiseSpan(min: real, max: real): (r: real)
    ensures 0.0 <= r < 360.0
  {
    var lo := NormAngle(min);
    var hi := NormAngle(max);
    if hi - lo < 0.0 then hi - lo + 360.0 else hi - lo
  }

  /**
   * `dirInRange`: after normalising all three, an ordinary interval when
   * `min <= max`, otherwise the range that wraps through north.
   */
  function DirInRange(deg: real, min: real, max: real): (r: bool)
    ensures NormAngle(deg) == NormAngle(min) ==> r
    ensures NormAngle(deg) == NormAngle(max) ==> r
  {
    var d := NormAngle(deg);
    var lo := NormAngle(min);
    var hi := NormAngle(max);
    if lo <= hi then lo <= d && d <= hi else d >= lo || d <= hi
  }

  /**
   * The window is the clockwise arc from `min` to `max`: a bearing is inside
   * exactly when its clockwise offset from `min` is at most the window's span.
   */
  lemma DirInRangeIsClockwiseArc(deg: real, min: real, max: real)
    ensures DirInRange(deg, min, max) <==> ClockwiseSpan(min, deg) <= ClockwiseSpan(min, max)
  {
  }

  /** The windows `min..max` and `max..min` cover the circle and overlap only at their ends. */
  lemma DirInRangeComplement(deg: real, min: real, max: real)
    requires NormAngle(min) != NormAngle(max)
    ensures DirInRange(deg, min, max) || DirInRange(deg, max, min)
    ensures DirInRange(deg, min, max) && DirInRange(deg, max, min) ==>
      NormAngle(deg) == NormAngle(min) || NormAngle(deg) == NormAngle(max)
  {
  }

  /** Membership does not depend on which turn any of the three angles is written in. */
  lemma DirInRangePeriodic(deg: real, min: real, max: real, i: int, j: int, k: int)
    ensures DirInRange(deg + 360.0 * i as real, min + 360.0 * j as real, max + 360.0 * k as real)
         == DirInRange(deg, min, max)
  {
    NormAnglePeriodic(deg, i);
    NormAnglePeriodic(min, j);
    NormAnglePeriodic(max, k);
  }

  // ---------------------------------------------------------------------
  // Match score
  // ---------------------------------------------------------------------

  /** The mid direction `matchScore` computes: `min` turned clockwise by half the short span. */
  function MidDirAsWritten(dmin: real, dmax: real): real
  {
    NormAngle(dmin + AngSpan(dmin, dmax) / 2.0)
  }

  /**
   * As written, the mid direction is not the centre of the short arc when
   * that arc runs anticlockwise from `dmin`: for the window 100..40 it is
   * 130, which is 30 from one end and 90 from the other.
   */
  lemma MidDirAsWrittenOffCentre()
    ensures MidDirAsWritten(100.0, 40.0) == 130.0
    ensures AngDist(130.0, 100.0) == 30.0 && AngDist(130.0, 40.0) == 90.0
  {
    NormAngleFixes(100.0);
    NormAngleFixes(40.0);
    NormAngleFixes(130.0);
    assert AngSpan(100.0, 40.0) == 60.0;
  }

  /**
   * The centre of the short arc between `dmin` and `dmax` (the direction
   * centre the score is documented to use): halfway along the clockwise span
   * when that span is the short one, otherwise halfway from `dmax` onwards.
   */
  function MidDir(dmin: real, dmax: real): (r: real)
    ensures 0.0 <= r < 360.0
    ensures AngDist(r, dmin) == AngSpan(dmin, dmax) / 2.0
    ensures AngDist(r, dmax) == AngSpan(dmin, dmax) / 2.0
  {
    var cw := ClockwiseSpan(dmin, dmax);
    MidDirCentred(dmin, dmax);
    if cw <= 180.0 then NormAngle(dmin + cw / 2.0)
    else NormAngle(dmax + (360.0 - cw) / 2.0)
  }

  lemma MidDirCentred(dmin: real, dmax: real)
    ensures var cw := ClockwiseSpan(dmin, dmax);
            var m := if cw <= 180.0 then NormAngle(dmin + cw / 2.0)
                     else NormAngle(dmax + (360.0 - cw) / 2.0);
            AngDist(m, dmin) == AngSpan(dmin, dmax) / 2.0 &&
            AngDist(m, dmax) == AngSpan(dmin, dmax) / 2.0
  {
    if ClockwiseSpan(dmin, dmax) <= 180.0 {
      MidDirClockwise(dmin, dmax);
    } else {
      MidDirAnticlockwise(dmin, dmax);
    }
  }

  /** The centre when the clockwise span from `dmin` is the short one. */
  lemma MidDirClockwise(dmin: real, dmax: real)
    requires ClockwiseSpan(dmin, dmax) <= 180.0
    ensures var m := NormAngle(dmin + ClockwiseSpan(dmin, dmax) / 2.0);
            AngDist(m, dmin) == AngSpan(dmin, dmax) / 2.0 &&
            AngDist(m, dmax) == AngSpan(dmin, dmax) / 2.0
  {
    var cw := ClockwiseSpan(dmin, dmax);
    var lo, hi := NormAngle(dmin), NormAngle(dmax);
    var m := NormAngle(dmin + cw / 2.0);
    NormAngleShift(dmin, cw / 2.0);
    MidArc(lo, hi, m);
    NormAngleFixes(m);
  }

  /** The centre when the clockwise span from `dmin` is the long one. */
  lemma MidDirAnticlockwise(dmin: real, dmax: real)
    requires ClockwiseSpan(dmin, dmax) > 180.0
    ensures var m := NormAngle(dmax + (360.0 - ClockwiseSpan(dmin, dmax)) / 2.0);
            AngDist(m, dmin) == AngSpan(dmin, dmax) / 2.0 &&
            AngDist(m, dmax) == AngSpan(dmin, dmax) / 2.0
  {
    var cw := ClockwiseSpan(dmin, dmax);
    var lo, hi := NormAngle(dmin), NormAngle(dmax);
    var m := NormAngle(dmax + (360.0 - cw) / 2.0);
    NormAngleShift(dmax, (360.0 - cw) / 2.0);
    MidArc(lo, hi, m);
    NormAngleFixes(m);
  }

  /** The short arc between two bearings already in [0, 360). */
  function Arc(x: real, y: real): real
  {
    var d := AbsR(x - y);
    if d > 180.0 then 360.0 - d else d
  }

  /** The arithmetic of `MidDirCentred` on normalised bearings. */
  lemma MidArc(lo: real, hi: real, m: real)
    requires 0.0 <= lo < 360.0 && 0.0 <= hi < 360.0
    requires var cw := if hi - lo < 0.0 then hi - lo + 360.0 else hi - lo;
      (cw <= 180.0 ==> m == (if lo + cw / 2.0 < 360.0 then lo + cw / 2.0 else lo + cw / 2.0 - 360.0)) &&
      (cw > 180.0 ==> m == (if hi + (360.0 - cw) / 2.0 < 360.0 then hi + (360.0 - cw) / 2.0
                            else hi + (360.0 - cw) / 2.0 - 360.0))
    ensures var cw := if hi - lo < 0.0 then hi - lo + 360.0 else hi - lo;
      var span := if cw <= 360.0 - cw then cw else 360.0 - cw;
      Arc(m, lo) == span / 2.0 && Arc(m, hi) == span / 2.0
  {
  }

  /** The period and direction distances the score adds up. */
  function PeriodDistance(per: real, pmin: Option<real>, pmax: Option<real>): (r: real)
    ensures r >= 0.0
    ensures pmin.None? || pmax.None? ==> r == 0.0
  {
    var midPer := if pmin.Some? && pmax.Some? then (pmin.value + pmax.value) / 2.0 else per;
    AbsR(per - midPer)
  }

  /**
   * `matchScore` with the short-arc centre: lower is better; the period
   * distance from the window's middle plus the weighted direction distance
   * from the direction window's centre.
   */
  function MatchScore(per: real, dir: real, pmin: Option<real>, pmax: Option<real>,
                      dmin: Option<real>, dmax: Option<real>, dirWeight: real): (r: real)
    ensures dirWeight >= 0.0 ==> r >= 0.0
    ensures pmin.None? && dmin.None? ==> r == 0.0
  {
    var dirDiff := if dmin.Some? && dmax.Some? then AngDist(dir, MidDir(dmin.value, dmax.value)) else 0.0;
    var score := PeriodDistance(per, pmin, pmax) + dirDiff * dirWeight;
    assert dirWeight >= 0.0 ==> score >= 0.0 by {
      if dirWeight >= 0.0 { MulNonneg(dirDiff, dirWeight); }
    }
    score
  }

  /** `matchScore` as the source computes it, with the mid direction of `MidDirAsWritten`. */
  function MatchScoreAsWritten(per: real, dir: real, pmin: Option<real>, pmax: Option<real>,
                               dmin: Option<real>, dmax: Option<real>, dirWeight: real): (r: real)
    ensures dirWeight >= 0.0 ==> r >= 0.0
    ensures pmin.None? && dmin.None? ==> r == 0.0
  {
    var dirDiff := if dmin.Some? && dmax.Some? then AngDist(dir, MidDirAsWritten(dmin.value, dmax.value)) else 0.0;
    var score := PeriodDistance(per, pmin, pmax) + dirDiff * dirWeight;
    assert dirWeight >= 0.0 ==> score >= 0.0 by {
      if dirWeight >= 0.0 { MulNonneg(dirDiff, dirWeight); }
    }
    score
  }

  lemma MulNonneg(a: real, b: real)
    requires a >= 0.0 && b >= 0.0
    ensures a * b >= 0.0
  {
  }

  /** A forecast right at the centre of both windows scores zero, the best possible. */
  lemma MatchScoreZeroAtCentre(pmin: real, pmax: real, dmin: real, dmax: real, w: real)
    ensures MatchScore((pmin + pmax) / 2.0, MidDir(dmin, dmax), Some(pmin), Some(pmax), Some(dmin), Some(dmax), w) == 0.0
  {
    var m := MidDir(dmin, dmax);
    NormAngleFixes(m);
    assert AngDist(m, m) == 0.0;
  }

  /**
   * With the direction window 100..40 and no period window, the selector's
   * score is best (zero) for a swell from 130, which lies inside the wrapped
   * window 30 degrees from one bound and 90 from the other, while a swell
   * from 70, the midpoint of the short arc between the bounds that the
   * source's comment names as the centre (and itself outside the wrapped
   * window), is charged 60 degrees.
   */
  lemma MatchScoreAsWrittenPrefersOffCentre(per: real, w: real)
    ensures MatchScoreAsWritten(per, 130.0, None, None, Some(100.0), Some(40.0), w) == 0.0
    ensures MatchScoreAsWritten(per, 70.0, None, None, Some(100.0), Some(40.0), w) == 60.0 * w
  {
    MidDirAsWrittenOffCentre();
    NormAngleFixes(70.0);
    assert AngDist(130.0, 130.0) == 0.0;
    assert AngDist(70.0, 130.0) == 60.0;
  }

  /** Moving the period further from the window's middle never improves the score. */
  lemma MatchScoreMonotoneInPeriod(p1: real, p2: real, dir: real, pmin: real, pmax: real,
                                   dmin: Option<real>, dmax: Option<real>, w: real)
    requires AbsR(p1 - (pmin + pmax) / 2.0) <= AbsR(p2 - (pmin + pmax) / 2.0)
    ensures MatchScore(p1, dir, Some(pmin), Some(pmax), dmin, dmax, w)
         <= MatchScore(p2, dir, Some(pmin), Some(pmax), dmin, dmax, w)
    ensures MatchScoreAsWritten(p1, dir, Some(pmin), Some(pmax), dmin, dmax, w)
         <= MatchScoreAsWritten(p2, dir, Some(pmin), Some(pmax), dmin, dmax, w)
  {
  }
}
