/**
 * `Utilities\WindPreference`: whether the wind blows at least 90 degrees
 * away from the direction a spot faces.
 */
module WindPreference {
  import opened Common
  import opened Php
  import Maths

  /**
   * `deltaDeg`: `fmod(a - b + 540, 360) - 180`, the signed difference
   * between two whole-degree bearings.
   */
  function DeltaDeg(a: int, b: int): (r: real)
    ensures a - b >= -540 ==> -180.0 <= r < 180.0
  {
    FMod((a - b) as real + 540.0, 360.0) - 180.0
  }

  /**
   * The signed difference is `a - b` up to whole turns, whatever the
   * bearings; with the range above it is the one such value in [-180, 180).
   */
  lemma DeltaDegCongruent(a: int, b: int)
    ensures var turns := (DeltaDeg(a, b) - (a - b) as real) / 360.0;
      turns.Floor as real == turns
  {
    var x := (a - b) as real + 540.0;
    var k := FModTurns(x);
    var d := DeltaDeg(a, b) - (a - b) as real;
    assert d == 360.0 * (k + 1) as real by {
      assert DeltaDeg(a, b) == FMod(x, 360.0) - 180.0;
    }
    WholeTurns(d, k + 1);
  }

  /** A whole number of turns, divided by a turn, is a whole number. */
  lemma WholeTurns(d: real, n: int)
    requires d == 360.0 * n as real
    ensures (d / 360.0).Floor as real == d / 360.0
  {
    assert d / 360.0 == n as real;
  }

  /** `fmod` by 360 takes a whole number of turns off its dividend. */
  lemma FModTurns(x: real) returns (k: int)
    ensures FMod(x, 360.0) == x + 360.0 * k as real
  {
    if x >= 0.0 {
      k := -(x / 360.0).Floor;
    } else {
      k := (-x / 360.0).Floor;
    }
  }

  /** `isPreferred`: false when either bearing is missing, else `|deltaDeg| >= 90`. */
  function IsPreferred(windDir: Option<int>, spotAngle: Option<int>): (r: bool)
    ensures r ==> windDir.Some? && spotAngle.Some?
  {
    if windDir.None? || spotAngle.None? then false
    else AbsR(DeltaDeg(windDir.value, spotAngle.value)) >= 90.0
  }

  /**
   * For bearings no more than 540 degrees apart (every pair of stored
   * bearings in [0, 360)), the size of the signed difference is exactly the
   * shortest angular distance.
   */
  lemma DeltaDegIsAngDist(a: int, b: int)
    requires a - b >= -540
    ensures AbsR(DeltaDeg(a, b)) == Maths.AngDist(a as real, b as real)
  {
    var ar := a as real;
    var br := b as real;
    Maths.NormAngleIsFlooredRem(ar);
    Maths.NormAngleIsFlooredRem(br);
    var fa := (ar / 360.0).Floor;
    var fb := (br / 360.0).Floor;
    var na := Maths.NormAngle(ar);
    var nb := Maths.NormAngle(br);
    assert na == ar - 360.0 * fa as real;
    assert nb == br - 360.0 * fb as real;
    var dd := na - nb;
    var x := (a - b) as real + 540.0;
    assert x == dd + 180.0 + 360.0 * (fa - fb + 1) as real;
    assert FMod(x, 360.0) == x - 360.0 * (x / 360.0).Floor as real;
    var q := (x / 360.0).Floor;
    var g := ((dd + 180.0) / 360.0).Floor;
    assert x / 360.0 == (dd + 180.0) / 360.0 + (fa - fb + 1) as real;
    assert q == g + (fa - fb + 1);
    if dd + 180.0 < 0.0 {
      assert g == -1;
    } else if dd + 180.0 < 360.0 {
      assert g == 0;
    } else {
      assert g == 1;
    }
  }

  /** Hence a wind is preferred exactly when it is at least 90 degrees from the spot's facing. */
  lemma IsPreferredIffFarEnough(w: int, s: int)
    requires w - s >= -540
    ensures IsPreferred(Some(w), Some(s)) <==> Maths.AngDist(w as real, s as real) >= 90.0
  {
    DeltaDegIsAngDist(w, s);
  }
}
