/**
 * `Hooks\WaveData`: the angle of incidence between a spot's facing and the
 * swell direction, and the surf-quality class of that angle.
 */
module WaveData {
  import opened Common
  import Maths

  /** `AOI`: the absolute difference, folded to the other way round when over 180. */
  function Aoi(spotAngle: real, swellDirection: real): (r: real)
    ensures r <= 180.0
  {
    var diff := AbsR(spotAngle - swellDirection);
    if diff > 180.0 then 360.0 - diff else diff
  }

  /** For bearings already in [0, 360), the angle of incidence is the shortest angular distance. */
  lemma AoiIsAngDist(spotAngle: real, swellDirection: real)
    requires 0.0 <= spotAngle < 360.0 && 0.0 <= swellDirection < 360.0
    ensures Aoi(spotAngle, swellDirection) == Maths.AngDist(spotAngle, swellDirection)
    ensures 0.0 <= Aoi(spotAngle, swellDirection)
    ensures Aoi(spotAngle, swellDirection) == Aoi(swellDirection, spotAngle)
  {
    Maths.NormAngleFixes(spotAngle);
    Maths.NormAngleFixes(swellDirection);
  }

  const Closeout := "Too Straight (Closeout)"
  const GoodLines := "Good Lines"
  const Feathered := "Feathered"
  const Wrapped := "Too Angled / Wrapped"

  /** `AOI_category`: the class for an angle, by the thresholds 4, 15 and 30 degrees. */
  function AoiCategory(aoi: real): (r: string)
    ensures r in [Closeout, GoodLines, Feathered, Wrapped]
    ensures r == Closeout <==> aoi < 4.0
    ensures r == GoodLines <==> 4.0 <= aoi < 15.0
    ensures r == Feathered <==> 15.0 <= aoi < 30.0
    ensures r == Wrapped <==> aoi >= 30.0
  {
    if aoi < 4.0 then Closeout
    else if aoi < 15.0 then GoodLines
    else if aoi < 30.0 then Feathered
    else Wrapped
  }

  /** The position of a class in the order from straightest to most angled. */
  function Rank(category: string): nat
  {
    if category == Closeout then 0
    else if category == GoodLines then 1
    else if category == Feathered then 2
    else 3
  }

  /** A larger angle never lands in a straighter class. */
  lemma AoiCategoryMonotone(a: real, b: real)
    requires a <= b
    ensures Rank(AoiCategory(a)) <= Rank(AoiCategory(b))
  {
  }
}
