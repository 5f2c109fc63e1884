/**
 * The 16-point compass rose shared by the wind cell, the forecast repository
 * and the spectral-file parsers.
 */
module Compass {
  import opened Common

  /** Point names clockwise from north, one every 22.5 degrees. */
  const Points: seq<string> :=
    ["N", "NNE", "NE", "ENE", "E", "ESE", "SE", "SSE",
     "S", "SSW", "SW", "WSW", "W", "WNW", "NW", "NNW"]

  /** Whole degrees the spectral parsers assign to each point name. */
  const SpecDegrees: seq<int> :=
    [0, 22, 45, 67, 90, 112, 135, 157, 180, 202, 225, 247, 270, 292, 315, 337]

  /** Position of a point name in `Points`. */
  function PointIndex(name: string): (r: Option<nat>)
    ensures r.Some? ==> r.value < 16 && Points[r.value] == name
    ensures r.None? ==> name !in Points
  {
    PointIndexFrom(name, 0)
  }

  function PointIndexFrom(name: string, k: nat): (r: Option<nat>)
    requires k <= 16
    ensures r.Some? ==> k <= r.value < 16 && Points[r.value] == name
    ensures r.None? ==> forall j :: k <= j < 16 ==> Points[j] != name
    decreases 16 - k
  {
    if k == 16 then None
    else if Points[k] == name then Some(k)
    else PointIndexFrom(name, k + 1)
  }

  /**
   * The spectral parsers' direction table: a point name maps to its whole
   * degrees, anything else to nothing.
   */
  function SpecDirDegrees(name: string): (r: Option<int>)
    ensures r.Some? <==> name in Points
  {
    match PointIndex(name)
    case Some(k) => Some(SpecDegrees[k])
    case None => None
  }

  /** A known point name maps to one of the tabulated degrees. */
  lemma SpecDirDegreesInTable(name: string)
    ensures SpecDirDegrees(name).Some? ==> SpecDirDegrees(name).value in SpecDegrees
  {
  }

  /** Each tabulated value is the point's bearing `22.5 * k` rounded down. */
  lemma SpecDegreesAreBearingsRoundedDown(k: nat)
    requires k < 16
    ensures SpecDegrees[k] == (k * 45) / 2
    ensures SpecDirDegrees(Points[k]) == Some(SpecDegrees[k])
  {
    assert forall i, j :: 0 <= i < j < 16 ==> Points[i] != Points[j];
  }
}
