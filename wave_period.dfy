/**
 * `Utilities\WavePeriod::computeDominantPeriod`: the dominant wave period of
 * a buoy row, from the swell and wind-wave heights and periods. Equal heights
 * average the two periods; a taller wind-wave pulls the period from the
 * wind-wave period towards the swell period by `bias`; a taller swell keeps the
 * swell period. The result is rounded to one decimal.
 */
module WavePeriod {
  import opened Common
  import opened Php

  /** The default pull towards the swell period. */
  const DefaultBias: real := 0.8

  function MinR(a: real, b: real): real { if a <= b then a else b }
  function MaxR(a: real, b: real): real { if a >= b then a else b }

  /** The wind-wave period pulled towards the swell period by the fraction `bias`. */
  function Pulled(wwP: real, swP: real, bias: real): real
  {
    wwP + bias * (swP - wwP)
  }

  /** The unrounded period chosen from the two components. */
  function DominantRaw(swH: real, wwH: real, swP: real, wwP: real, bias: real): real
  {
    if swH == wwH then (swP + wwP) / 2.0
    else if wwH > swH then Pulled(wwP, swP, bias)
    else swP
  }

  /** The four fields the computation needs are all set. */
  predicate HasComponents(d: Row)
  {
    Isset(d, "SwH") && Isset(d, "WWH") && Isset(d, "SwP") && Isset(d, "WWP")
  }

  /**
   * The dominant period of row `d`: `None` unless all four fields are set,
   * otherwise, rounded to one decimal, the mean of the periods for equal
   * heights, the wind-wave period pulled towards the swell period by `bias`
   * for a taller wind-wave, and the swell period for a taller swell. The
   * result is within 0.05 of that unrounded period and, when `bias` is a
   * fraction, never leaves the range spanned by the two rounded periods.
   */
  function ComputeDominantPeriod(d: Row, bias: real): (r: Option<real>)
    ensures r.Some? <==> HasComponents(d)
    ensures r.Some? ==>
      var swH := FloatCast(d["SwH"]);
      var wwH := FloatCast(d["WWH"]);
      var swP := FloatCast(d["SwP"]);
      var wwP := FloatCast(d["WWP"]);
      (swH == wwH ==> r.value == RoundTo((swP + wwP) / 2.0, 1)) &&
      (wwH > swH ==> r.value == RoundTo(Pulled(wwP, swP, bias), 1)) &&
      (swH > wwH ==> r.value == RoundTo(swP, 1)) &&
      AbsR(r.value - DominantRaw(swH, wwH, swP, wwP, bias)) <= 0.05
    ensures r.Some? && 0.0 <= bias <= 1.0 ==>
      var swP := FloatCast(d["SwP"]);
      var wwP := FloatCast(d["WWP"]);
      RoundTo(MinR(swP, wwP), 1) <= r.value <= RoundTo(MaxR(swP, wwP), 1)
  {
    if !HasComponents(d) then None
    else
      var swH := FloatCast(d["SwH"]);
      var wwH := FloatCast(d["WWH"]);
      var swP := FloatCast(d["SwP"]);
      var wwP := FloatCast(d["WWP"]);
      RoundedDominant(swH, wwH, swP, wwP, bias);
      Some(RoundTo(DominantRaw(swH, wwH, swP, wwP, bias), 1))
  }

  /** The rounded period, case by case, its distance from the raw one, and its range for a fraction `bias`. */
  lemma RoundedDominant(swH: real, wwH: real, swP: real, wwP: real, bias: real)
    ensures var r := RoundTo(DominantRaw(swH, wwH, swP, wwP, bias), 1);
      (swH == wwH ==> r == RoundTo((swP + wwP) / 2.0, 1)) &&
      (wwH > swH ==> r == RoundTo(Pulled(wwP, swP, bias), 1)) &&
      (swH > wwH ==> r == RoundTo(swP, 1)) &&
      AbsR(r - DominantRaw(swH, wwH, swP, wwP, bias)) <= 0.05 &&
      (0.0 <= bias <= 1.0 ==> RoundTo(MinR(swP, wwP), 1) <= r <= RoundTo(MaxR(swP, wwP), 1))
  {
    var raw := DominantRaw(swH, wwH, swP, wwP, bias);
    RoundToOneClose(raw);
    if 0.0 <= bias <= 1.0 {
      DominantRawBetween(swH, wwH, swP, wwP, bias);
      RoundToMonotone(MinR(swP, wwP), raw, 1);
      RoundToMonotone(raw, MaxR(swP, wwP), 1);
    }
  }

  /** For a fraction `bias` the raw period lies between the two component periods. */
  lemma DominantRawBetween(swH: real, wwH: real, swP: real, wwP: real, bias: real)
    requires 0.0 <= bias <= 1.0
    ensures MinR(swP, wwP) <= DominantRaw(swH, wwH, swP, wwP, bias) <= MaxR(swP, wwP)
  {
    if swH != wwH && wwH > swH {
      var x := swP - wwP;
      ScaleFraction(bias, x);
      assert DominantRaw(swH, wwH, swP, wwP, bias) == wwP + bias * x;
    }
  }

  /** When the two components share a period, that period is the answer whatever the heights and bias. */
  lemma SharedPeriodWins(swH: real, wwH: real, p: real, bias: real)
    ensures DominantRaw(swH, wwH, p, p, bias) == p
  {
  }

  /** With equal heights the components can be swapped without changing the answer. */
  lemma EqualHeightsSymmetric(h: real, swP: real, wwP: real, bias: real)
    ensures DominantRaw(h, h, swP, wwP, bias) == DominantRaw(h, h, wwP, swP, bias)
  {
  }

  /** A bias of 1 always follows the swell period; a bias of 0 follows the taller component. */
  lemma BiasExtremes(swH: real, wwH: real, swP: real, wwP: real)
    requires swH != wwH
    ensures DominantRaw(swH, wwH, swP, wwP, 1.0) == swP
    ensures DominantRaw(swH, wwH, swP, wwP, 0.0) == (if wwH > swH then wwP else swP)
  {
  }
}
