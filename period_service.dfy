/**
 * `Services\PeriodService::computeDominantPeriod`: the second dominant-period
 * rule. Heights are rounded to one decimal before they are compared; equal
 * rounded heights average the two periods, otherwise the taller component's
 * period is taken, and the result is rounded to one decimal.
 */
module PeriodService {
  import opened Common
  import opened Php
  import WavePeriod

  /** The unrounded period, given the already rounded heights. */
  function RoundedHeightRaw(swH: real, wwH: real, swP: real, wwP: real): real
  {
    if swH == wwH then (swP + wwP) / 2.0
    else if swH > wwH then swP
    else wwP
  }

  /**
   * The dominant period of row `d`: `None` unless all four fields are set,
   * otherwise, with the heights rounded to one decimal before they are
   * compared, the mean of the periods for equal rounded heights and the
   * taller component's period otherwise, rounded to one decimal: a value
   * within 0.05 of that period and between the two rounded component periods.
   */
  function ComputeDominantPeriod(d: Row): (r: Option<real>)
    ensures r.Some? <==> WavePeriod.HasComponents(d)
    ensures r.Some? ==>
      var swH := RoundTo(FloatCast(d["SwH"]), 1);
      var wwH := RoundTo(FloatCast(d["WWH"]), 1);
      var swP := FloatCast(d["SwP"]);
      var wwP := FloatCast(d["WWP"]);
      (swH == wwH ==> r.value == RoundTo((swP + wwP) / 2.0, 1)) &&
      (swH > wwH ==> r.value == RoundTo(swP, 1)) &&
      (swH < wwH ==> r.value == RoundTo(wwP, 1)) &&
      AbsR(r.value - RoundedHeightRaw(swH, wwH, swP, wwP)) <= 0.05
    ensures r.Some? ==>
      var swP := FloatCast(d["SwP"]);
      var wwP := FloatCast(d["WWP"]);
      RoundTo(WavePeriod.MinR(swP, wwP), 1) <= r.value <= RoundTo(WavePeriod.MaxR(swP, wwP), 1)
  {
    if !WavePeriod.HasComponents(d) then None
    else
      var swH := RoundTo(FloatCast(d["SwH"]), 1);
      var wwH := RoundTo(FloatCast(d["WWH"]), 1);
      var swP := FloatCast(d["SwP"]);
      var wwP := FloatCast(d["WWP"]);
      var raw := RoundedHeightRaw(swH, wwH, swP, wwP);
      RoundToOneClose(raw);
      RoundToMonotone(WavePeriod.MinR(swP, wwP), raw, 1);
      RoundToMonotone(raw, WavePeriod.MaxR(swP, wwP), 1);
      Some(RoundTo(raw, 1))
  }

  /**
   * Where the rounded swell height is the larger, both dominant-period rules
   * agree on the rounded swell period, whatever the bias.
   */
  lemma RulesAgreeOnTallerSwell(d: Row, bias: real)
    requires WavePeriod.HasComponents(d)
    requires RoundTo(FloatCast(d["SwH"]), 1) > RoundTo(FloatCast(d["WWH"]), 1)
    ensures ComputeDominantPeriod(d) == WavePeriod.ComputeDominantPeriod(d, bias)
         == Some(RoundTo(FloatCast(d["SwP"]), 1))
  {
    var swH := FloatCast(d["SwH"]);
    var wwH := FloatCast(d["WWH"]);
    if swH <= wwH {
      RoundToMonotone(swH, wwH, 1);
    }
  }

  /**
   * Heights that differ by less than the rounding step can count as equal
   * here while the bias rule tells them apart: at 1.04 m against 1.01 m the
   * rounded-height rule averages the periods.
   */
  lemma RoundingMergesCloseHeights()
    ensures RoundedHeightRaw(RoundTo(1.04, 1), RoundTo(1.01, 1), 12.0, 6.0) == 9.0
  {
    assert DecimalScale(1) == 10.0;
    assert RoundHalfAway(1.04 * 10.0) == 10;
    assert RoundHalfAway(1.01 * 10.0) == 10;
  }
}
