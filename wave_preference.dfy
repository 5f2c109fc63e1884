/**
 * `Utilities\WavePreference`: the wave gate a spot must pass before it is
 * listed. Each evaluation runs its checks in a fixed order and reports the
 * first one that fails, or passes with the wave fields.
 *
 * The great-circle distances, the weighted circular mean of the two buoy
 * directions and the interpolated midpoint row are computed elsewhere and
 * arrive here as parameters.
 */
module WavePreference {
  import opened Common
  import opened Php
  import Maths
  import WavePeriod

  /** The gate outcome: the reason of the first failing check, or the wave fields. */
  datatype Gate =
    | Fail(reason: string)
    | Pass(hs: Option<real>, per: real, dir: real, target: Option<string>)

  /** A spot setting read as `isset($spot[k]) ? (float)$spot[k] : null`. */
  function Setting(spot: Row, k: string): (r: Option<real>)
    ensures r.Some? <==> Isset(spot, k)
  {
    if Isset(spot, k) then Some(FloatCast(spot[k])) else None
  }

  /** The first reason in `checks` whose test fails, if any: the reference order of the gates. */
  function FirstFailing(checks: seq<(bool, string)>): Option<string>
  {
    if |checks| == 0 then None
    else if !checks[0].0 then Some(checks[0].1)
    else FirstFailing(checks[1..])
  }

  /** `FirstFailing` finds nothing exactly when every test passes, and otherwise names the earliest failing one. */
  lemma {:induction false} FirstFailingSpec(checks: seq<(bool, string)>)
    ensures FirstFailing(checks).None? <==> forall i :: 0 <= i < |checks| ==> checks[i].0
    ensures FirstFailing(checks).Some? ==>
      exists i :: 0 <= i < |checks| && !checks[i].0 && checks[i].1 == FirstFailing(checks).value &&
                  forall j :: 0 <= j < i ==> checks[j].0
  {
    if |checks| > 0 && checks[0].0 {
      var r := FirstFailing(checks[1..]);
      FirstFailingSpec(checks[1..]);
      if r.Some? {
        var i :| 0 <= i < |checks[1..]| && !checks[1..][i].0 && checks[1..][i].1 == r.value &&
                 forall j :: 0 <= j < i ==> checks[1..][j].0;
        assert !checks[i + 1].0 && checks[i + 1].1 == r.value;
        assert forall j :: 0 <= j < i + 1 ==> checks[j].0 by {
          forall j | 0 <= j < i + 1 ensures checks[j].0 {
            if j > 0 { assert checks[j] == checks[1..][j - 1]; }
          }
        }
      } else {
        assert forall i :: 0 <= i < |checks| ==> checks[i].0 by {
          forall i | 0 <= i < |checks| ensures checks[i].0 {
            if i > 0 { assert checks[i] == checks[1..][i - 1]; }
          }
        }
      }
    }
  }

  /** The period test of the realtime gate: each bound is checked on its own when set. */
  predicate RealtimePeriodOk(p: real, pMin: Option<real>, pMax: Option<real>)
  {
    !(pMin.Some? && p < pMin.value) && !(pMax.Some? && p > pMax.value)
  }

  /** The direction test: the wrap-aware window when both bounds are set, otherwise a pass. */
  predicate DirOk(dir: real, dMin: Option<real>, dMax: Option<real>)
  {
    dMin.Some? && dMax.Some? ==> Maths.DirInRange(dir, dMin.value, dMax.value)
  }

  /** The realtime checks in the order the gate runs them. */
  function RealtimeChecks(spot: Row, mwd1: Option<PVal>, mwd2: Option<PVal>, interpMwd: real, mid: Row): seq<(bool, string)>
  {
    var dp := WavePeriod.ComputeDominantPeriod(mid, WavePeriod.DefaultBias);
    [ (Isset(spot, "region_lat") && Isset(spot, "region_lon"), "missing_region_coords"),
      (mwd1.Some? && mwd2.Some?, "missing_mwd"),
      (dp.Some?, "missing_period"),
      (dp.None? || RealtimePeriodOk(dp.value, Setting(spot, "period_min"), Setting(spot, "period_max")), "period_out_of_range"),
      (DirOk(interpMwd, Setting(spot, "dir_min"), Setting(spot, "dir_max")), "direction_out_of_range") ]
  }

  /**
   * `realtimeForSpot`. `mwd1`/`mwd2` are the two buoys' MWD fields (`None`
   * for null or absent), `interpMwd` their weighted circular mean and `mid`
   * the interpolated midpoint row.
   */
  function RealtimeForSpot(spot: Row, mwd1: Option<PVal>, mwd2: Option<PVal>, interpMwd: real, mid: Row): (r: Gate)
    ensures r.Pass? ==>
      Some(r.per) == WavePeriod.ComputeDominantPeriod(mid, WavePeriod.DefaultBias) &&
      RealtimePeriodOk(r.per, Setting(spot, "period_min"), Setting(spot, "period_max")) &&
      DirOk(r.dir, Setting(spot, "dir_min"), Setting(spot, "dir_max")) &&
      r.dir == interpMwd && r.hs == NumOrNull(Field(mid, "WVHT")) && r.target.None?
  {
    var lat := Setting(spot, "region_lat");
    var lon := Setting(spot, "region_lon");
    if lat.None? || lon.None? then Fail("missing_region_coords")
    else if mwd1.None? || mwd2.None? then Fail("missing_mwd")
    else
      var hs := NumOrNull(Field(mid, "WVHT"));
      var dp := WavePeriod.ComputeDominantPeriod(mid, WavePeriod.DefaultBias);
      if dp.None? then Fail("missing_period")
      else
        var pMin := Setting(spot, "period_min");
        var pMax := Setting(spot, "period_max");
        var dMin := Setting(spot, "dir_min");
        var dMax := Setting(spot, "dir_max");
        var dirOk := if dMin.Some? && dMax.Some? then Maths.DirInRange(interpMwd, dMin.value, dMax.value) else true;
        if (pMin.Some? && dp.value < pMin.value) || (pMax.Some? && dp.value > pMax.value) then Fail("period_out_of_range")
        else if !dirOk then Fail("direction_out_of_range")
        else Pass(hs, dp.value, interpMwd, None)
  }

  /** The realtime gate fails exactly when one of its checks fails, and names the first one in order. */
  lemma RealtimeGateOrder(spot: Row, mwd1: Option<PVal>, mwd2: Option<PVal>, interpMwd: real, mid: Row)
    ensures var r := RealtimeForSpot(spot, mwd1, mwd2, interpMwd, mid);
            var first := FirstFailing(RealtimeChecks(spot, mwd1, mwd2, interpMwd, mid));
            (r.Fail? <==> first.Some?) && (r.Fail? ==> r.reason == first.value)
  {
    var c := RealtimeChecks(spot, mwd1, mwd2, interpMwd, mid);
    var r := RealtimeForSpot(spot, mwd1, mwd2, interpMwd, mid);
    FirstFailingStep(c);
    if c[0].0 {
      FirstFailingStep(c[1..]);
      assert c[1..][1..] == c[2..];
      if c[1].0 {
        FirstFailingStep(c[2..]);
        assert c[2..][1..] == c[3..];
        if c[2].0 {
          FirstFailingStep(c[3..]);
          assert c[3..][1..] == c[4..];
          if c[3].0 {
            FirstFailingStep(c[4..]);
            assert c[4..][1..] == [];
          }
        }
      }
    }
  }

  lemma FirstFailingStep(c: seq<(bool, string)>)
    requires |c| > 0
    ensures FirstFailing(c) == if !c[0].0 then Some(c[0].1) else FirstFailing(c[1..])
  {
  }

  /** The interpolated forecast at the target time, as the interpolator returns it. */
  datatype Forecast = Forecast(hs: Option<real>, per: Option<real>, dir: Option<real>)

  /** The forecast period test: only applied when both bounds are set. */
  predicate ForecastPeriodOk(p: real, pMin: Option<real>, pMax: Option<real>)
  {
    pMin.Some? && pMax.Some? ==> pMin.value <= p <= pMax.value
  }

  function ForecastChecks(spot: Row, f: Forecast): seq<(bool, string)>
  {
    [ (f.per.Some?, "forecast_missing_period"),
      (f.dir.Some?, "forecast_missing_direction"),
      (f.per.None? || ForecastPeriodOk(f.per.value, Setting(spot, "period_min"), Setting(spot, "period_max")),
       "forecast_period_out_of_range"),
      (f.dir.None? || DirOk(f.dir.value, Setting(spot, "dir_min"), Setting(spot, "dir_max")),
       "forecast_direction_out_of_range") ]
  }

  /** `forecastForSpot`, with `f` the interpolated forecast for the spot at `targetUtc`. */
  function ForecastForSpot(spot: Row, targetUtc: string, f: Forecast): (r: Gate)
    ensures r.Pass? ==>
      f.per == Some(r.per) && f.dir == Some(r.dir) && r.hs == f.hs && r.target == Some(targetUtc) &&
      ForecastPeriodOk(r.per, Setting(spot, "period_min"), Setting(spot, "period_max")) &&
      DirOk(r.dir, Setting(spot, "dir_min"), Setting(spot, "dir_max"))
  {
    if f.per.None? then Fail("forecast_missing_period")
    else if f.dir.None? then Fail("forecast_missing_direction")
    else
      var pMin := Setting(spot, "period_min");
      var pMax := Setting(spot, "period_max");
      var dMin := Setting(spot, "dir_min");
      var dMax := Setting(spot, "dir_max");
      var okPer := if pMin.Some? && pMax.Some? then f.per.value >= pMin.value && f.per.value <= pMax.value else true;
      var okDir := if dMin.Some? && dMax.Some? then Maths.DirInRange(f.dir.value, dMin.value, dMax.value) else true;
      if !okPer then Fail("forecast_period_out_of_range")
      else if !okDir then Fail("forecast_direction_out_of_range")
      else Pass(f.hs, f.per.value, f.dir.value, Some(targetUtc))
  }

  /** The forecast gate fails exactly when one of its checks fails, and names the first one in order. */
  lemma ForecastGateOrder(spot: Row, targetUtc: string, f: Forecast)
    ensures var r := ForecastForSpot(spot, targetUtc, f);
            var first := FirstFailing(ForecastChecks(spot, f));
            (r.Fail? <==> first.Some?) && (r.Fail? ==> r.reason == first.value)
  {
    var c := ForecastChecks(spot, f);
    FirstFailingStep(c);
    FirstFailingStep(c[1..]);
    FirstFailingStep(c[2..]);
    FirstFailingStep(c[3..]);
    assert c[1..][1..] == c[2..] && c[2..][1..] == c[3..];
    assert c[3..][1..] == [];
  }

  /**
   * The two gates treat a half-open period window differently: realtime
   * checks a lone minimum, the forecast gate ignores it.
   */
  lemma LoneMinimumOnlyGatesRealtime(p: real, pMin: real)
    requires p < pMin
    ensures !RealtimePeriodOk(p, Some(pMin), None)
    ensures ForecastPeriodOk(p, Some(pMin), None)
  {
  }

  /** With both bounds set the two period tests agree. */
  lemma PeriodTestsAgreeOnClosedWindow(p: real, pMin: real, pMax: real)
    ensures RealtimePeriodOk(p, Some(pMin), Some(pMax)) == ForecastPeriodOk(p, Some(pMin), Some(pMax))
  {
  }
}
