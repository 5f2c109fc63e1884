/**
 * `Forecast/src/np_min.py`: the small numpy stand-in — mean, evenly spaced
 * values, a stepped range, one-dimensional linear interpolation by
 * bisection, and the index of the first maximum.
 *
 * Floats are exact reals here; `ValueError` is an `Err`.
 */
module NpMin {
  import opened Common

  const StepZeroMessage: string := "step must not be 0"
  const InterpShapeMessage: string := "xp and fp must be same-length, non-empty"
  const EmptyMessage: string := "empty sequence"

  // ---------------------------------------------------------------------
  // mean
  // ---------------------------------------------------------------------

  /** `sum(x)`, added left to right. */
  function Sum(xs: seq<real>): real
  {
    if |xs| == 0 then 0.0 else Sum(xs[..|xs| - 1]) + xs[|xs| - 1]
  }

  /** `mean`: the sum over the count, or 0.0 for no values. */
  function Mean(xs: seq<real>): real
  {
    if |xs| == 0 then 0.0 else Sum(xs) / |xs| as real
  }

  lemma {:induction false} SumBounds(xs: seq<real>, lo: real, hi: real)
    requires forall i :: 0 <= i < |xs| ==> lo <= xs[i] <= hi
    ensures |xs| as real * lo <= Sum(xs) <= |xs| as real * hi
    decreases |xs|
  {
    if |xs| > 0 {
      SumBounds(xs[..|xs| - 1], lo, hi);
      assert (|xs| - 1) as real * lo + lo == |xs| as real * lo;
      assert (|xs| - 1) as real * hi + hi == |xs| as real * hi;
    }
  }

  /** The mean of values that all lie in [lo, hi] lies in [lo, hi] too. */
  lemma MeanBetween(xs: seq<real>, lo: real, hi: real)
    requires |xs| > 0
    requires forall i :: 0 <= i < |xs| ==> lo <= xs[i] <= hi
    ensures lo <= Mean(xs) <= hi
  {
    SumBounds(xs, lo, hi);
    var n := |xs| as real;
    DivMono(n * lo, Sum(xs), n);
    DivMono(Sum(xs), n * hi, n);
    assert n * lo / n == lo && n * hi / n == hi;
  }

  // ---------------------------------------------------------------------
  // linspace
  // ---------------------------------------------------------------------

  /**
   * `linspace`: `[start]` for at most one value, otherwise `num` values
   * from `start` in steps of `(stop - start) / (num - 1)`.
   */
  function Linspace(start: real, stop: real, num: int): (r: seq<real>)
    ensures |r| == Max(num, 1) && r[0] == start
    ensures num > 1 ==> forall i :: 0 <= i < num ==> r[i] == start + i as real * ((stop - start) / (num - 1) as real)
  {
    if num <= 1 then [start]
    else
      var step := (stop - start) / (num - 1) as real;
      seq(num, i requires 0 <= i < num => start + i as real * step)
  }

  /** With more than one value the last one is `stop` exactly. */
  lemma LinspaceEndsAtStop(start: real, stop: real, num: int)
    requires num > 1
    ensures Linspace(start, stop, num)[num - 1] == stop
  {
    var d := (num - 1) as real;
    assert d * ((stop - start) / d) == stop - start;
  }

  // ---------------------------------------------------------------------
  // arange
  // ---------------------------------------------------------------------

  /**
   * `arange`: with `stop` absent the one value given is the stop and
   * counting starts at 0. Values are `start + i * step` while they stay on
   * the near side of `stop`; a zero step is an error.
   */
  method Arange(start: real, stop: Option<real>, step: real) returns (r: Result<seq<real>>)
    ensures r.Err? <==> step == 0.0
    ensures r.Ok? ==>
      var (s0, s1) := if stop.None? then (0.0, start) else (start, stop.value);
      IsRamp(r.value, s0, step) &&
      (step > 0.0 ==> (forall i :: 0 <= i < |r.value| ==> r.value[i] < s1) && s0 + |r.value| as real * step >= s1) &&
      (step < 0.0 ==> (forall i :: 0 <= i < |r.value| ==> r.value[i] > s1) && s0 + |r.value| as real * step <= s1)
  {
    var s0, s1 := start, 0.0;
    if stop.None? {
      s0, s1 := 0.0, start;
    } else {
      s1 := stop.value;
    }
    if step == 0.0 {
      return Err(StepZeroMessage);
    }
    var x: seq<real>;
    if step > 0.0 {
      x := RampUp(s0, s1, step);
    } else {
      x := RampDown(s0, s1, step);
    }
    r := Ok(x);
  }

  /** `x` holds `s0 + i * step` at every index `i`. */
  predicate IsRamp(x: seq<real>, s0: real, step: real)
  {
    forall i :: 0 <= i < |x| ==> x[i] == s0 + i as real * step
  }

  /** Appending the next value keeps a ramp, and the next value after that is one step further. */
  lemma RampExtend(x: seq<real>, s0: real, step: real)
    requires IsRamp(x, s0, step)
    ensures IsRamp(x + [s0 + |x| as real * step], s0, step)
    ensures s0 + |x| as real * step + step == s0 + (|x| + 1) as real * step
  {
  }

  /** The loop of `arange` for a positive step: values while below `s1`. */
  method RampUp(s0: real, s1: real, step: real) returns (x: seq<real>)
    requires step > 0.0
    ensures IsRamp(x, s0, step)
    ensures (forall i :: 0 <= i < |x| ==> x[i] < s1) && s0 + |x| as real * step >= s1
  {
    x := [];
    var v := s0;
    while v < s1
      invariant v == s0 + |x| as real * step
      invariant IsRamp(x, s0, step)
      invariant forall i :: 0 <= i < |x| ==> x[i] < s1
      decreases ((s1 - v) / step).Floor
    {
      StepDown(s1 - v, step);
      RampExtend(x, s0, step);
      x := x + [v];
      v := v + step;
    }
  }

  /** The loop of `arange` for a negative step: values while above `s1`. */
  method RampDown(s0: real, s1: real, step: real) returns (x: seq<real>)
    requires step < 0.0
    ensures IsRamp(x, s0, step)
    ensures (forall i :: 0 <= i < |x| ==> x[i] > s1) && s0 + |x| as real * step <= s1
  {
    x := [];
    var v := s0;
    while v > s1
      invariant v == s0 + |x| as real * step
      invariant IsRamp(x, s0, step)
      invariant forall i :: 0 <= i < |x| ==> x[i] > s1
      decreases ((v - s1) / -step).Floor
    {
      StepDown(v - s1, -step);
      RampExtend(x, s0, step);
      x := x + [v];
      v := v + step;
    }
  }

  /** One step off a positive distance lowers the whole number of steps left by one. */
  lemma StepDown(d: real, step: real)
    requires d > 0.0 && step > 0.0
    ensures (d / step).Floor >= 0
    ensures ((d - step) / step).Floor == (d / step).Floor - 1
  {
    var q := d / step;
    assert q * step == d;
    assert (q - 1.0) * step == d - step;
    DivExact(d - step, q - 1.0, step);
    DivMono(0.0, d, step);
  }

  lemma DivExact(a: real, b: real, m: real)
    requires m != 0.0 && a == b * m
    ensures a / m == b
  {
  }

  // ---------------------------------------------------------------------
  // interp
  // ---------------------------------------------------------------------

  /** The straight line through (x0, y0) and (x1, y1), at `x`. */
  function Lerp(x0: real, x1: real, y0: real, y1: real, x: real): real
    requires x0 < x1
  {
    y0 + (x - x0) / (x1 - x0) * (y1 - y0)
  }

  /** Between its two abscissae the line stays between its two ordinates. */
  lemma LerpBetween(x0: real, x1: real, y0: real, y1: real, x: real)
    requires x0 <= x <= x1 && x0 < x1
    ensures y0 <= y1 ==> y0 <= Lerp(x0, x1, y0, y1, x) <= y1
    ensures y1 <= y0 ==> y1 <= Lerp(x0, x1, y0, y1, x) <= y0
  {
    var t := (x - x0) / (x1 - x0);
    FractionInUnit(x - x0, x1 - x0);
    ScaleFraction(t, y1 - y0);
  }

  predicate StrictlyAscending(xp: seq<real>)
  {
    forall i, j :: 0 <= i < j < |xp| ==> xp[i] < xp[j]
  }

  /** The last index whose abscissa is at most `x`, found by a scan from the end. */
  function LastAtMost(xp: seq<real>, x: real): (k: nat)
    requires |xp| > 0 && xp[0] <= x
    ensures k < |xp| && xp[k] <= x
    ensures forall j :: k < j < |xp| ==> xp[j] > x
  {
    if xp[|xp| - 1] <= x then |xp| - 1 else LastAtMost(xp[..|xp| - 1], x)
  }

  /**
   * numpy's `interp` for ascending `xp`: the end values outside the range,
   * otherwise the line through the two points that bracket `x`.
   */
  function InterpSpec(x: real, xp: seq<real>, fp: seq<real>): real
    requires |xp| == |fp| > 0 && StrictlyAscending(xp)
  {
    var n := |xp|;
    if x <= xp[0] then fp[0]
    else if x >= xp[n - 1] then fp[n - 1]
    else
      var k := LastAtMost(xp, x);
      Lerp(xp[k], xp[k + 1], fp[k], fp[k + 1], x)
  }

  /**
   * `interp`: the shape error for empty or unequal inputs, the end values
   * outside [xp[0], xp[-1]], otherwise bisection to a bracket
   * `xp[lo] <= x < xp[lo + 1]` and the line through its two points. The
   * bracket holds for any `xp`; with ascending `xp` the result is numpy's.
   */
  method Interp(x: real, xp: seq<real>, fp: seq<real>) returns (r: Result<real>)
    ensures r.Err? <==> |xp| == 0 || |fp| == 0 || |xp| != |fp|
    ensures r.Ok? && x <= xp[0] ==> r.value == fp[0]
    ensures r.Ok? && xp[0] < x && x >= xp[|xp| - 1] ==> r.value == fp[|fp| - 1]
    ensures r.Ok? && xp[0] < x < xp[|xp| - 1] ==>
      exists lo :: 0 <= lo < |xp| - 1 && xp[lo] <= x < xp[lo + 1] &&
        r.value == Lerp(xp[lo], xp[lo + 1], fp[lo], fp[lo + 1], x) &&
        Min2(fp[lo], fp[lo + 1]) <= r.value <= Max2(fp[lo], fp[lo + 1])
    ensures r.Ok? && StrictlyAscending(xp) ==> r.value == InterpSpec(x, xp, fp)
  {
    if |xp| == 0 || |fp| == 0 || |xp| != |fp| {
      return Err(InterpShapeMessage);
    }
    if x <= xp[0] {
      return Ok(fp[0]);
    }
    if x >= xp[|xp| - 1] {
      return Ok(fp[|fp| - 1]);
    }
    var lo, hi := 0, |xp| - 1;
    while hi - lo > 1
      invariant 0 <= lo < hi <= |xp| - 1
      invariant xp[lo] <= x < xp[hi]
    {
      var mid := (lo + hi) / 2;
      if xp[mid] <= x {
        lo := mid;
      } else {
        hi := mid;
      }
    }
    var x0, x1 := xp[lo], xp[hi];
    var y0, y1 := fp[lo], fp[hi];
    LerpBetween(x0, x1, y0, y1, x);
    r := Ok(Lerp(x0, x1, y0, y1, x));
    if StrictlyAscending(xp) {
      BracketIsLast(xp, x, lo);
    }
  }

  function Min2(a: real, b: real): real { if a <= b then a else b }
  function Max2(a: real, b: real): real { if a >= b then a else b }

  /** In an ascending sequence the bracket of `x` starts at the last index at most `x`. */
  lemma BracketIsLast(xp: seq<real>, x: real, lo: int)
    requires StrictlyAscending(xp) && 0 <= lo < |xp| - 1 && xp[lo] <= x < xp[lo + 1]
    ensures xp[0] <= x && LastAtMost(xp, x) == lo
  {
    if lo > 0 {
      assert xp[0] < xp[lo];
    }
  }

  // ---------------------------------------------------------------------
  // argmax
  // ---------------------------------------------------------------------

  /** `argmax`: the index of the first largest value; an empty input is an error. */
  method Argmax(s: seq<real>) returns (r: Result<nat>)
    ensures r.Err? <==> |s| == 0
    ensures r.Ok? ==>
      (r.value < |s| &&
       (forall j :: 0 <= j < |s| ==> s[j] <= s[r.value]) &&
       (forall j :: 0 <= j < r.value ==> s[j] < s[r.value]))
  {
    if |s| == 0 {
      return Err(EmptyMessage);
    }
    var m, idx := s[0], 0;
    var i := 0;
    while i < |s|
      invariant 0 <= i <= |s| && 0 <= idx < |s| && m == s[idx]
      invariant idx < i || (i == 0 && idx == 0)
      invariant forall j :: 0 <= j < i ==> s[j] <= m
      invariant forall j :: 0 <= j < idx ==> s[j] < m
    {
      if s[i] > m {
        m, idx := s[i], i;
      }
      i := i + 1;
    }
    r := Ok(idx);
  }
}
