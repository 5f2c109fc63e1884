/**
 * `Hooks\WindCell`: the wind cell of the report, "NE (045°) @ 12 kt", built
 * from a whole-degree bearing and a speed in knots, either of which may be
 * missing.
 */
module WindCell {
  import opened Common
  import opened Php
  import Compass

  const Dash := "&mdash;"

  /** `($deg % 360 + 360) % 360` with PHP's `%`: the bearing in [0, 360). */
  function NormDeg(deg: int): (r: int)
    ensures r == deg % 360 && 0 <= r < 360
  {
    NormDegInt(deg);
    TruncMod(TruncMod(deg, 360) + 360, 360)
  }

  /** `(int) floor(($d + 11.25) / 22.5) % 16` for a bearing `d` in [0, 360). */
  function CardinalIndex(d: int): (k: nat)
    requires 0 <= d < 360
    ensures k < 16
  {
    var i := ((d as real + 11.25) / 22.5).Floor;
    assert 0 <= i <= 16;
    (i % 16) as nat
  }

  /** `degToCardinal`: the 16-point name of a bearing, or the dash when there is none. */
  function DegToCardinal(deg: Option<int>): (r: string)
    ensures deg.None? <==> r == Dash
    ensures deg.Some? ==> r in Compass.Points
  {
    if deg.None? then Dash else Compass.Points[CardinalIndex(NormDeg(deg.value))]
  }

  /** Point `k` covers the bearings within 11.25 degrees of `22.5 * k`, lower edge included. */
  lemma CardinalSector(d: int, k: nat)
    requires k < 16
    requires 0 <= d < 360
    requires 90 * k - 45 <= 4 * d < 90 * k + 45
    ensures DegToCardinal(Some(d)) == Compass.Points[k]
  {
    CardinalIndexSector(d, k);
  }

  lemma CardinalIndexSector(d: int, k: nat)
    requires k < 16
    requires 0 <= d < 360
    requires 90 * k - 45 <= 4 * d < 90 * k + 45
    ensures CardinalIndex(d) == k
  {
    var x := (d as real + 11.25) / 22.5;
    assert k as real <= x < k as real + 1.0;
    assert x.Floor == k;
  }

  /** The sector of north wraps: bearings from 349 up to 360 are north as well. */
  lemma CardinalNorthWraps(d: int)
    requires 349 <= d < 360
    ensures DegToCardinal(Some(d)) == "N"
  {
    var x := (d as real + 11.25) / 22.5;
    assert 16.0 <= x < 17.0 by {
      assert x * 22.5 == d as real + 11.25;
    }
    assert CardinalIndex(NormDeg(d)) == 0 by {
      assert NormDeg(d) == d;
      assert x.Floor == 16;
    }
  }

  /** A bearing and the same bearing a whole number of turns away get the same name. */
  lemma CardinalPeriodic(d: int, turns: int)
    ensures DegToCardinal(Some(d + 360 * turns)) == DegToCardinal(Some(d))
  {
    assert (d + 360 * turns) % 360 == d % 360;
  }

  /**
   * A speed rounded to tenths, written as PHP prints it: a whole number
   * without a decimal point, otherwise one decimal place.
   */
  function TenthsText(k: int): string
  {
    if k % 10 == 0 then IntToString(k / 10)
    else (if k < 0 then "-" else "") + NatToString(Abs(k) / 10) + "." + [DigitChar(Abs(k) % 10)]
  }

  /**
   * The speed part of the cell: `round($kt, 1)`, printed. The text reads
   * back as a whole number of tenths within half a tenth of the speed.
   */
  function SpeedText(kt: real): (r: string)
    ensures ParseTenths(r).Some? && AbsR(ParseTenths(r).value as real - kt * 10.0) <= 0.5
  {
    TenthsTextRoundTrip(RoundHalfAway(kt * 10.0));
    TenthsText(RoundHalfAway(kt * 10.0))
  }

  /** Reads a printed speed back as a whole number of tenths. */
  function ParseTenths(s: string): Option<int>
  {
    if |s| > 0 && s[0] == '-' then
      var v := ParseUnsignedTenths(s[1..]);
      if v.Some? then Some(-v.value) else None
    else ParseUnsignedTenths(s)
  }

  /** Digits with an optional one-digit fraction, in tenths. */
  function ParseUnsignedTenths(body: string): Option<int>
  {
    if |body| >= 3 && body[|body| - 2] == '.' && AllDigits(body[..|body| - 2]) && IsDigit(body[|body| - 1])
    then Some(DigitsValue(body[..|body| - 2]) * 10 + DigitValue(body[|body| - 1]))
    else if |body| >= 1 && AllDigits(body) then Some(DigitsValue(body) * 10)
    else None
  }

  lemma ParseWholeTenths(n: nat)
    ensures ParseUnsignedTenths(NatToString(n)) == Some(n * 10)
  {
    NatToStringRoundTrip(n);
    var body := NatToString(n);
    assert !(|body| >= 3 && body[|body| - 2] == '.');
  }

  lemma ParseFractionTenths(n: nat, f: nat)
    requires f < 10
    ensures ParseUnsignedTenths(NatToString(n) + "." + [DigitChar(f)]) == Some(n * 10 + f)
  {
    NatToStringRoundTrip(n);
    var body := NatToString(n) + "." + [DigitChar(f)];
    assert body[..|body| - 2] == NatToString(n);
  }

  /** The printed speed reads back as the speed rounded to tenths: nothing is lost or altered. */
  lemma TenthsTextRoundTrip(k: int)
    ensures ParseTenths(TenthsText(k)) == Some(k)
  {
    var a := Abs(k);
    if k % 10 == 0 {
      assert k == (k / 10) * 10;
      if k < 0 {
        var body := NatToString(-(k / 10));
        assert TenthsText(k) == "-" + body;
        assert ("-" + body)[1..] == body;
        ParseWholeTenths(-(k / 10));
      } else {
        ParseWholeTenths(k / 10);
        assert NatToString(k / 10)[0] != '-';
      }
    } else {
      var tail := NatToString(a / 10) + "." + [DigitChar(a % 10)];
      ParseFractionTenths(a / 10, a % 10);
      if k < 0 {
        assert TenthsText(k) == "-" + tail;
        assert ("-" + tail)[1..] == tail;
      } else {
        assert TenthsText(k) == tail;
        assert tail[0] != '-';
      }
    }
  }

  /** `format`: the wind cell. */
  function Format(deg: Option<int>, kt: Option<real>): (r: string)
    ensures r == Dash <==> deg.None? && kt.None?
    ensures deg.None? && kt.Some? ==> r == SpeedText(kt.value) + " kt (" + Dash + ")"
  {
    if deg.None? && kt.None? then Dash
    else
      var card := DegToCardinal(deg);
      var spd := if kt.None? then Dash else SpeedText(kt.value);
      var degStr := if deg.None? then Dash else PadNat(NormDeg(deg.value), 3) + "°";
      if card == Dash then spd + " kt (" + degStr + ")"
      else card + " (" + degStr + ") @ " + spd + " kt"
  }

  /** With a bearing, the cell names its point and shows it as three digits that read back as the bearing in [0, 360). */
  lemma FormatShowsBearing(d: int, kt: Option<real>)
    ensures var card := DegToCardinal(Some(d));
            var s := Format(Some(d), kt);
            StartsWith(s, card + " (") &&
            |s| >= |card| + 5 && AllDigits(s[|card| + 2..|card| + 5]) &&
            DigitsValue(s[|card| + 2..|card| + 5]) == d % 360
  {
    var card := DegToCardinal(Some(d));
    var n := NormDeg(d);
    var p := PadNat(n, 3);
    assert |p| == 3 && AllDigits(p) && DigitsValue(p) == n by {
      PadNatRoundTrip(n, 3);
      assert Pow10(3) == 1000;
    }
    var spd := if kt.None? then Dash else SpeedText(kt.value);
    var rest := "°" + ") @ " + spd + " kt";
    assert card != Dash by {
      assert card in Compass.Points;
    }
    assert Format(Some(d), kt) == card + " (" + p + rest by {
      assert card + " (" + (p + "°") + ") @ " + spd + " kt" == card + " (" + p + rest;
    }
    SliceOfConcat(card + " (", p, rest);
  }

  lemma SliceOfConcat(a: string, b: string, c: string)
    ensures (a + b + c)[|a|..|a| + |b|] == b
    ensures StartsWith(a + b + c, a)
  {
    assert (a + b + c)[..|a|] == a;
  }
}
