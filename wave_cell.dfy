/**
 * `Hooks\WaveCell`: the wave column of the report. A buoy row or a forecast
 * row is first mapped to a DTO of height (m), period (s) and direction (deg),
 * each present only when numeric; the DTO renders as a dash unless all three
 * are present, otherwise as feet and seconds to one decimal and a whole
 * bearing in [0, 359].
 */
module WaveCell {
  import opened Common
  import opened Php
  import Maths
  import WavePeriod

  /** The presentation-free wave reading; `None` stands for PHP null. */
  datatype Dto = Dto(hs: Option<real>, per: Option<real>, dir: Option<real>)

  /** The rendered cell: the dash, or the rounded values the string is built from. */
  datatype Cell = NoData | Shown(hsFt: real, per: real, dirDeg: int)

  /**
   * `Maths::metersToFeet`, with the display precision as `p`: the feet,
   * rounded to `p` places, within half a unit of the last place.
   */
  function MetersToFeet(m: real, p: nat): (r: real)
    ensures AbsR(r - m * 3.28084) <= 0.5 / DecimalScale(p)
  {
    RoundScaledClose(m * 3.28084, DecimalScale(p));
    RoundTo(m * 3.28084, p)
  }

  /** Heights in metres keep their order in feet. */
  lemma MetersToFeetMonotone(a: real, b: real, p: nat)
    requires a <= b
    ensures MetersToFeet(a, p) <= MetersToFeet(b, p)
  {
    RoundToMonotone(a * 3.28084, b * 3.28084, p);
  }

  /** A numeric row field as a float, or `None`. */
  function NumField(row: Row, k: string): (r: Option<real>)
    ensures r.Some? <==> Isset(row, k) && IsNumeric(row[k])
  {
    NumOrNull(Field(row, k))
  }

  /**
   * `fromBuoyRow`: height and direction from WVHT and MWD; the period falls
   * back from the dominant period to SwP, then APD, then nothing.
   */
  function FromBuoyRow(row: Row): (r: Dto)
    ensures r.hs == NumField(row, "WVHT") && r.dir == NumField(row, "MWD")
    ensures r.per.Some? <==>
      WavePeriod.HasComponents(row) || NumField(row, "SwP").Some? || NumField(row, "APD").Some?
    ensures WavePeriod.HasComponents(row) ==>
      r.per == WavePeriod.ComputeDominantPeriod(row, WavePeriod.DefaultBias)
    ensures !WavePeriod.HasComponents(row) ==> r.per == OrElse(NumField(row, "SwP"), NumField(row, "APD"))
  {
    var dp := WavePeriod.ComputeDominantPeriod(row, WavePeriod.DefaultBias);
    Dto(NumField(row, "WVHT"), OrElse(dp, OrElse(NumField(row, "SwP"), NumField(row, "APD"))), NumField(row, "MWD"))
  }

  /** `fromForecastRow`: each of `hs_m`, `per_s`, `dir_deg` as a float when numeric. */
  function FromForecastRow(row: Row): (r: Dto)
    ensures r.hs.Some? <==> Isset(row, "hs_m") && IsNumeric(row["hs_m"])
    ensures r.per.Some? <==> Isset(row, "per_s") && IsNumeric(row["per_s"])
    ensures r.dir.Some? <==> Isset(row, "dir_deg") && IsNumeric(row["dir_deg"])
    ensures r.hs.Some? ==> r.hs.value == FloatCast(row["hs_m"])
    ensures r.per.Some? ==> r.per.value == FloatCast(row["per_s"])
    ensures r.dir.Some? ==> r.dir.value == FloatCast(row["dir_deg"])
  {
    Dto(NumField(row, "hs_m"), NumField(row, "per_s"), NumField(row, "dir_deg"))
  }

  /** The row a DTO is stored as, with nulls for missing values. */
  function DtoRow(d: Dto): Row
  {
    map["hs_m" := OptFloat(d.hs), "per_s" := OptFloat(d.per), "dir_deg" := OptFloat(d.dir)]
  }

  function OptFloat(v: Option<real>): PVal
  {
    if v.Some? then PFloat(v.value) else PNull
  }

  /** Reading a DTO back from its row gives the same DTO. */
  lemma FromForecastRowRoundTrip(d: Dto)
    ensures FromForecastRow(DtoRow(d)) == d
  {
    var row := DtoRow(d);
    assert row["hs_m"] == OptFloat(d.hs);
    assert row["per_s"] == OptFloat(d.per);
    assert row["dir_deg"] == OptFloat(d.dir);
  }

  /** The whole bearing shown: the normalised direction rounded, with 360 folded onto 0. */
  function RenderedDir(deg: real): (r: int)
    ensures 0 <= r <= 359
    ensures Maths.AngDist(r as real, deg) <= 0.5
  {
    var n := Maths.NormAngle(deg);
    var k := RoundHalfAway(n);
    var r := if k == 360 then 0 else k;
    RenderedDirClose(deg, r);
    r
  }

  lemma RenderedDirClose(deg: real, r: int)
    requires r == (if RoundHalfAway(Maths.NormAngle(deg)) == 360 then 0 else RoundHalfAway(Maths.NormAngle(deg)))
    ensures 0 <= r <= 359
    ensures Maths.AngDist(r as real, deg) <= 0.5
  {
    var n := Maths.NormAngle(deg);
    var k := RoundHalfAway(n);
    assert 0 <= k <= 360;
    Maths.NormAngleFixes(r as real);
  }

  /**
   * `renderDTO`: the dash unless height, period and direction are all
   * present; otherwise feet and seconds rounded to one decimal, and a whole
   * bearing within half a degree of the direction.
   */
  function RenderDto(d: Dto): (r: Cell)
    ensures r.NoData? <==> d.hs.None? || d.per.None? || d.dir.None?
    ensures r.Shown? ==> 0 <= r.dirDeg <= 359 && Maths.AngDist(r.dirDeg as real, d.dir.value) <= 0.5
    ensures r.Shown? ==> r.per == RoundTo(d.per.value, 1)
    ensures r.Shown? ==> r.hsFt == MetersToFeet(d.hs.value, 1) && AbsR(r.hsFt - d.hs.value * 3.28084) <= 0.05
  {
    if d.hs.None? || d.per.None? || d.dir.None? then NoData
    else Shown(MetersToFeet(d.hs.value, 1), RoundTo(d.per.value, 1), RenderedDir(d.dir.value))
  }

  /** `formatParts`: each part kept when numeric. */
  function FormatParts(hs: PVal, per: PVal, dir: PVal): (r: Cell)
    ensures r.NoData? <==> !IsNumeric(hs) || !IsNumeric(per) || !IsNumeric(dir)
    ensures r.Shown? ==>
      r.hsFt == MetersToFeet(FloatCast(hs), 1) && r.per == RoundTo(FloatCast(per), 1) &&
      Maths.AngDist(r.dirDeg as real, FloatCast(dir)) <= 0.5
  {
    RenderDto(Dto(NumOrNull(Some(hs)), NumOrNull(Some(per)), NumOrNull(Some(dir))))
  }

  /**
   * `cellFromBuoyRow`: the dash when WVHT or MWD is missing or no period
   * can be found; otherwise WVHT in feet.
   */
  function CellFromBuoyRow(row: Row): (r: Cell)
    ensures r.NoData? <==>
      NumField(row, "WVHT").None? || NumField(row, "MWD").None? ||
      (!WavePeriod.HasComponents(row) && NumField(row, "SwP").None? && NumField(row, "APD").None?)
    ensures r.Shown? ==> r.hsFt == MetersToFeet(FloatCast(row["WVHT"]), 1)
  {
    RenderDto(FromBuoyRow(row))
  }

  /** `dominantCell`, an alias of `cellFromBuoyRow`. */
  function DominantCell(row: Row): (r: Cell)
    ensures r == CellFromBuoyRow(row)
  {
    CellFromBuoyRow(row)
  }

  /** `cellFromForecastRow`. */
  function CellFromForecastRow(row: Row): (r: Cell)
    ensures r.NoData? <==>
      NumField(row, "hs_m").None? || NumField(row, "per_s").None? || NumField(row, "dir_deg").None?
  {
    RenderDto(FromForecastRow(row))
  }

  /** A stored forecast DTO renders the same as the DTO itself. */
  lemma ForecastCellOfStoredDto(d: Dto)
    ensures CellFromForecastRow(DtoRow(d)) == RenderDto(d)
  {
    FromForecastRowRoundTrip(d);
  }
}
