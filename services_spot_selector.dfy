/**
 * `Services\SpotSelector::select`: the older "where to surf now" list. A
 * spot is listed when both buoys report a direction, the interpolated
 * midpoint row has a dominant period, the period lies in the spot's period
 * range and the interpolated direction in its direction range, the latter
 * compared as written, without reducing the angles to one turn. Each row
 * says which list it belongs to and carries a tide note.
 *
 * The spots are the query result, in its order. Per spot, the two buoy
 * distances, the weighted circular mean direction and the interpolated
 * midpoint row arrive as `geo`; the tide match (`TidePreferenceEvaluator`
 * at the current minute) as `tide`; the local clock rendering of an
 * instant as `localTime`.
 */
module ServicesSpotSelector {
  import opened Common
  import opened Php
  import opened TidePhaseService
  import opened TidePreference
  import PeriodService
  import Maths
  import HooksSpotSelector

  /** What `geo` gives for a spot: the buoy distances, the mean direction and the midpoint row. */
  datatype Geometry = Geometry(dist1: real, dist2: real, mwd: real, mid: Row)

  /** `(float)$spot[k]`: a missing or null column reads as 0. */
  function FloatOf(spot: Row, k: string): (r: real)
    ensures !Isset(spot, k) ==> r == 0.0
  {
    if k in spot then FloatCast(spot[k]) else 0.0
  }

  /**
   * The direction test as written: a plain interval when `dMin <= dMax`,
   * the wrapped complement otherwise, on the values as stored.
   */
  predicate DirWindow(dir: real, dMin: real, dMax: real)
  {
    if dMin <= dMax then dMin <= dir <= dMax else dir >= dMin || dir <= dMax
  }

  /** For bearings already within one turn, the test agrees with the normalising one. */
  lemma DirWindowAgreesWithinOneTurn(dir: real, dMin: real, dMax: real)
    requires 0.0 <= dir < 360.0 && 0.0 <= dMin < 360.0 && 0.0 <= dMax < 360.0
    ensures DirWindow(dir, dMin, dMax) == Maths.DirInRange(dir, dMin, dMax)
  {
    Maths.NormAngleFixes(dir);
    Maths.NormAngleFixes(dMin);
    Maths.NormAngleFixes(dMax);
  }

  /**
   * A bound stored outside one turn changes the answer: the window from
   * -20 to 20 degrees excludes 350 here, while the normalising test of the
   * other selectors includes it.
   */
  lemma DirWindowDiffersOutsideOneTurn()
    ensures !DirWindow(350.0, -20.0, 20.0)
    ensures Maths.DirInRange(350.0, -20.0, 20.0)
  {
    Maths.NormAngleFixes(350.0);
    Maths.NormAngleFixes(20.0);
    assert Maths.NormAngle(-20.0) == 340.0 by {
      assert Php.FMod(-20.0, 360.0) == -Php.NonnegMod(20.0, 360.0);
      Php.FModBelow(20.0);
    }
  }

  /** The wave checks a spot must pass, in the order the loop runs them. */
  predicate WaveOk(spot: Row, data1: Row, data2: Row, g: Geometry)
  {
    var dp := PeriodService.ComputeDominantPeriod(g.mid);
    Field(data1, "MWD").Some? && Field(data2, "MWD").Some? && dp.Some? &&
    FloatOf(spot, "period_min") <= dp.value <= FloatOf(spot, "period_max") &&
    DirWindow(g.mwd, FloatOf(spot, "dir_min"), FloatOf(spot, "dir_max"))
  }

  /** A row of the list; times are the local clock texts. */
  datatype ServiceRow = ServiceRow(
    spotId: Option<PVal>, spotName: Option<PVal>,
    interpolatedMwd: real, dominantPeriod: real, dist1: real, dist2: real, wvht: Option<real>,
    tideOk: bool, tideReason: Option<string>, tideReasonTime: Option<string>, tide: Option<TideWindow>,
    hasPrefs: bool, nextPref: Option<string>, nextPrefTime: Option<string>,
    marker: Option<string>, markerTime: Option<string>,
    bucket: string, note: Option<string>)

  /** `$phase && $time`: both present and neither empty nor "0". */
  predicate BothSet(phase: Option<string>, time: Option<string>)
  {
    phase.Some? && time.Some? && Truthy(PStr(phase.value)) && Truthy(PStr(time.value))
  }

  function Clock(t: Option<int>, localTime: int -> string): (r: Option<string>)
    ensures r.Some? <==> t.Some?
  {
    if t.Some? then Some(localTime(t.value)) else None
  }

  /** The list a spot goes to: 1 only with tide preferences and a tide match. */
  function Bucket(hasPrefs: bool, tp: PrefMatch): (r: string)
    ensures r == "1" || r == "2"
    ensures r == "1" <==> hasPrefs && tp.ok
  {
    if hasPrefs && tp.ok then "1" else "2"
  }

  /**
   * The tide note: the matching phase when the spot has preferences and
   * matches, the next preferred phase when it has preferences but no match,
   * the next tide marker without preferences; in each case only when both
   * the phase and its time are set.
   */
  function TideNote(hasPrefs: bool, tp: PrefMatch, localTime: int -> string): (r: Option<string>)
    ensures hasPrefs && tp.ok ==>
      var (p, t) := (tp.reason, Clock(tp.reasonT, localTime));
      (r.Some? <==> BothSet(p, t)) && (r.Some? ==> r.value == p.value + " @ " + t.value)
    ensures hasPrefs && !tp.ok ==>
      var (p, t) := (tp.nextPref, Clock(tp.nextPrefT, localTime));
      (r.Some? <==> BothSet(p, t)) && (r.Some? ==> r.value == "next preferred " + p.value + " @ " + t.value)
    ensures !hasPrefs ==>
      var (p, t) := (tp.marker, Clock(tp.markerT, localTime));
      (r.Some? <==> BothSet(p, t)) && (r.Some? ==> r.value == "next tide " + p.value + " @ " + t.value)
  {
    if hasPrefs then
      if tp.ok then
        var p := tp.reason;
        var t := Clock(tp.reasonT, localTime);
        if BothSet(p, t) then Some(p.value + " @ " + t.value) else None
      else
        var p := tp.nextPref;
        var t := Clock(tp.nextPrefT, localTime);
        if BothSet(p, t) then Some("next preferred " + p.value + " @ " + t.value) else None
    else
      var p := tp.marker;
      var t := Clock(tp.markerT, localTime);
      if BothSet(p, t) then Some("next tide " + p.value + " @ " + t.value) else None
  }

  /** The row of a spot that passed the wave checks. */
  function RowOf(spot: Row, g: Geometry, dp: real, tp: PrefMatch, localTime: int -> string): (r: ServiceRow)
    ensures r.dominantPeriod == dp && r.tideOk == tp.ok && r.hasPrefs == HooksSpotSelector.HasPrefs(spot)
    ensures r.bucket == Bucket(r.hasPrefs, tp) && r.note == TideNote(r.hasPrefs, tp, localTime)
    ensures r.tideReason == tp.reason && r.nextPref == tp.nextPref && r.marker == tp.marker
  {
    var hasPrefs := HooksSpotSelector.HasPrefs(spot);
    ServiceRow(Field(spot, "id"), Field(spot, "spot_name"),
               RoundTo(g.mwd, 1), dp, RoundTo(g.dist1, 2), RoundTo(g.dist2, 2), NumOrNull(Field(g.mid, "WVHT")),
               tp.ok, tp.reason, Clock(tp.reasonT, localTime), tp.tide,
               hasPrefs, tp.nextPref, Clock(tp.nextPrefT, localTime), tp.marker, Clock(tp.markerT, localTime),
               Bucket(hasPrefs, tp), TideNote(hasPrefs, tp, localTime))
  }

  /** What a spot contributes: its row when it passes the wave checks. */
  function RowFor(spot: Row, data1: Row, data2: Row, g: Geometry, tp: PrefMatch, localTime: int -> string)
    : (r: Option<ServiceRow>)
    ensures r.Some? <==> WaveOk(spot, data1, data2, g)
    ensures r.Some? ==>
      Some(r.value.dominantPeriod) == PeriodService.ComputeDominantPeriod(g.mid) &&
      r.value == RowOf(spot, g, r.value.dominantPeriod, tp, localTime)
  {
    if !WaveOk(spot, data1, data2, g) then None
    else Some(RowOf(spot, g, PeriodService.ComputeDominantPeriod(g.mid).value, tp, localTime))
  }

  function RowPick(data1: Row, data2: Row, geo: Row -> Geometry, tide: Row -> PrefMatch, localTime: int -> string)
    : Row -> Option<ServiceRow>
  {
    spot => RowFor(spot, data1, data2, geo(spot), tide(spot), localTime)
  }

  /** The list: the spots that pass the wave checks, in order. */
  function SelectSpec(spots: seq<Row>, data1: Row, data2: Row, geo: Row -> Geometry,
                      tide: Row -> PrefMatch, localTime: int -> string): seq<ServiceRow>
  {
    Picked(spots, RowPick(data1, data2, geo, tide, localTime))
  }

  /** `select`: one pass over the spots with a `continue` per failed check. */
  method Select(spots: seq<Row>, data1: Row, data2: Row, geo: Row -> Geometry,
                tide: Row -> PrefMatch, localTime: int -> string) returns (rows: seq<ServiceRow>)
    ensures rows == SelectSpec(spots, data1, data2, geo, tide, localTime)
  {
    rows := [];
    ghost var pick := RowPick(data1, data2, geo, tide, localTime);
    for i := 0 to |spots|
      invariant rows == Picked(spots[..i], pick)
    {
      var spot := spots[i];
      PickedStep(spots, i, pick);
      var g := geo(spot);
      assert pick(spot) == RowFor(spot, data1, data2, g, tide(spot), localTime);
      var mwd1 := Field(data1, "MWD");
      var mwd2 := Field(data2, "MWD");
      if mwd1.None? || mwd2.None? {
        continue;
      }
      var dominantPeriod := PeriodService.ComputeDominantPeriod(g.mid);
      if dominantPeriod.None? {
        continue;
      }
      var pMin := FloatOf(spot, "period_min");
      var pMax := FloatOf(spot, "period_max");
      var dMin := FloatOf(spot, "dir_min");
      var dMax := FloatOf(spot, "dir_max");
      var dirOk := if dMin <= dMax then g.mwd >= dMin && g.mwd <= dMax else g.mwd >= dMin || g.mwd <= dMax;
      if dominantPeriod.value < pMin || dominantPeriod.value > pMax || !dirOk {
        continue;
      }
      var tp := tide(spot);
      rows := rows + [RowOf(spot, g, dominantPeriod.value, tp, localTime)];
    }
    assert spots[..|spots|] == spots;
  }

  /**
   * The list holds one row per spot that passes the wave checks, in the
   * spots' order, and nothing else.
   */
  lemma SelectKeepsPassingSpots(spots: seq<Row>, data1: Row, data2: Row, geo: Row -> Geometry,
                                tide: Row -> PrefMatch, localTime: int -> string)
    ensures exists idx: seq<nat> ::
      |idx| == |SelectSpec(spots, data1, data2, geo, tide, localTime)| && StrictlyIncreasing(idx) &&
      (forall k :: 0 <= k < |idx| ==> idx[k] < |spots| && WaveOk(spots[idx[k]], data1, data2, geo(spots[idx[k]]))) &&
      (forall i :: 0 <= i < |spots| && WaveOk(spots[i], data1, data2, geo(spots[i])) ==> i in idx)
  {
    var r := SelectSpec(spots, data1, data2, geo, tide, localTime);
    var pick := RowPick(data1, data2, geo, tide, localTime);
    PickedSpec(spots, pick);
    var idx: seq<nat> :| PicksAt(spots, pick, r, idx);
    forall k | 0 <= k < |idx|
      ensures idx[k] < |spots| && WaveOk(spots[idx[k]], data1, data2, geo(spots[idx[k]]))
    {
      assert pick(spots[idx[k]]) == Some(r[k]);
    }
    forall i | 0 <= i < |spots| && WaveOk(spots[i], data1, data2, geo(spots[i]))
      ensures i in idx
    {
      assert pick(spots[i]).Some?;
    }
  }

  /** A listed row is in list 1 exactly when the spot has tide preferences and its tide matches. */
  lemma SelectBucketRule(spots: seq<Row>, data1: Row, data2: Row, geo: Row -> Geometry,
                         tide: Row -> PrefMatch, localTime: int -> string)
    ensures forall row :: row in SelectSpec(spots, data1, data2, geo, tide, localTime) ==>
      (row.bucket == "1" <==> row.hasPrefs && row.tideOk)
  {
    var r := SelectSpec(spots, data1, data2, geo, tide, localTime);
    var pick := RowPick(data1, data2, geo, tide, localTime);
    forall row | row in r
      ensures row.bucket == "1" <==> row.hasPrefs && row.tideOk
    {
      PickedMember(spots, pick, row);
      var i :| 0 <= i < |spots| && pick(spots[i]) == Some(row);
    }
  }
}
