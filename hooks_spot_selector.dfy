/**
 * `Hooks\SpotSelector`: the three spot lists of the surf report.
 *
 *  - "Where to surf now" (`select`) keeps the spots whose realtime wave gate
 *    passes, with their tide match and the list (bucket) they belong to.
 *  - "Later today" and "Tomorrow" (`selectForecastLaterToday`,
 *    `selectForecastTomorrow`) keep the spots whose next preferred tide falls
 *    in the window, whose forecast at that time passes the forecast gate and
 *    whose tide code the spot allows; per spot name only the best-scoring
 *    spot is kept, and the list is ordered by name.
 *
 * The database query results are the `spots` parameter, in the query's
 * order. The station lookups are their outcomes (`c12`, `c17`,
 * `coordsFound`). The tide match (`tidePrefMatch` at the reference minute),
 * the distance-weighted direction and midpoint row of the realtime gate, and
 * the interpolated forecast at a target instant are passed in as functions.
 * Times are epoch seconds.
 */
module HooksSpotSelector {
  import opened Common
  import opened Php
  import opened WavePreference
  import opened TidePreference
  import Maths
  import WaveCell
  import Format

  const Dash: string := [Format.EmDash]

  /** The name a spot without `spot_name` is listed under. */
  const UnknownSpot: string := "Unknown spot"

  /** The weight of the direction distance in the forecast score. */
  const DirWeight: real := 0.1

  /** The last minute offset of tomorrow's window (`$delta >= 24 * 60` is gated). */
  const LastMinuteOfDay: int := 24 * 60 - 1

  /** `!empty(...)` on any of the four tide preference columns. */
  predicate HasPrefs(spot: Row): (b: bool)
    ensures Prefs(spot).Any() ==> b
  {
    PrefColumnsNotEmpty(spot);
    NotEmpty(spot, "H_tide") || NotEmpty(spot, "M_plus_tide") ||
    NotEmpty(spot, "M_minus_tide") || NotEmpty(spot, "L_tide")
  }

  /** Each column the tide matcher reads as a preference is one `!empty` accepts. */
  lemma PrefColumnsNotEmpty(spot: Row)
    ensures Prefs(spot).h ==> NotEmpty(spot, "H_tide")
    ensures Prefs(spot).l ==> NotEmpty(spot, "L_tide")
    ensures Prefs(spot).mPlus ==> NotEmpty(spot, "M_plus_tide")
    ensures Prefs(spot).mMinus ==> NotEmpty(spot, "M_minus_tide")
  {
    if "H_tide" in spot { PrefTruthyIsTruthy(spot["H_tide"]); }
    if "L_tide" in spot { PrefTruthyIsTruthy(spot["L_tide"]); }
    if "M_plus_tide" in spot { PrefTruthyIsTruthy(spot["M_plus_tide"]); }
    if "M_minus_tide" in spot { PrefTruthyIsTruthy(spot["M_minus_tide"]); }
  }

  /**
   * The list bucket's test is wider than the matcher's: a column set to 2
   * counts for `$hasPrefs` but is no preference for `tidePrefMatch`.
   */
  lemma HasPrefsWiderThanPrefs()
    ensures HasPrefs(map["H_tide" := PInt(2)]) && !Prefs(map["H_tide" := PInt(2)]).Any()
  {
    var spot := map["H_tide" := PInt(2)];
    assert Field(spot, "H_tide") == Some(PInt(2));
    assert NotEmpty(spot, "H_tide");
  }

  /** The buoy-style row handed to the wave cell: the period stands in for every period column. */
  function CellRow(hs: Option<real>, per: real, dir: real): Row
  {
    map["WVHT" := (if hs.Some? then PFloat(hs.value) else PNull), "MWD" := PFloat(dir),
        "SwP" := PFloat(per), "WWP" := PFloat(per), "APD" := PFloat(per)]
  }

  /** The `wave_cell` of a row. */
  function CellOf(hs: Option<real>, per: real, dir: real): WaveCell.Cell
  {
    WaveCell.DominantCell(CellRow(hs, per, dir))
  }

  // ---------------------------------------------------------------------
  // Where to surf now
  // ---------------------------------------------------------------------

  /**
   * A row of the "now" list. The debug geometry columns and the constant
   * `wind` column are not kept.
   */
  datatype NowRow = NowRow(
    spotId: Option<PVal>, spotName: Option<PVal>,
    hs: Option<real>, per: real, dir: real, waveCell: WaveCell.Cell,
    tide: string, tideOk: bool, phaseCode: Option<string>, phaseTime: Option<int>, delta: Option<int>,
    hasPrefs: bool, nextPref: Option<string>, nextPrefT: Option<int>,
    marker: Option<string>, markerT: Option<int>,
    bucket: string)

  /** The row for a spot whose wave gate passed, given its tide match. */
  function NowRowOf(spot: Row, w: Gate, tp: PrefMatch): (r: NowRow)
    requires w.Pass?
    ensures r.hs == w.hs && r.per == w.per && r.dir == w.dir && r.waveCell == CellOf(w.hs, w.per, w.dir)
    ensures r.tideOk == tp.ok && r.hasPrefs == HasPrefs(spot)
    ensures r.bucket == "1" || r.bucket == "2"
    ensures r.bucket == "1" <==> tp.ok && HasPrefs(spot)
    ensures r.phaseCode.Some? <==> tp.reason.Some? || tp.nextPref.Some? || tp.marker.Some?
    ensures tp.reason.Some? ==> r.phaseCode == tp.reason
    ensures tp.reason.None? && tp.nextPref.Some? ==> r.phaseCode == tp.nextPref
    ensures r.phaseCode.Some? ==> r.tide == r.phaseCode.value
    ensures r.phaseCode.None? ==> r.tide == Dash
    ensures r.delta == tp.delta && r.nextPref == tp.nextPref && r.marker == tp.marker
  {
    var code := OrElse(OrElse(tp.reason, tp.nextPref), tp.marker);
    NowRow(Field(spot, "id"), Field(spot, "spot_name"),
           w.hs, w.per, w.dir, CellOf(w.hs, w.per, w.dir),
           if code.Some? then code.value else Dash, tp.ok, code,
           OrElse(OrElse(tp.reasonT, tp.nextPrefT), tp.markerT), tp.delta,
           HasPrefs(spot), tp.nextPref, tp.nextPrefT, tp.marker, tp.markerT,
           if tp.ok && HasPrefs(spot) then "1" else "2")
  }

  /**
   * `realtimeForSpot` with the two buoy rows fixed; `geo` gives, per spot,
   * the distance-weighted mean direction and the interpolated midpoint row.
   */
  function RealtimeGate(data1: Row, data2: Row, geo: Row -> (real, Row)): Row -> Gate
  {
    spot => RealtimeForSpot(spot, Field(data1, "MWD"), Field(data2, "MWD"), geo(spot).0, geo(spot).1)
  }

  /** The row a spot contributes to the "now" list, if any. */
  function NowPick(gate: Row -> Gate, tide: Row -> PrefMatch): Row -> Option<NowRow>
  {
    spot => if gate(spot).Fail? then None else Some(NowRowOf(spot, gate(spot), tide(spot)))
  }

  /** The "now" list: empty without both station coordinates, else the spots that pass, in order. */
  function SelectSpec(spots: seq<Row>, c12: Option<(real, real)>, c17: Option<(real, real)>,
                      data1: Row, data2: Row, geo: Row -> (real, Row), tide: Row -> PrefMatch): seq<NowRow>
  {
    if c12.None? || c17.None? then []
    else Picked(spots, NowPick(RealtimeGate(data1, data2, geo), tide))
  }

  /** `select`: one pass over the spots, skipping those whose wave gate fails. */
  method Select(spots: seq<Row>, c12: Option<(real, real)>, c17: Option<(real, real)>,
                data1: Row, data2: Row, geo: Row -> (real, Row), tide: Row -> PrefMatch)
    returns (rows: seq<NowRow>)
    ensures rows == SelectSpec(spots, c12, c17, data1, data2, geo, tide)
  {
    if c12.None? || c17.None? {
      return [];
    }
    rows := [];
    ghost var pick := NowPick(RealtimeGate(data1, data2, geo), tide);
    for i := 0 to |spots|
      invariant rows == Picked(spots[..i], pick)
    {
      var spot := spots[i];
      PickedStep(spots, i, pick);
      var (dir, mid) := geo(spot);
      var w := RealtimeForSpot(spot, Field(data1, "MWD"), Field(data2, "MWD"), dir, mid);
      if w.Fail? {
        continue;
      }
      var tp := tide(spot);
      rows := rows + [NowRowOf(spot, w, tp)];
    }
    assert spots[..|spots|] == spots;
  }

  /**
   * The "now" list is empty without both station coordinates; otherwise it
   * holds one row per spot whose wave gate passes, in the spots' order, and
   * nothing else.
   */
  lemma SelectKeepsPassingSpots(spots: seq<Row>, c12: Option<(real, real)>, c17: Option<(real, real)>,
                                data1: Row, data2: Row, geo: Row -> (real, Row), tide: Row -> PrefMatch)
    ensures c12.None? || c17.None? ==> SelectSpec(spots, c12, c17, data1, data2, geo, tide) == []
    ensures c12.Some? && c17.Some? ==>
      PassingRows(SelectSpec(spots, c12, c17, data1, data2, geo, tide), spots, RealtimeGate(data1, data2, geo), tide)
  {
    if c12.Some? && c17.Some? {
      var r := SelectSpec(spots, c12, c17, data1, data2, geo, tide);
      var gate := RealtimeGate(data1, data2, geo);
      var pick := NowPick(gate, tide);
      PickedSpec(spots, pick);
      var idx: seq<nat> :| PicksAt(spots, pick, r, idx);
      forall k | 0 <= k < |idx|
        ensures idx[k] < |spots| && gate(spots[idx[k]]).Pass? &&
                r[k] == NowRowOf(spots[idx[k]], gate(spots[idx[k]]), tide(spots[idx[k]]))
      {
        assert pick(spots[idx[k]]) == Some(r[k]);
      }
      forall i | 0 <= i < |spots| && gate(spots[i]).Pass?
        ensures i in idx
      {
        assert pick(spots[i]).Some?;
      }
      assert PassingRowsAt(r, spots, gate, tide, idx);
    }
  }

  /** `r` holds, in order, the rows of exactly the spots whose gate passes, as listed by `idx`. */
  ghost predicate PassingRowsAt(r: seq<NowRow>, spots: seq<Row>, gate: Row -> Gate, tide: Row -> PrefMatch, idx: seq<nat>)
  {
    |idx| == |r| && StrictlyIncreasing(idx) &&
    (forall k :: 0 <= k < |idx| ==> idx[k] < |spots| && gate(spots[idx[k]]).Pass? &&
                                    r[k] == NowRowOf(spots[idx[k]], gate(spots[idx[k]]), tide(spots[idx[k]]))) &&
    (forall i :: 0 <= i < |spots| && gate(spots[i]).Pass? ==> i in idx)
  }

  ghost predicate PassingRows(r: seq<NowRow>, spots: seq<Row>, gate: Row -> Gate, tide: Row -> PrefMatch)
  {
    exists idx: seq<nat> :: PassingRowsAt(r, spots, gate, tide, idx)
  }

  /** A listed row is in list 1 exactly when its tide matches and the spot has tide preferences. */
  lemma SelectBucketRule(spots: seq<Row>, c12: Option<(real, real)>, c17: Option<(real, real)>,
                         data1: Row, data2: Row, geo: Row -> (real, Row), tide: Row -> PrefMatch)
    ensures forall row :: row in SelectSpec(spots, c12, c17, data1, data2, geo, tide) ==>
      (row.bucket == "1" <==> row.tideOk && row.hasPrefs)
  {
    var r := SelectSpec(spots, c12, c17, data1, data2, geo, tide);
    if c12.Some? && c17.Some? {
      var gate := RealtimeGate(data1, data2, geo);
      var pick := NowPick(gate, tide);
      forall row | row in r
        ensures row.bucket == "1" <==> row.tideOk && row.hasPrefs
      {
        PickedMember(spots, pick, row);
        var i :| 0 <= i < |spots| && pick(spots[i]) == Some(row);
        assert row == NowRowOf(spots[i], gate(spots[i]), tide(spots[i]));
      }
    }
  }

  // ---------------------------------------------------------------------
  // Ordering by name
  // ---------------------------------------------------------------------

  /**
   * `strcmp(a, b) < 0`: the byte-wise comparison of the UTF-8 texts, which
   * orders them as their code points do.
   */
  predicate Before(a: string, b: string)
  {
    if |a| == 0 then |b| > 0
    else if |b| == 0 then false
    else if a[0] != b[0] then a[0] < b[0]
    else Before(a[1..], b[1..])
  }

  lemma {:induction false} BeforeIrreflexive(a: string)
    ensures !Before(a, a)
  {
    if |a| > 0 {
      BeforeIrreflexive(a[1..]);
    }
  }

  lemma {:induction false} BeforeTransitive(a: string, b: string, c: string)
    requires Before(a, b) && Before(b, c)
    ensures Before(a, c)
  {
    if |a| > 0 && |b| > 0 && |c| > 0 && a[0] == b[0] && b[0] == c[0] {
      BeforeTransitive(a[1..], b[1..], c[1..]);
    }
  }

  /** Two different names are ordered one way or the other. */
  lemma {:induction false} BeforeTotal(a: string, b: string)
    requires a != b
    ensures Before(a, b) || Before(b, a)
  {
    if |a| > 0 && |b| > 0 && a[0] == b[0] {
      assert a == [a[0]] + a[1..] && b == [b[0]] + b[1..];
      BeforeTotal(a[1..], b[1..]);
    }
  }

  // ---------------------------------------------------------------------
  // Later today and tomorrow
  // ---------------------------------------------------------------------

  /** A row of the forecast lists; the constant `wind` column is not kept. */
  datatype ForecastRow = ForecastRow(
    name: string, hs: Option<real>, per: real, dir: real, waveCell: WaveCell.Cell,
    tide: string, phaseCode: Option<string>, phaseTime: Option<int>, delta: Option<int>)

  /** A kept spot with its match score (lower is better). */
  datatype Scored = Scored(row: ForecastRow, score: real)

  /** `$spot['spot_name'] ?? 'Unknown spot'`; the column is text. */
  function NameOf(spot: Row): string
  {
    match Field(spot, "spot_name")
    case Some(PStr(s)) => s
    case Some(_) => ""
    case None => UnknownSpot
  }

  /** The start of the minute: the `'Y-m-d H:i:00'` rendering of an instant. */
  function MinuteFloor(t: int): (r: int)
    ensures r <= t < r + 60 && r % 60 == 0
  {
    t - t % 60
  }

  /** The instant `delta` minutes after the reference minute. */
  function Target(ref: int, delta: int): (r: int)
    ensures r - MinuteFloor(ref) == 60 * delta
  {
    MinuteFloor(ref) + 60 * delta
  }

  /** The whole minutes left until the end of the local day, never negative. */
  function MinutesLeft(now: int, endOfDay: int): (r: int)
    ensures r >= 0
    ensures now <= endOfDay ==> 60 * r <= endOfDay - now < 60 * r + 60
    ensures now > endOfDay ==> r == 0
  {
    Max(0, (endOfDay - now) / 60)
  }

  /** `next_pref ?? closest_pref ?? next_marker`. */
  function TideCode(tp: PrefMatch): (r: Option<string>)
    ensures tp.nextPref.Some? ==> r == tp.nextPref
    ensures tp.nextPref.None? ==> r == tp.marker
  {
    OrElse(tp.nextPref, tp.marker)
  }

  /** The forecast gate at the spot's next preferred tide. */
  function ForecastGate(spot: Row, ref: int, delta: int, forecast: (Row, int) -> Forecast): Gate
  {
    var t := Target(ref, delta);
    ForecastForSpot(spot, IntToString(t), forecast(spot, t))
  }

  /**
   * The score of a passing forecast against the spot's period and direction
   * windows, with the mid direction as the source computes it.
   */
  function Score(spot: Row, w: Gate): (r: real)
    requires w.Pass?
    ensures r >= 0.0
    ensures Setting(spot, "period_min").None? && Setting(spot, "dir_min").None? ==> r == 0.0
  {
    Maths.MatchScoreAsWritten(w.per, w.dir, Setting(spot, "period_min"), Setting(spot, "period_max"),
                     Setting(spot, "dir_min"), Setting(spot, "dir_max"), DirWeight)
  }

  /**
   * What one spot contributes to a forecast list: nothing when its delta is
   * missing or outside `[0, last]`, when the forecast gate fails there, or
   * when the spot does not allow its tide code.
   */
  function CandidateFor(spot: Row, tp: PrefMatch, ref: int, last: int, forecast: (Row, int) -> Forecast)
    : (r: Option<Scored>)
    ensures r.Some? <==>
      tp.delta.Some? && 0 <= tp.delta.value <= last &&
      ForecastGate(spot, ref, tp.delta.value, forecast).Pass? && AllowPhase(spot, TideCode(tp))
    ensures r.Some? ==>
      var w := ForecastGate(spot, ref, tp.delta.value, forecast);
      var row := r.value.row;
      row.name == NameOf(spot) && r.value.score == Score(spot, w) &&
      row.per == w.per && row.dir == w.dir && row.hs == w.hs &&
      ForecastPeriodOk(row.per, Setting(spot, "period_min"), Setting(spot, "period_max")) &&
      DirOk(row.dir, Setting(spot, "dir_min"), Setting(spot, "dir_max")) &&
      row.phaseCode == TideCode(tp) && row.phaseCode.Some? && row.tide == row.phaseCode.value &&
      row.delta == tp.delta
  {
    if tp.delta.None? || tp.delta.value < 0 || tp.delta.value > last then None
    else
      var w := ForecastGate(spot, ref, tp.delta.value, forecast);
      if w.Fail? then None
      else
        var code := TideCode(tp);
        if !AllowPhase(spot, code) then None
        else
          var row := ForecastRow(NameOf(spot), w.hs, w.per, w.dir, CellOf(w.hs, w.per, w.dir),
                                 code.value, code, OrElse(tp.nextPrefT, tp.markerT), tp.delta);
          Some(Scored(row, Score(spot, w)))
  }

  function CandidatePick(tide: Row -> PrefMatch, ref: int, last: int, forecast: (Row, int) -> Forecast)
    : Row -> Option<Scored>
  {
    spot => CandidateFor(spot, tide(spot), ref, last, forecast)
  }

  /** The best kept spot per name (`$bestByName`). */
  type Best = map<string, Scored>

  /** A new candidate replaces the kept one for its name only when it scores strictly lower. */
  function Offer(m: Best, c: Scored): Best
  {
    var n := c.row.name;
    if n !in m || c.score < m[n].score then m[n := c] else m
  }

  /** The best-per-name table after offering the candidates in order. */
  function BestByName(cs: seq<Scored>): (m: Best)
    ensures forall n :: n in m ==> m[n].row.name == n
  {
    if |cs| == 0 then map[] else Offer(BestByName(cs[..|cs| - 1]), cs[|cs| - 1])
  }

  /** The names that occur among the candidates. */
  ghost predicate KeysAreNames(cs: seq<Scored>, m: Best)
  {
    forall n :: n in m <==> exists i :: 0 <= i < |cs| && cs[i].row.name == n
  }

  /**
   * `cs[i]` scores lowest among the candidates with its name, and strictly
   * lower than every earlier one: the first of the lowest.
   */
  ghost predicate FirstMinimum(cs: seq<Scored>, i: nat)
    requires i < |cs|
  {
    forall j :: 0 <= j < |cs| && cs[j].row.name == cs[i].row.name ==>
      (j < i ==> cs[j].score > cs[i].score) && cs[j].score >= cs[i].score
  }

  /** Every kept candidate is the first of the lowest-scoring candidates with its name. */
  ghost predicate KeepsFirstMinimum(cs: seq<Scored>, m: Best)
  {
    forall n :: n in m ==> exists i :: 0 <= i < |cs| && m[n] == cs[i] && FirstMinimum(cs, i)
  }

  /**
   * The table holds exactly one entry per candidate name, and that entry is
   * the lowest-scoring candidate with the name, the earliest one on ties.
   */
  lemma {:induction false} BestIsFirstMinimum(cs: seq<Scored>)
    ensures KeysAreNames(cs, BestByName(cs))
    ensures KeepsFirstMinimum(cs, BestByName(cs))
  {
    if |cs| > 0 {
      var n := |cs| - 1;
      var pre := cs[..n];
      var c := cs[n];
      var m := BestByName(pre);
      BestIsFirstMinimum(pre);
      assert forall j :: 0 <= j < n ==> pre[j] == cs[j];
      KeysStep(cs, m);
      FirstMinimumStep(cs, m);
    }
  }

  lemma KeysStep(cs: seq<Scored>, m: Best)
    requires |cs| > 0 && KeysAreNames(cs[..|cs| - 1], m)
    ensures KeysAreNames(cs, Offer(m, cs[|cs| - 1]))
  {
    var n := |cs| - 1;
    var pre := cs[..n];
    var m' := Offer(m, cs[n]);
    forall x
      ensures x in m' <==> exists i :: 0 <= i < |cs| && cs[i].row.name == x
    {
      if x in m' && x != cs[n].row.name {
        var i :| 0 <= i < n && pre[i].row.name == x;
        assert cs[i] == pre[i];
      }
      if x in m' && x == cs[n].row.name {
        assert cs[n].row.name == x;
      }
      if exists i :: 0 <= i < |cs| && cs[i].row.name == x {
        var i :| 0 <= i < |cs| && cs[i].row.name == x;
        if i < n {
          assert pre[i] == cs[i];
        }
      }
    }
  }

  lemma FirstMinimumStep(cs: seq<Scored>, m: Best)
    requires |cs| > 0
    requires KeysAreNames(cs[..|cs| - 1], m) && KeepsFirstMinimum(cs[..|cs| - 1], m)
    requires forall n :: n in m ==> m[n].row.name == n
    ensures KeepsFirstMinimum(cs, Offer(m, cs[|cs| - 1]))
  {
    var n := |cs| - 1;
    var pre := cs[..n];
    var c := cs[n];
    var m' := Offer(m, c);
    forall x | x in m'
      ensures exists i :: 0 <= i < |cs| && m'[x] == cs[i] && FirstMinimum(cs, i)
    {
      if x == c.row.name && (x !in m || c.score < m[x].score) {
        // the new candidate is kept: every earlier one with its name scored higher
        forall j | 0 <= j < n && cs[j].row.name == x
          ensures cs[j].score > c.score
        {
          assert pre[j] == cs[j];
          assert x in m;
          var i :| 0 <= i < n && m[x] == pre[i] && FirstMinimum(pre, i);
          assert pre[j].row.name == pre[i].row.name;
        }
        assert m'[x] == cs[n] && FirstMinimum(cs, n);
      } else {
        // the kept candidate stays; the new one, if it has the same name, does not score lower
        assert x in m;
        var i :| 0 <= i < n && m[x] == pre[i] && FirstMinimum(pre, i);
        assert cs[i] == pre[i] && m'[x] == m[x];
        forall j | 0 <= j < |cs| && cs[j].row.name == cs[i].row.name
          ensures (j < i ==> cs[j].score > cs[i].score) && cs[j].score >= cs[i].score
        {
          if j < n {
            assert pre[j] == cs[j];
          } else {
            assert cs[i].row.name == x;
          }
        }
        assert FirstMinimum(cs, i);
      }
    }
  }

  /** Strictly ascending by name, so no name occurs twice. */
  predicate SortedByName(out: seq<ForecastRow>)
  {
    forall i, j :: 0 <= i < j < |out| ==> Before(out[i].name, out[j].name)
  }

  function Names(out: seq<ForecastRow>): set<string>
  {
    set y | y in out :: y.name
  }

  /** `out` lists the kept rows, one per name, ascending by name. */
  predicate ListsBest(out: seq<ForecastRow>, m: Best)
  {
    SortedByName(out) && Names(out) == m.Keys &&
    forall y :: y in out ==> y.name in m && m[y.name].row == y
  }

  /** Inserts a row with a new name at its place in a name-ordered list. */
  method InsertByName(out: seq<ForecastRow>, x: ForecastRow) returns (r: seq<ForecastRow>)
    requires SortedByName(out) && x.name !in Names(out)
    ensures SortedByName(r)
    ensures Names(r) == Names(out) + {x.name}
    ensures forall y :: y in r <==> y in out || y == x
  {
    var i := 0;
    while i < |out| && Before(out[i].name, x.name)
      invariant 0 <= i <= |out|
      invariant forall k :: 0 <= k < i ==> Before(out[k].name, x.name)
    {
      i := i + 1;
    }
    if i < |out| {
      assert out[i] in out;
      BeforeTotal(x.name, out[i].name);
      forall j | i < j < |out|
        ensures Before(x.name, out[j].name)
      {
        BeforeTransitive(x.name, out[i].name, out[j].name);
      }
    }
    r := out[..i] + [x] + out[i..];
    SplicedIsSorted(out, x, i);
    SplicedMembers(out, x, i);
  }

  /** A row placed after every smaller name and before every larger one keeps the list ordered. */
  lemma SplicedIsSorted(out: seq<ForecastRow>, x: ForecastRow, i: nat)
    requires SortedByName(out) && i <= |out|
    requires forall k :: 0 <= k < i ==> Before(out[k].name, x.name)
    requires forall k :: i <= k < |out| ==> Before(x.name, out[k].name)
    ensures SortedByName(out[..i] + [x] + out[i..])
  {
    var r := out[..i] + [x] + out[i..];
    forall a, b | 0 <= a < b < |r|
      ensures Before(r[a].name, r[b].name)
    {
      if b < i {
        assert r[a] == out[a] && r[b] == out[b];
      } else if b == i {
        assert r[a] == out[a] && r[b] == x;
      } else if a < i {
        assert r[a] == out[a] && r[b] == out[b - 1];
      } else if a == i {
        assert r[a] == x && r[b] == out[b - 1];
      } else {
        assert r[a] == out[a - 1] && r[b] == out[b - 1];
      }
    }
  }

  lemma SplicedMembers(out: seq<ForecastRow>, x: ForecastRow, i: nat)
    requires i <= |out|
    ensures forall y :: y in out[..i] + [x] + out[i..] <==> y in out || y == x
    ensures Names(out[..i] + [x] + out[i..]) == Names(out) + {x.name}
  {
    var r := out[..i] + [x] + out[i..];
    assert out == out[..i] + out[i..];
    assert forall y :: y in r <==> y in out || y == x;
    forall n
      ensures n in Names(r) <==> n in Names(out) + {x.name}
    {
      if n in Names(r) {
        var y :| y in r && y.name == n;
      }
      if n in Names(out) {
        var y :| y in out && y.name == n;
        assert y in r;
      }
      if n == x.name {
        assert x in r;
      }
    }
  }

  /**
   * `array_map` over the best-per-name table followed by `usort` on
   * `strcmp` of the names, as an insertion of each entry into a
   * name-ordered list.
   */
  method ListByName(m: Best) returns (out: seq<ForecastRow>)
    requires forall n :: n in m ==> m[n].row.name == n
    ensures ListsBest(out, m)
  {
    out := [];
    var rest := m.Keys;
    while rest != {}
      invariant rest <= m.Keys
      invariant ListedSoFar(out, m, rest)
      decreases |rest|
    {
      var n :| n in rest;
      var out' := InsertByName(out, m[n].row);
      ListStep(m, out, rest, n, out');
      out, rest := out', rest - {n};
    }
  }

  /** The entries of `m` outside `rest` are listed, by name. */
  predicate ListedSoFar(out: seq<ForecastRow>, m: Best, rest: set<string>)
  {
    SortedByName(out) && Names(out) == m.Keys - rest &&
    forall y :: y in out ==> y.name in m && m[y.name].row == y
  }

  /** Listing one more entry of `m`. */
  lemma ListStep(m: Best, out: seq<ForecastRow>, rest: set<string>, n: string, out': seq<ForecastRow>)
    requires n in rest && rest <= m.Keys && m[n].row.name == n
    requires ListedSoFar(out, m, rest)
    requires SortedByName(out') && Names(out') == Names(out) + {n}
    requires forall y :: y in out' <==> y in out || y == m[n].row
    ensures ListedSoFar(out', m, rest - {n})
  {
    assert (m.Keys - rest) + {n} == m.Keys - (rest - {n});
  }

  /** A forecast list: the best candidate per name over the spots, listed by name. */
  ghost predicate ForecastListSpec(out: seq<ForecastRow>, spots: seq<Row>, coordsFound: nat, ref: int, last: int,
                                   tide: Row -> PrefMatch, forecast: (Row, int) -> Forecast)
  {
    if coordsFound < 2 then out == []
    else ListsBest(out, BestByName(Picked(spots, CandidatePick(tide, ref, last, forecast))))
  }

  /** The gates of one spot in the loop of a forecast list, each a `continue` there. */
  method ConsiderSpot(spot: Row, tp: PrefMatch, ref: int, last: int, forecast: (Row, int) -> Forecast)
    returns (c: Option<Scored>)
    ensures c == CandidateFor(spot, tp, ref, last, forecast)
  {
    var delta := tp.delta;
    if delta.None? || delta.value < 0 || delta.value > last {
      return None;
    }
    var target := MinuteFloor(ref) + 60 * delta.value;
    var w := ForecastForSpot(spot, IntToString(target), forecast(spot, target));
    if w.Fail? {
      return None;
    }
    var code := TideCode(tp);
    if !AllowPhase(spot, code) {
      return None;
    }
    var score := Score(spot, w);
    var row := ForecastRow(NameOf(spot), w.hs, w.per, w.dir, CellOf(w.hs, w.per, w.dir),
                           code.value, code, OrElse(tp.nextPrefT, tp.markerT), tp.delta);
    return Some(Scored(row, score));
  }

  /**
   * The loop shared by both forecast lists: `ref` is the reference instant
   * the tide match was taken at and `last` the largest delta in the window.
   */
  method SelectForecast(spots: seq<Row>, coordsFound: nat, ref: int, last: int,
                        tide: Row -> PrefMatch, forecast: (Row, int) -> Forecast)
    returns (out: seq<ForecastRow>)
    ensures ForecastListSpec(out, spots, coordsFound, ref, last, tide, forecast)
  {
    if |spots| == 0 || coordsFound < 2 {
      return [];
    }
    var best: Best := map[];
    ghost var pick := CandidatePick(tide, ref, last, forecast);
    for i := 0 to |spots|
      invariant best == BestByName(Picked(spots[..i], pick))
    {
      var spot := spots[i];
      PickedStep(spots, i, pick);
      var c := ConsiderSpot(spot, tide(spot), ref, last, forecast);
      assert pick(spot) == c;
      if c.None? {
        continue;
      }
      ghost var cs := Picked(spots[..i], pick) + [c.value];
      assert cs[..|cs| - 1] == Picked(spots[..i], pick);
      assert BestByName(cs) == Offer(best, c.value);
      var name := c.value.row.name;
      if name !in best || c.value.score < best[name].score {
        best := best[name := c.value];
      }
    }
    assert spots[..|spots|] == spots;
    out := ListByName(best);
  }

  /**
   * `selectForecastLaterToday`: the window runs from now to the end of the
   * local day (`endOfDay`, 23:59:59 local time as an instant); `tide` is the
   * tide match at the current minute.
   */
  method SelectForecastLaterToday(spots: seq<Row>, coordsFound: nat, now: int, endOfDay: int,
                                  tide: Row -> PrefMatch, forecast: (Row, int) -> Forecast)
    returns (out: seq<ForecastRow>)
    ensures ForecastListSpec(out, spots, coordsFound, now, MinutesLeft(now, endOfDay), tide, forecast)
  {
    out := SelectForecast(spots, coordsFound, now, MinutesLeft(now, endOfDay), tide, forecast);
  }

  /**
   * `selectForecastTomorrow`: the window is the 1440 minutes from the start
   * of tomorrow (`pivot`, local midnight as an instant); `tide` is the tide
   * match at that instant.
   */
  method SelectForecastTomorrow(spots: seq<Row>, coordsFound: nat, pivot: int,
                                tide: Row -> PrefMatch, forecast: (Row, int) -> Forecast)
    returns (out: seq<ForecastRow>)
    ensures ForecastListSpec(out, spots, coordsFound, pivot, LastMinuteOfDay, tide, forecast)
  {
    out := SelectForecast(spots, coordsFound, pivot, LastMinuteOfDay, tide, forecast);
  }

  /** Every listed row is a first minimum among the candidates, and every candidate name is listed. */
  ghost predicate ListsFirstMinima(out: seq<ForecastRow>, cs: seq<Scored>)
  {
    (forall y :: y in out ==> exists i :: 0 <= i < |cs| && cs[i].row == y && FirstMinimum(cs, i)) &&
    (forall i :: 0 <= i < |cs| ==> cs[i].row.name in Names(out))
  }

  /**
   * What a forecast list promises: every listed row comes from a spot that
   * passed all gates and is the first of the lowest-scoring such spots with
   * its name; every name of such a spot is listed once; the list ascends by
   * name.
   */
  lemma ForecastListIsBestPerName(out: seq<ForecastRow>, spots: seq<Row>, coordsFound: nat, ref: int, last: int,
                                  tide: Row -> PrefMatch, forecast: (Row, int) -> Forecast)
    requires coordsFound >= 2
    requires ForecastListSpec(out, spots, coordsFound, ref, last, tide, forecast)
    ensures SortedByName(out)
    ensures ListsFirstMinima(out, Picked(spots, CandidatePick(tide, ref, last, forecast)))
  {
    var cs := Picked(spots, CandidatePick(tide, ref, last, forecast));
    var m := BestByName(cs);
    BestIsFirstMinimum(cs);
    forall y | y in out
      ensures exists i :: 0 <= i < |cs| && cs[i].row == y && FirstMinimum(cs, i)
    {
      assert y.name in m && m[y.name].row == y;
      var i :| 0 <= i < |cs| && m[y.name] == cs[i] && FirstMinimum(cs, i);
      assert cs[i].row == y;
    }
    forall i | 0 <= i < |cs|
      ensures cs[i].row.name in Names(out)
    {
      assert cs[i].row.name in m;
    }
    assert ListsFirstMinima(out, cs);
  }
}
