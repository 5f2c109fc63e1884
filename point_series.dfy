/**
 * `process_point_series` of `Forecast/src/main.py`: the nearest-point wave
 * series of one station, assembled from the downloaded GRIB files.
 *
 * Decoding a GRIB file is outside the model: a file arrives as its least
 * longitude, its time coordinates and, for a (lat, lon) target, the
 * variables at the nearest grid point. Timestamps are whole seconds since
 * the epoch and a float that is NaN is `None`.
 */
module PointSeries {
  import opened Common

  /** A float of the data arrays; `None` stands for NaN. */
  type Num = Option<real>

  /** A variable at the selected grid point: zero-dimensional, or flattened by `reshape(-1)`. */
  datatype Arr = Scalar(x: Num) | Vector(xs: seq<Num>)

  /** The time coordinates a dataset carries; an absent one is `None`. */
  datatype TimeCoords = TimeCoords(validTime: Option<seq<int>>, time: Option<seq<int>>, step: Option<seq<int>>)

  /** An opened GRIB file: its least longitude, its times, and the nearest-point variables. */
  datatype GribFile = GribFile(minLon: real, times: TimeCoords, at: (real, real) -> map<string, Arr>)

  /** The per-file table: the timestamps and the columns whose variable was found. */
  datatype Frame = Frame(t: seq<int>, hs: Option<seq<Num>>, per: Option<seq<Num>>, dir: Option<seq<Num>>)

  /** One row of the concatenated table; a column a frame lacks reads as NaN. */
  datatype Rec = Rec(t: int, hs: Num, per: Num, dir: Num)

  /** Which columns the concatenated table has. */
  datatype Columns = Columns(hs: bool, per: bool, dir: bool)

  const HsNames: seq<string> := ["swh", "hs", "htsgws"]
  const PerNames: seq<string> := ["perpw", "mp2", "per", "mwp"]
  const DirNames: seq<string> := ["dirpw", "mwd", "dir"]

  const NoPathsMessage: string := "No GRIB paths provided to process_point_series()."
  const LengthMismatchMessage: string := "All arrays must be of the same length"
  const BroadcastMessage: string := "operands could not be broadcast together"

  function NoRecordsMessage(stationId: string): string
  {
    "Parsed 0 usable records for station " + stationId + " (no expected vars found)."
  }

  // ---------------------------------------------------------------------
  // Longitude convention
  // ---------------------------------------------------------------------

  /** A real with no fractional part. */
  predicate IsWhole(v: real)
  {
    v == v.Floor as real
  }

  /** Python's float `x % m` for a positive `m`: the remainder takes the sign of `m`. */
  function FloorMod(x: real, m: real): (r: real)
    requires m > 0.0
    ensures 0.0 <= r < m
    ensures IsWhole((x - r) / m)
  {
    var k := (x / m).Floor;
    FloorModBounds(x, m);
    var r := x - m * k as real;
    assert x - r == m * k as real;
    MulThenDiv(m, k as real);
    assert (x - r) / m == k as real;
    assert (k as real).Floor == k;
    r
  }

  lemma MulThenDiv(m: real, c: real)
    requires m != 0.0
    ensures (m * c) / m == c
  {
  }

  lemma FloorModBounds(x: real, m: real)
    requires m > 0.0
    ensures 0.0 <= x - m * (x / m).Floor as real < m
  {
    var t := x / m;
    var f := t.Floor as real;
    assert f <= t < f + 1.0;
    assert t * m == x;
    MulMono(f, t, m);
    MulStrict(t, f + 1.0, m);
    assert (f + 1.0) * m == f * m + m;
    assert m * f == f * m;
    assert x < m * f + m;
    assert (x / m).Floor as real == f;
  }

  /**
   * The longitude the station is looked up at: shifted into [0, 360) when
   * the grid uses that convention and the station longitude is negative;
   * the shift is a whole number of turns.
   */
  function LonTarget(lon: real, lon0360: bool): (r: real)
    ensures lon0360 && lon < 0.0 ==> 0.0 <= r < 360.0 && IsWhole((r - lon) / 360.0)
    ensures !(lon0360 && lon < 0.0) ==> r == lon
  {
    if lon0360 && lon < 0.0 then
      var r := FloorMod(lon + 360.0, 360.0);
      var k := (lon + 360.0 - r) / 360.0;
      assert (r - lon) / 360.0 == 1.0 - k;
      assert (1.0 - k).Floor == 1 - k.Floor;
      r
    else lon
  }

  /** A western station on a 0..360 grid within one turn is shifted by exactly 360. */
  lemma LonTargetOneTurn(lon: real)
    requires -360.0 <= lon < 0.0
    ensures LonTarget(lon, true) == lon + 360.0
  {
    var r := LonTarget(lon, true);
    var k := (r - lon) / 360.0;
    assert 0.0 < r - lon < 720.0;
    DivMono(0.0, r - lon, 360.0);
    DivMono(r - lon, 720.0, 360.0);
    assert 0.0 <= k <= 2.0;
    assert k != 0.0 && k != 2.0;
    assert k.Floor == 1;
    assert r - lon == k * 360.0;
  }

  // ---------------------------------------------------------------------
  // Time coordinate
  // ---------------------------------------------------------------------

  /** pandas addition of the run times and the lead times: equal lengths pair up, a length-1 side is repeated. */
  function AddBroadcast(a: seq<int>, b: seq<int>): (r: Result<seq<int>>)
    ensures r.Ok? <==> |a| == |b| || |a| == 1 || |b| == 1
    ensures r.Ok? ==> |r.value| == (if |a| == 1 then |b| else |a|)
    ensures r.Ok? ==> forall i :: 0 <= i < |r.value| ==>
      r.value[i] == (if |a| == 1 then a[0] else a[i]) + (if |b| == 1 then b[0] else b[i])
  {
    if |a| == |b| then Ok(seq(|a|, i requires 0 <= i < |a| => a[i] + b[i]))
    else if |a| == 1 then Ok(seq(|b|, i requires 0 <= i < |b| => a[0] + b[i]))
    else if |b| == 1 then Ok(seq(|a|, i requires 0 <= i < |a| => a[i] + b[0]))
    else Err(BroadcastMessage)
  }

  /**
   * The timestamps of a file: `valid_time`, else `time + step`, else `time`,
   * else the run's own date and cycle.
   */
  function TimeValues(tc: TimeCoords, runTime: int): (r: Result<seq<int>>)
    ensures tc.validTime.Some? ==> r == Ok(tc.validTime.value)
    ensures tc.validTime.None? && tc.time.Some? && tc.step.None? ==> r == Ok(tc.time.value)
    ensures tc.validTime.None? && tc.time.None? ==> r == Ok([runTime])
    ensures r.Err? ==> tc.validTime.None? && tc.time.Some? && tc.step.Some?
  {
    if tc.validTime.Some? then Ok(tc.validTime.value)
    else if tc.time.Some? && tc.step.Some? then AddBroadcast(tc.time.value, tc.step.value)
    else if tc.time.Some? then Ok(tc.time.value)
    else Ok([runTime])
  }

  // ---------------------------------------------------------------------
  // Variables
  // ---------------------------------------------------------------------

  /** `pick_var`: the first of `keys` the point has, in priority order. */
  function PickVar(vars: map<string, Arr>, keys: seq<string>): (r: Option<string>)
    ensures r.None? <==> forall k :: 0 <= k < |keys| ==> keys[k] !in vars
    ensures r.Some? ==> exists k :: 0 <= k < |keys| && keys[k] == r.value && r.value in vars &&
                                    forall j :: 0 <= j < k ==> keys[j] !in vars
  {
    if |keys| == 0 then None
    else if keys[0] in vars then Some(keys[0])
    else
      var r := PickVar(vars, keys[1..]);
      assert forall k :: 0 < k < |keys| ==> keys[k] == keys[1..][k - 1];
      if r.Some? then
        var k :| 0 <= k < |keys[1..]| && keys[1..][k] == r.value && r.value in vars &&
                 forall j :: 0 <= j < k ==> keys[1..][j] !in vars;
        assert keys[k + 1] == r.value;
        r
      else r
  }

  /**
   * `_vals` together with the table's length check: a scalar or a
   * one-element array is repeated to `n` values, a longer array is cut to
   * its first `n`; a shorter one makes the table constructor fail.
   */
  function Vals(a: Arr, n: nat): (r: Result<seq<Num>>)
    ensures r.Ok? <==> a.Scalar? || |a.xs| == 1 || |a.xs| >= n
    ensures r.Ok? ==> |r.value| == n
    ensures r.Ok? ==> forall i :: 0 <= i < n ==>
      r.value[i] == (if a.Scalar? then a.x else if |a.xs| == 1 then a.xs[0] else a.xs[i])
  {
    match a
    case Scalar(x) => Ok(seq(n, _ => x))
    case Vector(xs) =>
      if |xs| == 1 && n > 1 then Ok(seq(n, _ => xs[0]))
      else
        var cut := xs[..Min(n, |xs|)];
        if |cut| == n then Ok(cut) else Err(LengthMismatchMessage)
  }

  /** The column of a picked variable, `Ok(None)` when none was picked. */
  function Column(vars: map<string, Arr>, k: Option<string>, n: nat): (r: Result<Option<seq<Num>>>)
    requires k.Some? ==> k.value in vars
    ensures r.Ok? && r.value.Some? ==> |r.value.value| == n
    ensures r.Ok? ==> (r.value.Some? <==> k.Some?)
  {
    if k.None? then Ok(None)
    else
      var v := Vals(vars[k.value], n);
      if v.Err? then Err(v.msg) else Ok(Some(v.value))
  }

  predicate WellFormed(f: Frame)
  {
    (f.hs.Some? ==> |f.hs.value| == |f.t|) &&
    (f.per.Some? ==> |f.per.value| == |f.t|) &&
    (f.dir.Some? ==> |f.dir.value| == |f.t|)
  }

  /**
   * The frame one file contributes: an error from its time coordinate or
   * from a value array, no frame when none of the three quantities is
   * present, otherwise the timestamps and the found columns.
   */
  function FileFrame(f: GribFile, lat: real, lonT: real, runTime: int): (r: Result<Option<Frame>>)
    ensures r.Ok? && r.value.Some? ==> WellFormed(r.value.value)
    ensures r.Ok? && r.value.None? <==>
      TimeValues(f.times, runTime).Ok? &&
      PickVar(f.at(lat, lonT), HsNames).None? && PickVar(f.at(lat, lonT), PerNames).None? &&
      PickVar(f.at(lat, lonT), DirNames).None?
  {
    var tv := TimeValues(f.times, runTime);
    if tv.Err? then Err(tv.msg)
    else
      var pt := f.at(lat, lonT);
      var hk := PickVar(pt, HsNames);
      var pk := PickVar(pt, PerNames);
      var dk := PickVar(pt, DirNames);
      if hk.None? && pk.None? && dk.None? then Ok(None)
      else
        var n := |tv.value|;
        var hs := Column(pt, hk, n);
        var per := Column(pt, pk, n);
        var dir := Column(pt, dk, n);
        if hs.Err? then Err(hs.msg)
        else if per.Err? then Err(per.msg)
        else if dir.Err? then Err(dir.msg)
        else Ok(Some(Frame(tv.value, hs.value, per.value, dir.value)))
  }

  /** The frames of `files`, in file order; the first failing file stops the run. */
  function FramesOf(files: seq<GribFile>, lat: real, lonT: real, runTime: int): (r: Result<seq<Frame>>)
    ensures r.Ok? ==> forall k :: 0 <= k < |r.value| ==> WellFormed(r.value[k])
  {
    if |files| == 0 then Ok([])
    else
      var p := FramesOf(files[..|files| - 1], lat, lonT, runTime);
      if p.Err? then p
      else
        var fr := FileFrame(files[|files| - 1], lat, lonT, runTime);
        if fr.Err? then Err(fr.msg)
        else if fr.value.None? then p
        else Ok(p.value + [fr.value.value])
  }

  // ---------------------------------------------------------------------
  // Concatenation, sort and de-duplication, sanity limits
  // ---------------------------------------------------------------------

  function Cell(c: Option<seq<Num>>, i: nat): Num
  {
    if c.Some? && i < |c.value| then c.value[i] else None
  }

  function FrameRows(f: Frame): (r: seq<Rec>)
    ensures |r| == |f.t|
  {
    seq(|f.t|, i requires 0 <= i < |f.t| => Rec(f.t[i], Cell(f.hs, i), Cell(f.per, i), Cell(f.dir, i)))
  }

  /** `pd.concat(rows, ignore_index=True)`. */
  function Concat(frames: seq<Frame>): seq<Rec>
  {
    if |frames| == 0 then [] else Concat(frames[..|frames| - 1]) + FrameRows(frames[|frames| - 1])
  }

  function ColumnsOf(frames: seq<Frame>): (r: Columns)
    ensures r.hs <==> exists k :: 0 <= k < |frames| && frames[k].hs.Some?
    ensures r.per <==> exists k :: 0 <= k < |frames| && frames[k].per.Some?
    ensures r.dir <==> exists k :: 0 <= k < |frames| && frames[k].dir.Some?
  {
    Columns(exists k :: 0 <= k < |frames| && frames[k].hs.Some?,
            exists k :: 0 <= k < |frames| && frames[k].per.Some?,
            exists k :: 0 <= k < |frames| && frames[k].dir.Some?)
  }

  predicate Ascending(s: seq<Rec>)
  {
    forall i, j :: 0 <= i < j < |s| ==> s[i].t < s[j].t
  }

  /** Places `x` in the time-ordered `s`, replacing the row with the same time. */
  function Upsert(s: seq<Rec>, x: Rec): seq<Rec>
  {
    if |s| == 0 then [x]
    else if x.t < s[0].t then [x] + s
    else if x.t == s[0].t then [x] + s[1..]
    else [s[0]] + Upsert(s[1..], x)
  }

  lemma {:induction false} UpsertSpec(s: seq<Rec>, x: Rec)
    requires Ascending(s)
    ensures Ascending(Upsert(s, x))
    ensures forall r :: r in Upsert(s, x) <==> r == x || (r in s && r.t != x.t)
  {
    if |s| > 0 && x.t > s[0].t {
      UpsertSpec(s[1..], x);
      var u := Upsert(s[1..], x);
      assert forall r :: r in s <==> r == s[0] || r in s[1..] by {
        assert s == [s[0]] + s[1..];
      }
      forall j | 0 <= j < |u| ensures s[0].t < u[j].t {
        assert u[j] in u;
      }
    }
  }

  /**
   * `sort_values("t_utc").drop_duplicates(subset=["t_utc"], keep="last")`
   * under a stable sort: the rows folded one by one into the time-ordered
   * result, a later row replacing an earlier one with the same time.
   */
  function Consolidate(rows: seq<Rec>): seq<Rec>
  {
    if |rows| == 0 then [] else Upsert(Consolidate(rows[..|rows| - 1]), rows[|rows| - 1])
  }

  /** Row `i` of `rows` has no later row with the same time. */
  predicate LastOfItsTime(rows: seq<Rec>, i: int)
    requires 0 <= i < |rows|
  {
    forall j :: i < j < |rows| ==> rows[j].t != rows[i].t
  }

  /** `r` is a row of `rows` that no later row shares a time with. */
  ghost predicate KeptAsLast(rows: seq<Rec>, r: Rec)
  {
    exists i :: 0 <= i < |rows| && rows[i] == r && LastOfItsTime(rows, i)
  }

  /** One more row: it is kept, and an earlier kept row stays kept unless it has that row's time. */
  lemma KeptAsLastStep(rows: seq<Rec>, r: Rec)
    requires |rows| > 0
    ensures var n := |rows|;
      KeptAsLast(rows, r) <==> r == rows[n - 1] || (KeptAsLast(rows[..n - 1], r) && r.t != rows[n - 1].t)
  {
    var n := |rows|;
    var p := rows[..n - 1];
    var x := rows[n - 1];
    if KeptAsLast(rows, r) && r != x {
      var i :| 0 <= i < n && rows[i] == r && LastOfItsTime(rows, i);
      assert i < n - 1;
      assert p[i] == r && LastOfItsTime(p, i);
    }
    if r == x {
      assert rows[n - 1] == r && LastOfItsTime(rows, n - 1);
    } else if KeptAsLast(p, r) && r.t != x.t {
      var i :| 0 <= i < |p| && p[i] == r && LastOfItsTime(p, i);
      assert rows[i] == r && LastOfItsTime(rows, i);
    }
  }

  /**
   * The consolidated rows are in strictly ascending time, and they are
   * exactly the rows that no later row shares a time with.
   */
  lemma {:induction false} ConsolidateSpec(rows: seq<Rec>)
    ensures Ascending(Consolidate(rows))
    ensures forall r :: r in Consolidate(rows) <==> KeptAsLast(rows, r)
    decreases |rows|
  {
    if |rows| > 0 {
      var n := |rows|;
      var p := rows[..n - 1];
      var x := rows[n - 1];
      ConsolidateSpec(p);
      UpsertSpec(Consolidate(p), x);
      forall r ensures r in Consolidate(rows) <==> KeptAsLast(rows, r) {
        KeptAsLastStep(rows, r);
      }
    }
  }

  /** Every time of the input keeps exactly one row, so no time is lost. */
  lemma {:induction false} ConsolidateKeepsTimes(rows: seq<Rec>, i: int)
    requires 0 <= i < |rows|
    ensures exists r :: r in Consolidate(rows) && r.t == rows[i].t
    decreases |rows| - i
  {
    ConsolidateSpec(rows);
    if LastOfItsTime(rows, i) {
      assert KeptAsLast(rows, rows[i]);
    } else {
      var j :| i < j < |rows| && rows[j].t == rows[i].t;
      ConsolidateKeepsTimes(rows, j);
    }
  }

  predicate Between(v: Num, lo: real, hi: real)
  {
    v.Some? && lo <= v.value <= hi
  }

  /** The sanity limits: each column the table has must hold a value in its range. */
  predicate WithinLimits(r: Rec, cols: Columns)
  {
    (cols.hs ==> Between(r.hs, 0.0, 20.0)) &&
    (cols.per ==> Between(r.per, 0.0, 30.0)) &&
    (cols.dir ==> Between(r.dir, 0.0, 360.0))
  }

  /** The rows within the limits, in order; the others are dropped whole. */
  function Limit(rows: seq<Rec>, cols: Columns): (r: seq<Rec>)
    ensures forall x :: x in r <==> x in rows && WithinLimits(x, cols)
    ensures Ascending(rows) ==> Ascending(r)
  {
    if |rows| == 0 then []
    else
      var rest := Limit(rows[1..], cols);
      assert forall x :: x in rows <==> x == rows[0] || x in rows[1..] by {
        assert rows == [rows[0]] + rows[1..];
      }
      if WithinLimits(rows[0], cols) then
        assert Ascending(rows) ==> forall j :: 0 <= j < |rest| ==> rows[0].t < rest[j].t by {
          if Ascending(rows) {
            forall j | 0 <= j < |rest| ensures rows[0].t < rest[j].t {
              assert rest[j] in rows[1..];
            }
          }
        }
        [rows[0]] + rest
      else rest
  }

  /** The station's series once the frames are known. */
  function SeriesOfFrames(frames: seq<Frame>): seq<Rec>
  {
    Limit(Consolidate(Concat(frames)), ColumnsOf(frames))
  }

  /**
   * What `process_point_series` computes: an error for no paths, for a
   * failing file and for no usable frame, otherwise the consolidated rows
   * within the limits. The longitude convention comes from the first file.
   */
  function SeriesOf(files: seq<GribFile>, stationId: string, lat: real, lon: real, runTime: int): Result<seq<Rec>>
  {
    if |files| == 0 then Err(NoPathsMessage)
    else
      var lonT := LonTarget(lon, files[0].minLon >= 0.0);
      var frames := FramesOf(files, lat, lonT, runTime);
      if frames.Err? then Err(frames.msg)
      else if |frames.value| == 0 then Err(NoRecordsMessage(stationId))
      else Ok(SeriesOfFrames(frames.value))
  }

  /**
   * The final series has unique, ascending timestamps; each row is the last
   * row of its time and lies within the limits, and every such row is kept.
   */
  lemma SeriesShape(frames: seq<Frame>)
    ensures var s := SeriesOfFrames(frames);
      var all := Concat(frames);
      var cols := ColumnsOf(frames);
      Ascending(s) &&
      (forall r :: r in s ==> WithinLimits(r, cols)) &&
      (forall r :: r in s <==> WithinLimits(r, cols) && KeptAsLast(all, r))
  {
    ConsolidateSpec(Concat(frames));
  }

  // ---------------------------------------------------------------------
  // The loop over files
  // ---------------------------------------------------------------------

  /**
   * `process_point_series` for one station: opens each file in turn, fixes
   * the longitude convention at the first, and appends the frame of every
   * file that has one of the three quantities.
   */
  method ProcessPointSeries(files: seq<GribFile>, stationId: string, lat: real, lon: real, runTime: int)
    returns (r: Result<seq<Rec>>)
    ensures r == SeriesOf(files, stationId, lat, lon, runTime)
  {
    if |files| == 0 {
      return Err(NoPathsMessage);
    }
    var frames: seq<Frame> := [];
    var lon0360: Option<bool> := None;
    var i := 0;
    while i < |files|
      invariant 0 <= i <= |files|
      invariant i == 0 <==> lon0360.None?
      invariant i > 0 ==> lon0360 == Some(files[0].minLon >= 0.0)
      invariant FramesOf(files[..i], lat, LonTarget(lon, files[0].minLon >= 0.0), runTime) == Ok(frames)
    {
      var f := files[i];
      if lon0360.None? {
        lon0360 := Some(f.minLon >= 0.0);
      }
      var lonT := LonTarget(lon, lon0360.value);
      var fr := FileFrame(f, lat, lonT, runTime);
      if fr.Err? {
        assert FramesOf(files, lat, lonT, runTime) == Err(fr.msg) by {
          FramesStep(files, i, lat, lonT, runTime, frames);
          FramesErrPersists(files, lat, lonT, runTime, i + 1);
        }
        return Err(fr.msg);
      }
      FramesStep(files, i, lat, lonT, runTime, frames);
      if fr.value.Some? {
        frames := frames + [fr.value.value];
      }
      i := i + 1;
    }
    assert files[..|files|] == files;
    if |frames| == 0 {
      return Err(NoRecordsMessage(stationId));
    }
    var all := Concat(frames);
    r := Ok(Limit(Consolidate(all), ColumnsOf(frames)));
  }

  /** One more file: its error ends the run, its frame (if any) is appended. */
  lemma FramesStep(files: seq<GribFile>, i: nat, lat: real, lonT: real, runTime: int, frames: seq<Frame>)
    requires i < |files| && FramesOf(files[..i], lat, lonT, runTime) == Ok(frames)
    ensures var fr := FileFrame(files[i], lat, lonT, runTime);
      FramesOf(files[..i + 1], lat, lonT, runTime) ==
        if fr.Err? then Err(fr.msg)
        else if fr.value.None? then Ok(frames)
        else Ok(frames + [fr.value.value])
  {
    assert files[..i + 1][..i] == files[..i];
  }

  /** Once a prefix of the files fails, the whole run fails with the same message. */
  lemma {:induction false} FramesErrPersists(files: seq<GribFile>, lat: real, lonT: real, runTime: int, i: nat)
    requires i <= |files|
    requires FramesOf(files[..i], lat, lonT, runTime).Err?
    ensures FramesOf(files, lat, lonT, runTime) == FramesOf(files[..i], lat, lonT, runTime)
    decreases |files| - i
  {
    if i < |files| {
      assert files[..i + 1][..i] == files[..i];
      FramesErrPersists(files, lat, lonT, runTime, i + 1);
    } else {
      assert files[..i] == files;
    }
  }
}
