/**
 * `API\NWSGridpointWindRequest`: turns the `windSpeed` and `windDirection`
 * series of an NWS gridpoint forecast into hourly rows. Every value covers
 * an ISO-8601 interval (`start/period`); each interval is spread over the
 * hourly steps from its start that begin before its end (a partial last
 * hour is not included), later intervals overwrite earlier ones, and the
 * two series are joined on the sorted union of their hours, with the speed
 * converted to knots and metres per second and the direction folded into
 * whole degrees in [0, 359].
 *
 * Instants are seconds (UTC); an hour bucket is the instant of the start of
 * its hour, which orders like the `'Y-m-d H:00:00'` text the source keys
 * on. Reading an interval is the oracle `parse` (start and end instants, or
 * the message of what the date classes threw); the HTTP fetch is not
 * modelled and the decoded `properties` are given as typed series.
 */
module NwsGridpointWindRequest {
  import opened Common
  import opened Php

  /** One entry of `values`: its `validTime` text and its `value`, if set. */
  datatype GridValue = GridValue(validTime: string, value: Option<PVal>)

  /** A series: its `uom`, if set, and its values. */
  datatype GridSeries = GridSeries(uom: Option<string>, values: seq<GridValue>)

  /** One output row: hour bucket, whole-degree direction, speed in m/s and in knots. */
  datatype WindRow = WindRow(ts: int, wdir: Option<int>, wspdMs: Option<real>, wspdKt: Option<real>)

  // ---------------------------------------------------------------------
  // url
  // ---------------------------------------------------------------------

  const GridpointsBase: string := "https://api.weather.gov/gridpoints/"

  /** `url`: the gridpoint endpoint of an office and grid cell. */
  function Url(office: string, x: int, y: int): (r: string)
    ensures StartsWith(r, GridpointsBase)
  {
    GridpointsBase + office + "/" + IntToString(x) + "," + IntToString(y)
  }

  /** Reads an office and grid cell back out of a gridpoint URL. */
  function ParseUrl(u: string): Option<(string, int, int)>
  {
    if !StartsWith(u, GridpointsBase) then None
    else
      var parts := SplitOn(u[|GridpointsBase|..], '/');
      if |parts| != 2 then None
      else
        var xy := SplitOn(parts[1], ',');
        if |xy| != 2 then None
        else
          match (ParseInt(xy[0]), ParseInt(xy[1]))
          case (Some(x), Some(y)) => Some((parts[0], x, y))
          case _ => None
  }

  /** An integer's text holds only digits and a minus sign. */
  lemma IntToStringHasNo(i: int, c: char)
    requires !IsDigit(c) && c != '-'
    ensures !HasChar(IntToString(i), c)
  {
    if i < 0 {
      DigitsHaveNo(NatToString(-i), c);
      HasCharConcat("-", NatToString(-i), c);
    } else {
      DigitsHaveNo(NatToString(i), c);
    }
  }

  /** The grid-cell part `x,y` splits back into its two numbers' texts and holds no slash. */
  lemma CellSplits(x: int, y: int)
    ensures var cell := IntToString(x) + "," + IntToString(y);
      SplitOn(cell, ',') == [IntToString(x), IntToString(y)] && !HasChar(cell, '/')
  {
    var xs := IntToString(x);
    var ys := IntToString(y);
    IntToStringHasNo(x, '/');
    IntToStringHasNo(y, '/');
    IntToStringHasNo(x, ',');
    IntToStringHasNo(y, ',');
    assert [xs, ys][1..] == [ys];
    assert Join([ys], ',') == ys;
    assert Join([xs, ys], ',') == xs + "," + ys;
    JoinSplitOn([xs, ys], ',');
    HasCharConcat(xs, ",", '/');
    HasCharConcat(xs + ",", ys, '/');
  }

  /** The part after the base splits at its one slash into the office and the cell. */
  lemma PathSplits(office: string, cell: string)
    requires !HasChar(office, '/') && !HasChar(cell, '/')
    ensures SplitOn(office + "/" + cell, '/') == [office, cell]
  {
    assert [office, cell][1..] == [cell];
    assert Join([cell], '/') == cell;
    assert Join([office, cell], '/') == office + "/" + cell;
    JoinSplitOn([office, cell], '/');
  }

  /** Any office without a slash and any grid cell can be read back from its URL. */
  lemma UrlRoundTrip(office: string, x: int, y: int)
    requires !HasChar(office, '/')
    ensures ParseUrl(Url(office, x, y)) == Some((office, x, y))
  {
    var xs, ys := IntToString(x), IntToString(y);
    var cell := xs + "," + ys;
    var u := Url(office, x, y);
    assert u[|GridpointsBase|..] == office + "/" + cell by {
      assert u == GridpointsBase + (office + "/" + cell);
    }
    assert SplitOn(u[|GridpointsBase|..], '/') == [office, cell] by {
      CellSplits(x, y);
      PathSplits(office, cell);
    }
    assert SplitOn(cell, ',') == [xs, ys] by {
      CellSplits(x, y);
    }
    IntStringRoundTrip(x);
    IntStringRoundTrip(y);
  }

  // ---------------------------------------------------------------------
  // expandHourly
  // ---------------------------------------------------------------------

  const Hour: int := 3600

  /** The start of the hour holding instant `t`. */
  function HourOf(t: int): (h: int)
    ensures h <= t < h + Hour && h % Hour == 0
  {
    t - t % Hour
  }

  /** Moving a whole number of hours moves the bucket by as much. */
  lemma HourOfShift(t: int, i: int)
    ensures HourOf(t + Hour * i) == HourOf(t) + Hour * i
  {
    assert (t + Hour * i) % Hour == t % Hour;
  }

  /** The number of steps of one hour from `t` that stay before `end`. */
  function StepCount(t: int, end: int): (n: nat)
    ensures end <= t ==> n == 0
    ensures end > t ==> t + Hour * (n - 1) < end <= t + Hour * n
    decreases end - t
  {
    if end <= t then 0 else 1 + StepCount(t + Hour, end)
  }

  /**
   * The buckets `expandHourly` lists for an interval from `start` to `end`:
   * one per hourly step that starts before `end`, and the start hour alone
   * when there is no such step.
   */
  function HourBuckets(start: int, end: int): (r: seq<int>)
    ensures |r| >= 1 && r[0] == HourOf(start)
    ensures forall i :: 0 <= i < |r| ==> r[i] == HourOf(start) + Hour * i
    ensures end > start ==> start + Hour * (|r| - 1) < end <= start + Hour * |r|
    ensures end <= start ==> |r| == 1
  {
    var n := StepCount(start, end);
    if n == 0 then [HourOf(start)]
    else
      var r := seq(n, i requires 0 <= i < n => HourOf(start + Hour * i));
      forall i | 0 <= i < n ensures r[i] == HourOf(start) + Hour * i {
        HourOfShift(start, i);
      }
      r
  }

  /** The buckets of an interval are distinct, consecutive hours. */
  lemma HourBucketsConsecutive(start: int, end: int)
    ensures var r := HourBuckets(start, end);
      forall i :: 0 < i < |r| ==> r[i] == r[i - 1] + Hour
  {
  }

  /** `expandHourly`: the hourly loop from the start until the end, then the start hour if the loop listed nothing. */
  method ExpandHourly(start: int, end: int) returns (ts: seq<int>)
    ensures ts == HourBuckets(start, end)
  {
    ts := [];
    var t := start;
    while t < end
      invariant t == start + Hour * |ts|
      invariant |ts| + StepCount(t, end) == StepCount(start, end)
      invariant forall i :: 0 <= i < |ts| ==> ts[i] == HourOf(start + Hour * i)
      decreases end - t
    {
      ts := ts + [HourOf(t)];
      t := t + Hour;
    }
    if |ts| == 0 {
      ts := [HourOf(start)];
    }
  }

  // ---------------------------------------------------------------------
  // speedToKtMs
  // ---------------------------------------------------------------------

  /**
   * `speedToKtMs`: `[kt, ms]`, each rounded to 2 places. A unit holding
   * `km_h` is km/h, else one holding `kn` is knots, else m/s.
   */
  function SpeedToKtMs(v: Option<real>, uom: string): (r: (Option<real>, Option<real>))
    ensures r.0.Some? <==> v.Some?
    ensures r.1.Some? <==> v.Some?
  {
    match v
    case None => (None, None)
    case Some(x) =>
      var u := Lower(uom);
      if Contains(u, "km_h") then (Some(RoundTo(x * 0.5399568, 2)), Some(RoundTo(x / 3.6, 2)))
      else if Contains(u, "kn") then (Some(RoundTo(x, 2)), Some(RoundTo(x * 0.514444, 2)))
      else (Some(RoundTo(x / 0.514444, 2)), Some(RoundTo(x, 2)))
  }

  /** Knots and metres per second: each within 0.005 of the exact conversion from the unit the series names. */
  lemma SpeedConversions(x: real, uom: string)
    ensures var r := SpeedToKtMs(Some(x), uom);
      var u := Lower(uom);
      (Contains(u, "km_h") ==>
         AbsR(r.0.value - x * 0.5399568) <= 0.005 && AbsR(r.1.value - x / 3.6) <= 0.005) &&
      (!Contains(u, "km_h") && Contains(u, "kn") ==>
         AbsR(r.0.value - x) <= 0.005 && AbsR(r.1.value - x * 0.514444) <= 0.005) &&
      (!Contains(u, "km_h") && !Contains(u, "kn") ==>
         AbsR(r.0.value - x / 0.514444) <= 0.005 && AbsR(r.1.value - x) <= 0.005)
  {
    RoundToTwoClose(x * 0.5399568);
    RoundToTwoClose(x / 3.6);
    RoundToTwoClose(x);
    RoundToTwoClose(x * 0.514444);
    RoundToTwoClose(x / 0.514444);
  }

  // ---------------------------------------------------------------------
  // The hourly maps
  // ---------------------------------------------------------------------

  /** The buckets of one value's interval, or what reading the interval threw. */
  function BucketsOf(g: GridValue, parse: string -> Result<(int, int)>): Result<seq<int>>
  {
    match parse(g.validTime)
    case Err(m) => Err(m)
    case Ok(se) => Ok(HourBuckets(se.0, se.1))
  }

  /** `$map[$ts] = $val` for every bucket, in order. */
  function Overwrite(m: map<int, Option<real>>, ts: seq<int>, v: Option<real>): map<int, Option<real>>
  {
    if |ts| == 0 then m else Overwrite(m, ts[..|ts| - 1], v)[ts[|ts| - 1] := v]
  }

  /** After the writes, the keys are the old ones and the buckets; a bucket holds `v`, any other key its old value. */
  lemma {:induction false} OverwriteSpec(m: map<int, Option<real>>, ts: seq<int>, v: Option<real>)
    ensures var r := Overwrite(m, ts, v);
      r.Keys == m.Keys + (set t | t in ts) &&
      (forall t :: t in ts ==> r[t] == v) &&
      (forall t :: t in m && t !in ts ==> r[t] == m[t])
  {
    if |ts| > 0 {
      var init, last := ts[..|ts| - 1], ts[|ts| - 1];
      OverwriteSpec(m, init, v);
      assert ts == init + [last];
      assert (set t | t in ts) == (set t | t in init) + {last};
    }
  }

  /** Writing one more bucket is one more map update. */
  lemma OverwriteStep(m: map<int, Option<real>>, ts: seq<int>, x: int, v: Option<real>)
    ensures Overwrite(m, ts + [x], v) == Overwrite(m, ts, v)[x := v]
  {
    assert (ts + [x])[..|ts|] == ts;
  }

  /** The inner loop of a series: `$map[$ts] = $val` for each bucket in turn. */
  method WriteBuckets(m0: map<int, Option<real>>, ts: seq<int>, v: Option<real>) returns (m: map<int, Option<real>>)
    ensures m == Overwrite(m0, ts, v)
  {
    m := m0;
    var j := 0;
    while j < |ts|
      invariant 0 <= j <= |ts|
      invariant m == Overwrite(m0, ts[..j], v)
    {
      OverwriteStep(m0, ts[..j], ts[j], v);
      assert ts[..j + 1] == ts[..j] + [ts[j]];
      m := m[ts[j] := v];
      j := j + 1;
    }
    assert ts[..j] == ts;
  }

  /** One value of a series written over the map so far, or the error reading its interval. */
  function SpreadOne(acc: map<int, Option<real>>, g: GridValue, parse: string -> Result<(int, int)>)
    : Result<map<int, Option<real>>>
  {
    match BucketsOf(g, parse)
    case Err(m) => Err(m)
    case Ok(ts) => Ok(Overwrite(acc, ts, NumOrNull(g.value)))
  }

  /** The map after the first `n` values, or the first interval that could not be read. */
  function SpreadSpec(vs: seq<GridValue>, parse: string -> Result<(int, int)>, n: nat): Result<map<int, Option<real>>>
    requires n <= |vs|
  {
    if n == 0 then Ok(map[])
    else
      match SpreadSpec(vs, parse, n - 1)
      case Err(m) => Err(m)
      case Ok(acc) => SpreadOne(acc, vs[n - 1], parse)
  }

  /** One pass of the loop body: the value (or null), the interval read, its buckets written. */
  method SpreadValue(acc: map<int, Option<real>>, g: GridValue, parse: string -> Result<(int, int)>)
    returns (r: Result<map<int, Option<real>>>)
    ensures r == SpreadOne(acc, g, parse)
  {
    var val := NumOrNull(g.value);
    var se := parse(g.validTime);
    if se.Err? {
      return Err(se.msg);
    }
    var ts := ExpandHourly(se.value.0, se.value.1);
    var m := WriteBuckets(acc, ts, val);
    r := Ok(m);
  }

  /**
   * The loop over a series: each value's interval expanded and its numeric
   * value (or null) written to every bucket, later values overwriting.
   */
  method Spread(vs: seq<GridValue>, parse: string -> Result<(int, int)>) returns (r: Result<map<int, Option<real>>>)
    ensures r == SpreadSpec(vs, parse, |vs|)
  {
    var m: map<int, Option<real>> := map[];
    var k := 0;
    while k < |vs|
      invariant 0 <= k <= |vs|
      invariant SpreadSpec(vs, parse, k) == Ok(m)
    {
      var step := SpreadValue(m, vs[k], parse);
      SpreadSpecStep(vs, parse, k, m);
      if step.Err? {
        SpreadStops(vs, parse, k, |vs|);
        return step;
      }
      m := step.value;
      k := k + 1;
    }
    r := Ok(m);
  }

  lemma SpreadSpecStep(vs: seq<GridValue>, parse: string -> Result<(int, int)>, k: nat, m: map<int, Option<real>>)
    requires k < |vs| && SpreadSpec(vs, parse, k) == Ok(m)
    ensures SpreadSpec(vs, parse, k + 1) == SpreadOne(m, vs[k], parse)
  {
  }

  /** Once an interval cannot be read, the loop ends with its error. */
  lemma {:induction false} SpreadStops(vs: seq<GridValue>, parse: string -> Result<(int, int)>, i: nat, n: nat)
    requires i < n <= |vs| && SpreadSpec(vs, parse, i + 1).Err?
    ensures SpreadSpec(vs, parse, n) == SpreadSpec(vs, parse, i + 1)
    decreases n
  {
    if n > i + 1 {
      SpreadStops(vs, parse, i, n - 1);
    }
  }

  /** Some value among the first `n` has an interval that was read and covers hour `t`. */
  ghost predicate CoveredBy(vs: seq<GridValue>, parse: string -> Result<(int, int)>, n: nat, t: int)
    requires n <= |vs|
  {
    exists j :: 0 <= j < n && Covers(vs[j], parse, t)
  }

  /** The interval of `g` was read and covers hour `t`. */
  predicate Covers(g: GridValue, parse: string -> Result<(int, int)>, t: int)
  {
    BucketsOf(g, parse).Ok? && t in BucketsOf(g, parse).value
  }

  /** Once every interval is read, an hour is a key exactly when some value's interval covers it. */
  lemma {:induction false} SpreadKeys(vs: seq<GridValue>, parse: string -> Result<(int, int)>, n: nat, t: int)
    requires n <= |vs| && SpreadSpec(vs, parse, n).Ok?
    ensures t in SpreadSpec(vs, parse, n).value <==> CoveredBy(vs, parse, n, t)
    decreases n
  {
    if n > 0 {
      var prev := SpreadSpec(vs, parse, n - 1);
      OverwriteSpec(prev.value, BucketsOf(vs[n - 1], parse).value, NumOrNull(vs[n - 1].value));
      SpreadKeys(vs, parse, n - 1, t);
      CoveredStep(vs, parse, n, t);
    }
  }

  /** Covered by the first `n` values: by the first `n - 1`, or by the last of them. */
  lemma CoveredStep(vs: seq<GridValue>, parse: string -> Result<(int, int)>, n: nat, t: int)
    requires 0 < n <= |vs|
    ensures CoveredBy(vs, parse, n, t) <==> CoveredBy(vs, parse, n - 1, t) || Covers(vs[n - 1], parse, t)
  {
    if CoveredBy(vs, parse, n, t) {
      var j :| 0 <= j < n && Covers(vs[j], parse, t);
      if j < n - 1 {
        assert CoveredBy(vs, parse, n - 1, t);
      }
    }
    if Covers(vs[n - 1], parse, t) {
      assert CoveredBy(vs, parse, n, t);
    }
  }

  /**
   * A later interval overwrites an earlier one: an hour holds the value of
   * the last value whose interval covers it.
   */
  lemma {:induction false} LaterIntervalWins(vs: seq<GridValue>, parse: string -> Result<(int, int)>, n: nat, j: nat, t: int)
    requires j < n <= |vs| && SpreadSpec(vs, parse, n).Ok?
    requires BucketsOf(vs[j], parse).Ok? && t in BucketsOf(vs[j], parse).value
    requires forall k :: j < k < n ==> BucketsOf(vs[k], parse).Ok? && t !in BucketsOf(vs[k], parse).value
    ensures t in SpreadSpec(vs, parse, n).value
    ensures SpreadSpec(vs, parse, n).value[t] == NumOrNull(vs[j].value)
    decreases n
  {
    var prev := SpreadSpec(vs, parse, n - 1);
    OverwriteSpec(prev.value, BucketsOf(vs[n - 1], parse).value, NumOrNull(vs[n - 1].value));
    if n > j + 1 {
      LaterIntervalWins(vs, parse, n - 1, j, t);
    }
  }

  // ---------------------------------------------------------------------
  // The join
  // ---------------------------------------------------------------------

  /** The least element of a non-empty set. */
  function SetMin(s: set<int>): (m: int)
    requires s != {}
    ensures m in s && forall x :: x in s ==> m <= x
  {
    SetMinExists(s);
    var m :| IsLeast(m, s);
    m
  }

  /** `m` is the least element of `s`. */
  predicate IsLeast(m: int, s: set<int>)
  {
    m in s && forall x :: x in s ==> m <= x
  }

  lemma SetMinExists(s: set<int>)
    requires s != {}
    ensures exists m :: IsLeast(m, s)
    decreases |s|
  {
    assert exists z :: z in s by {
      if forall z :: z !in s {
        assert false;
      }
    }
    var y :| y in s;
    var rest := s - {y};
    if rest == {} {
      assert s == {y};
      assert IsLeast(y, s);
    } else {
      SetMinExists(rest);
      var m :| IsLeast(m, rest);
      assert s == rest + {y};
      if y < m {
        assert IsLeast(y, s);
      } else {
        assert IsLeast(m, s);
      }
    }
  }

  /** `array_unique` then `sort`: the elements of a set in increasing order. */
  function SortedOf(s: set<int>): (r: seq<int>)
    ensures |r| == |s|
    ensures forall x :: x in r <==> x in s
    ensures forall i, j :: 0 <= i < j < |r| ==> r[i] < r[j]
    decreases |s|
  {
    if s == {} then []
    else
      var m := SetMin(s);
      var rest := SortedOf(s - {m});
      assert forall i :: 0 <= i < |rest| ==> m < rest[i] by {
        forall i | 0 <= i < |rest| ensures m < rest[i] {
          assert rest[i] in s - {m};
        }
      }
      [m] + rest
  }

  /** The direction column: `(int)round(fmod(($d % 360) + 360, 360))`, PHP's `%` truncating `$d` to an integer first. */
  function WdirOf(d: Option<real>): (r: Option<int>)
    ensures r.Some? <==> d.Some?
  {
    match d
    case None => None
    case Some(x) =>
      var folded := FMod((TruncMod(Trunc(x), 360) + 360) as real, 360.0);
      Some(RoundHalfAway(folded))
  }

  /** `fmod` by 360 of a whole number in [0, 720) is its remainder. */
  lemma FModOfWhole(k: int)
    requires 0 <= k < 720
    ensures FMod(k as real, 360.0) == (k % 360) as real
  {
    if k < 360 {
      FModBelow(k as real);
    } else {
      FModAbove(k as real);
    }
  }

  /** `round` leaves a whole number as it is. */
  lemma RoundWhole(k: int)
    ensures RoundHalfAway(k as real) == k
  {
  }

  /** A present direction becomes its whole part taken round the circle: a whole degree in [0, 359]. */
  lemma WdirInRange(x: real)
    ensures WdirOf(Some(x)) == Some(Trunc(x) % 360)
    ensures 0 <= WdirOf(Some(x)).value <= 359
  {
    var k := TruncMod(Trunc(x), 360) + 360;
    NormDegInt(Trunc(x));
    FModOfWhole(k);
    RoundWhole(k % 360);
  }

  /** One row of the join: the speed under that hour (or null) converted, the direction folded. */
  function JoinRow(ts: int, spd: map<int, Option<real>>, dir: map<int, Option<real>>, uom: string): (w: WindRow)
    ensures w.ts == ts
    ensures w.wspdKt.Some? <==> ts in spd && spd[ts].Some?
    ensures w.wspdMs.Some? <==> ts in spd && spd[ts].Some?
    ensures w.wdir.Some? <==> ts in dir && dir[ts].Some?
  {
    var s := if ts in spd then spd[ts] else None;
    var ktMs := SpeedToKtMs(s, uom);
    var d := if ts in dir then dir[ts] else None;
    WindRow(ts, WdirOf(d), ktMs.1, ktMs.0)
  }

  /** The rows of the join: one per hour, in the given order. */
  function JoinSpec(hours: seq<int>, spd: map<int, Option<real>>, dir: map<int, Option<real>>, uom: string)
    : (rows: seq<WindRow>)
    ensures |rows| == |hours|
    ensures forall i :: 0 <= i < |hours| ==> rows[i] == JoinRow(hours[i], spd, dir, uom)
  {
    seq(|hours|, i requires 0 <= i < |hours| => JoinRow(hours[i], spd, dir, uom))
  }

  /** The join loop. */
  method JoinHours(hours: seq<int>, spd: map<int, Option<real>>, dir: map<int, Option<real>>, uom: string)
    returns (rows: seq<WindRow>)
    ensures rows == JoinSpec(hours, spd, dir, uom)
  {
    rows := [];
    var i := 0;
    while i < |hours|
      invariant 0 <= i <= |hours|
      invariant rows == JoinSpec(hours, spd, dir, uom)[..i]
    {
      rows := rows + [JoinRow(hours[i], spd, dir, uom)];
      i := i + 1;
    }
  }

  /**
   * Joined over increasing hours, the rows keep the order and the hours;
   * each direction is a whole degree in [0, 359]; speed and direction are
   * null exactly where that map has no number.
   */
  lemma JoinShape(hours: seq<int>, spd: map<int, Option<real>>, dir: map<int, Option<real>>, uom: string)
    requires forall i, j :: 0 <= i < j < |hours| ==> hours[i] < hours[j]
    ensures var rows := JoinSpec(hours, spd, dir, uom);
      (forall i, j :: 0 <= i < j < |rows| ==> rows[i].ts < rows[j].ts) &&
      (forall i :: 0 <= i < |rows| ==> rows[i].ts == hours[i]) &&
      (forall i :: 0 <= i < |rows| && rows[i].wdir.Some? ==> 0 <= rows[i].wdir.value <= 359) &&
      (forall i :: 0 <= i < |rows| ==>
        (rows[i].wspdMs.Some? <==> rows[i].ts in spd && spd[rows[i].ts].Some?) &&
        (rows[i].wdir.Some? <==> rows[i].ts in dir && dir[rows[i].ts].Some?))
  {
    var rows := JoinSpec(hours, spd, dir, uom);
    forall i | 0 <= i < |rows| && rows[i].wdir.Some? ensures 0 <= rows[i].wdir.value <= 359 {
      WdirInRange(dir[hours[i]].value);
    }
  }

  /** `$spd['uom'] ?? 'wmoUnit:km_h-1'`. */
  function SpeedUnit(speed: GridSeries): string
  {
    if speed.uom.Some? then speed.uom.value else "wmoUnit:km_h-1"
  }

  /** What `fetch_rows` returns for the decoded `properties`; `None` stands for a missing or falsy series. */
  function FetchRowsSpec(speed: Option<GridSeries>, direction: Option<GridSeries>, parse: string -> Result<(int, int)>)
    : Result<seq<WindRow>>
  {
    if speed.None? || direction.None? || |speed.value.values| == 0 then Ok([])
    else
      match SpreadSpec(speed.value.values, parse, |speed.value.values|)
      case Err(m) => Err(m)
      case Ok(spd) =>
        match SpreadSpec(direction.value.values, parse, |direction.value.values|)
        case Err(m) => Err(m)
        case Ok(dir) =>
          Ok(JoinSpec(SortedOf(spd.Keys + dir.Keys), spd, dir, SpeedUnit(speed.value)))
  }

  /** `fetch_rows` after the fetch: the guard, the two maps, the sorted hours, the join. */
  method FetchRows(speed: Option<GridSeries>, direction: Option<GridSeries>, parse: string -> Result<(int, int)>)
    returns (r: Result<seq<WindRow>>)
    ensures r == FetchRowsSpec(speed, direction, parse)
  {
    if speed.None? || direction.None? || |speed.value.values| == 0 {
      return Ok([]);
    }
    var spd := Spread(speed.value.values, parse);
    if spd.Err? {
      return Err(spd.msg);
    }
    var dir := Spread(direction.value.values, parse);
    if dir.Err? {
      return Err(dir.msg);
    }
    var hours := SortedOf(spd.value.Keys + dir.value.Keys);
    var rows := JoinHours(hours, spd.value, dir.value, SpeedUnit(speed.value));
    r := Ok(rows);
  }

  /** Without a speed series, a direction series or any speed value there are no rows. */
  lemma NoRowsWithoutSeries(speed: Option<GridSeries>, direction: Option<GridSeries>, parse: string -> Result<(int, int)>)
    requires speed.None? || direction.None? || |speed.value.values| == 0
    ensures FetchRowsSpec(speed, direction, parse) == Ok([])
  {
  }

  /** Rows joined over an ordering of a set of hours carry exactly the hours of that set. */
  lemma JoinCovers(hours: seq<int>, spd: map<int, Option<real>>, dir: map<int, Option<real>>, uom: string, s: set<int>)
    requires forall x :: x in hours <==> x in s
    ensures var rows := JoinSpec(hours, spd, dir, uom);
      forall t :: (exists i :: 0 <= i < |rows| && rows[i].ts == t) <==> t in s
  {
    var rows := JoinSpec(hours, spd, dir, uom);
    forall t | t in s ensures exists i :: 0 <= i < |rows| && rows[i].ts == t {
      var i :| 0 <= i < |hours| && hours[i] == t;
      assert rows[i].ts == t;
    }
  }

  /** Once both series are read, `fetch_rows` is the join over the sorted union of their hours. */
  lemma FetchRowsIsJoin(speed: Option<GridSeries>, direction: Option<GridSeries>, parse: string -> Result<(int, int)>)
    requires FetchRowsSpec(speed, direction, parse).Ok?
    requires speed.Some? && direction.Some? && |speed.value.values| > 0
    ensures SpreadSpec(speed.value.values, parse, |speed.value.values|).Ok?
    ensures SpreadSpec(direction.value.values, parse, |direction.value.values|).Ok?
    ensures var spd := SpreadSpec(speed.value.values, parse, |speed.value.values|).value;
      var dir := SpreadSpec(direction.value.values, parse, |direction.value.values|).value;
      FetchRowsSpec(speed, direction, parse).value == JoinSpec(SortedOf(spd.Keys + dir.Keys), spd, dir, SpeedUnit(speed.value))
  {
  }

  /**
   * The rows run over the hours of either series, each once, in increasing
   * order; every direction is a whole degree in [0, 359]; and speed and
   * direction are null exactly where that series has no number.
   */
  lemma FetchRowsShape(speed: Option<GridSeries>, direction: Option<GridSeries>, parse: string -> Result<(int, int)>)
    requires FetchRowsSpec(speed, direction, parse).Ok?
    requires speed.Some? && direction.Some? && |speed.value.values| > 0
    ensures SpreadSpec(speed.value.values, parse, |speed.value.values|).Ok?
    ensures SpreadSpec(direction.value.values, parse, |direction.value.values|).Ok?
    ensures var rows := FetchRowsSpec(speed, direction, parse).value;
      var spd := SpreadSpec(speed.value.values, parse, |speed.value.values|).value;
      var dir := SpreadSpec(direction.value.values, parse, |direction.value.values|).value;
      (forall i, j :: 0 <= i < j < |rows| ==> rows[i].ts < rows[j].ts) &&
      (forall t :: (exists i :: 0 <= i < |rows| && rows[i].ts == t) <==> t in spd.Keys + dir.Keys) &&
      (forall i :: 0 <= i < |rows| && rows[i].wdir.Some? ==> 0 <= rows[i].wdir.value <= 359) &&
      (forall i :: 0 <= i < |rows| ==>
        (rows[i].wspdMs.Some? <==> rows[i].ts in spd && spd[rows[i].ts].Some?) &&
        (rows[i].wdir.Some? <==> rows[i].ts in dir && dir[rows[i].ts].Some?))
  {
    FetchRowsIsJoin(speed, direction, parse);
    var spd := SpreadSpec(speed.value.values, parse, |speed.value.values|).value;
    var dir := SpreadSpec(direction.value.values, parse, |direction.value.values|).value;
    var hours := SortedOf(spd.Keys + dir.Keys);
    JoinShape(hours, spd, dir, SpeedUnit(speed.value));
    JoinCovers(hours, spd, dir, SpeedUnit(speed.value), spd.Keys + dir.Keys);
  }
}
