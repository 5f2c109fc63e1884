// ForecastPreference: forecast rows sampled at the station's upcoming high and
// low tide instants.
//
// The tide table is the station's table in time order, as the next-event
// query reads it; the forecast interpolator is a function of the target
// instant, since the place it samples is fixed for one call.

module ForecastPreference {
  import opened Common
  import opened Php
  import opened NoaaTideRepository
  import WavePreference

  /** One high/low anchor: its instant and its type, 'H' or 'L'. */
  datatype Anchor = Anchor(when: int, hlType: string)

  /** Anchors in strictly increasing time order. */
  predicate Increasing(a: seq<Anchor>)
  {
    forall i, j :: 0 <= i < j < |a| ==> a[i].when < a[j].when
  }

  /** One forecast row at an anchor. */
  datatype Sample = Sample(when: int, hlType: string, hsM: real, perS: real, dirDeg: real)

  predicate IsHL(t: string) { t == "H" || t == "L" }

  /** The cursor after an anchor: one minute later, truncated to the minute. */
  function NextCursor(t: int): (r: int)
    ensures t < r <= t + 60
  {
    (t + 60) - (t + 60) % 60
  }

  /** The horizon: `hours` hours after the start. */
  function EndOf(start: int, hours: int): int { start + 3600 * hours }

  /** The table's rows as anchors, in table order. */
  function Events(table: seq<TideRow>): (r: seq<Anchor>)
    ensures |r| == |table|
    ensures forall i :: 0 <= i < |table| ==> r[i] == Anchor(table[i].when, table[i].hlType)
  {
    if |table| == 0 then [] else [Anchor(table[0].when, table[0].hlType)] + Events(table[1..])
  }

  /** The index of the first row at or after `cursor`, `|table|` when there is none. */
  function FirstAtOrAfter(table: seq<TideRow>, cursor: int): (k: nat)
    ensures k <= |table|
    ensures forall i :: 0 <= i < k ==> table[i].when < cursor
    ensures k < |table| ==> table[k].when >= cursor
    decreases |table|
  {
    if |table| == 0 || table[0].when >= cursor then 0
    else 1 + FirstAtOrAfter(table[1..], cursor)
  }

  /** The row the loop reads for a cursor: the first one at or after it, if any. */
  function NextRow(table: seq<TideRow>, cursor: int): (r: Option<TideRow>)
    ensures r.Some? ==> r.value in table && r.value.when >= cursor
    ensures r.None? <==> forall i :: 0 <= i < |table| ==> table[i].when < cursor
  {
    var k := FirstAtOrAfter(table, cursor);
    if k < |table| then Some(table[k]) else None
  }

  /** `getNextHL` with a limit of one returns exactly that row. */
  lemma {:induction false} NextRowIsQuery(table: seq<TideRow>, cursor: int)
    ensures var rows := GetNextHL(table, cursor, 1);
            NextRow(table, cursor) == if |rows| == 0 then None else Some(rows[0])
    decreases |table|
  {
    if |table| > 0 && table[0].when < cursor {
      NextRowIsQuery(table[1..], cursor);
      assert forall i :: 0 <= i < |table| - 1 ==> table[1..][i] == table[i + 1];
      assert AtOrAfter(table, cursor) == AtOrAfter(table[1..], cursor);
    }
  }

  /** The next-event query the loop issues, as a function of the cursor. */
  type Reader = int -> Option<TideRow>

  /** The query over one station's table. */
  function ReaderOf(table: seq<TideRow>): Reader
  {
    c => NextRow(table, c)
  }

  /** Whether the loop takes the row it read: an H or L row no later than the horizon. */
  predicate Takes(row: Option<TideRow>, endTs: int)
  {
    row.Some? && IsHL(row.value.hlType) && row.value.when <= endTs
  }

  /**
   * The anchors the loop collects from `cursor` with `left` rounds of its
   * guard remaining.
   */
  function AnchorsFrom(next: Reader, cursor: int, endTs: int, left: int): (r: seq<Anchor>)
    ensures |r| <= Max(left, 0)
    ensures forall k :: 0 <= k < |r| ==> r[k].when <= endTs && IsHL(r[k].hlType)
    decreases left
  {
    if left <= 0 || !Takes(next(cursor), endTs) then []
    else
      var row := next(cursor).value;
      var rest := AnchorsFrom(next, NextCursor(row.when), endTs, left - 1);
      assert forall k :: 1 <= k < |rest| + 1 ==> ([Anchor(row.when, row.hlType)] + rest)[k] == rest[k - 1];
      [Anchor(row.when, row.hlType)] + rest
  }

  /** `hlAnchors`: at most `max` anchors from `start` up to `hours` hours later. */
  function HlAnchorsSpec(table: seq<TideRow>, start: int, hours: int, max: int): seq<Anchor>
  {
    AnchorsFrom(ReaderOf(table), start, EndOf(start, hours), max)
  }

  /** The guarded loop of `hlAnchors`, querying the table one row at a time. */
  method HlAnchors(table: seq<TideRow>, start: int, hours: int, max: int) returns (anchors: seq<Anchor>)
    ensures anchors == HlAnchorsSpec(table, start, hours, max)
  {
    anchors := [];
    var endTs := EndOf(start, hours);
    var cursor := start;
    var guard := 0;
    ghost var next := ReaderOf(table);
    while guard < max
      invariant guard <= Max(max, 0)
      invariant anchors + AnchorsFrom(next, cursor, endTs, max - guard) == HlAnchorsSpec(table, start, hours, max)
      decreases max - guard
    {
      ghost var left := max - guard;
      guard := guard + 1;
      var rows := GetNextHL(table, cursor, 1);
      assert next(cursor) == if |rows| == 0 then None else Some(rows[0]) by {
        NextRowIsQuery(table, cursor);
      }
      if |rows| == 0 {
        break;
      }
      var r := rows[0];
      if r.hlType != "H" && r.hlType != "L" {
        break;
      }
      if r.when > endTs {
        break;
      }
      AnchorsTake(next, cursor, endTs, left, anchors);
      anchors := anchors + [Anchor(r.when, r.hlType)];
      cursor := NextCursor(r.when);
    }
  }

  /** A row the loop takes becomes the next anchor, and the loop goes on from just after it. */
  lemma AnchorsTake(next: Reader, cursor: int, endTs: int, left: int, done: seq<Anchor>)
    requires left > 0 && Takes(next(cursor), endTs)
    ensures var row := next(cursor).value;
      done + AnchorsFrom(next, cursor, endTs, left)
        == (done + [Anchor(row.when, row.hlType)]) + AnchorsFrom(next, NextCursor(row.when), endTs, left - 1)
  {
  }

  /** Anchors start at the cursor and come out in strictly increasing time order. */
  lemma {:induction false} AnchorsIncrease(next: Reader, cursor: int, endTs: int, left: int)
    requires forall c :: next(c).Some? ==> next(c).value.when >= c
    ensures var r := AnchorsFrom(next, cursor, endTs, left);
            Increasing(r) && forall k :: 0 <= k < |r| ==> r[k].when >= cursor
    decreases left
  {
    var r := AnchorsFrom(next, cursor, endTs, left);
    if left > 0 && Takes(next(cursor), endTs) {
      var row := next(cursor).value;
      var rest := AnchorsFrom(next, NextCursor(row.when), endTs, left - 1);
      AnchorsIncrease(next, NextCursor(row.when), endTs, left - 1);
      assert r == [Anchor(row.when, row.hlType)] + rest;
      forall i, j | 0 <= i < j < |r| ensures r[i].when < r[j].when {
        assert r[j] == rest[j - 1];
        if i > 0 { assert r[i] == rest[i - 1]; }
      }
      forall k | 0 < k < |r| ensures r[k].when >= cursor {
        assert r[k] == rest[k - 1];
      }
    }
  }

  /** Every anchor in `r` is one of the table's rows. */
  predicate AllEvents(r: seq<Anchor>, table: seq<TideRow>)
  {
    forall k :: 0 <= k < |r| ==> r[k] in Events(table)
  }

  /** Every anchor is one of the rows the query can return. */
  lemma {:induction false} AnchorsAreEvents(next: Reader, table: seq<TideRow>, cursor: int, endTs: int, left: int)
    requires forall c :: next(c).Some? ==> next(c).value in table
    ensures AllEvents(AnchorsFrom(next, cursor, endTs, left), table)
    decreases left
  {
    var r := AnchorsFrom(next, cursor, endTs, left);
    if left > 0 && Takes(next(cursor), endTs) {
      var row := next(cursor).value;
      var rest := AnchorsFrom(next, NextCursor(row.when), endTs, left - 1);
      AnchorsAreEvents(next, table, NextCursor(row.when), endTs, left - 1);
      assert r == [Anchor(row.when, row.hlType)] + rest;
      TableRowIsEvent(table, row);
      assert AllEvents(rest, table);
      forall k | 0 < k < |r| ensures r[k] in Events(table) {
        assert r[k] == rest[k - 1];
      }
    }
  }

  lemma TableRowIsEvent(table: seq<TideRow>, x: TideRow)
    requires x in table
    ensures Anchor(x.when, x.hlType) in Events(table)
  {
    var i :| 0 <= i < |table| && table[i] == x;
    assert Events(table)[i] == Anchor(x.when, x.hlType);
  }

  /** The cursor in force when the loop reads its `k`-th row. */
  function CursorBefore(anchors: seq<Anchor>, start: int, k: nat): int
    requires k <= |anchors|
  {
    if k == 0 then start else NextCursor(anchors[k - 1].when)
  }

  /**
   * The loop stops rather than skips: when fewer than `left` anchors come
   * back, the row read after the last anchor is missing, not H/L, or past
   * the horizon.
   */
  lemma {:induction false} AnchorsStopAtFirstRefusal(next: Reader, cursor: int, endTs: int, left: int)
    ensures var r := AnchorsFrom(next, cursor, endTs, left);
            |r| < left ==> !Takes(next(CursorBefore(r, cursor, |r|)), endTs)
    decreases left
  {
    var r := AnchorsFrom(next, cursor, endTs, left);
    if left > 0 && Takes(next(cursor), endTs) {
      var row := next(cursor).value;
      var rest := AnchorsFrom(next, NextCursor(row.when), endTs, left - 1);
      AnchorsStopAtFirstRefusal(next, NextCursor(row.when), endTs, left - 1);
      assert r == [Anchor(row.when, row.hlType)] + rest;
      if |rest| > 0 {
        assert r[|r| - 1] == rest[|rest| - 1];
      } else {
        assert CursorBefore(r, cursor, |r|) == NextCursor(row.when);
      }
    }
  }

  /** On a time-ordered table the first row at or after a cursor is the earliest such row. */
  lemma {:induction false} NextRowIsEarliest(table: seq<TideRow>, cursor: int)
    requires TimeOrdered(table)
    ensures NextRow(table, cursor).Some? ==>
      forall x :: x in table && x.when >= cursor ==> NextRow(table, cursor).value.when <= x.when
  {
    var k := FirstAtOrAfter(table, cursor);
    if k < |table| {
      forall x | x in table && x.when >= cursor
        ensures table[k].when <= x.when
      {
        var j :| 0 <= j < |table| && table[j] == x;
        assert !(j < k);
      }
    }
  }

  /** The query returns a row no later than any row of the table at or after the cursor. */
  ghost predicate ReadsEarliest(next: Reader, table: seq<TideRow>)
  {
    forall c, x :: next(c).Some? && x in table && x.when >= c ==> next(c).value.when <= x.when
  }

  /** No row of the table lies between the cursor in force and the anchor read from it. */
  predicate SkipsNothing(r: seq<Anchor>, start: int, table: seq<TideRow>)
  {
    forall k, x :: 0 <= k < |r| && x in table && CursorBefore(r, start, k) <= x.when ==> r[k].when <= x.when
  }

  /**
   * No row is passed over: nothing in the table lies between the cursor in
   * force and the anchor the loop took from it.
   */
  lemma {:induction false} AnchorsSkipNothing(next: Reader, table: seq<TideRow>, cursor: int, endTs: int, left: int)
    requires ReadsEarliest(next, table)
    ensures SkipsNothing(AnchorsFrom(next, cursor, endTs, left), cursor, table)
    decreases left
  {
    var r := AnchorsFrom(next, cursor, endTs, left);
    if left > 0 && Takes(next(cursor), endTs) {
      var row := next(cursor).value;
      var rest := AnchorsFrom(next, NextCursor(row.when), endTs, left - 1);
      AnchorsSkipNothing(next, table, NextCursor(row.when), endTs, left - 1);
      assert SkipsNothing(rest, NextCursor(row.when), table);
      assert r == [Anchor(row.when, row.hlType)] + rest;
      forall k, x | 0 <= k < |r| && x in table && CursorBefore(r, cursor, k) <= x.when
        ensures r[k].when <= x.when
      {
        if k > 0 {
          assert r[k] == rest[k - 1];
          assert CursorBefore(r, cursor, k) == CursorBefore(rest, NextCursor(row.when), k - 1);
          assert rest[k - 1].when <= x.when;
        } else {
          assert next(cursor).value.when <= x.when;
        }
      }
    }
  }

  /**
   * `hlAnchors` over a station's table: at most `max` anchors, in strictly
   * increasing time order, each a table H/L row between the start and the
   * horizon; on a time-ordered table none is passed over, and the loop ends
   * early only at a missing, non-H/L or too-late row.
   */
  lemma HlAnchorsProperties(table: seq<TideRow>, start: int, hours: int, max: int)
    ensures var r := HlAnchorsSpec(table, start, hours, max);
            |r| <= Max(max, 0) && Increasing(r) &&
            (forall k :: 0 <= k < |r| ==>
               start <= r[k].when <= EndOf(start, hours) && IsHL(r[k].hlType) && r[k] in Events(table)) &&
            (|r| < max ==> !Takes(NextRow(table, CursorBefore(r, start, |r|)), EndOf(start, hours))) &&
            (TimeOrdered(table) ==>
               forall k, x :: 0 <= k < |r| && x in table && CursorBefore(r, start, k) <= x.when ==> r[k].when <= x.when)
  {
    var next := ReaderOf(table);
    var endTs := EndOf(start, hours);
    AnchorsIncrease(next, start, endTs, max);
    AnchorsAreEvents(next, table, start, endTs, max);
    AnchorsStopAtFirstRefusal(next, start, endTs, max);
    if TimeOrdered(table) {
      assert ReadsEarliest(next, table) by {
        forall c, x | next(c).Some? && x in table && x.when >= c ensures next(c).value.when <= x.when {
          NextRowIsEarliest(table, c);
        }
      }
      AnchorsSkipNothing(next, table, start, endTs, max);
    }
  }

  // ---------------------------------------------------------------------
  // hlAnchoredForecastForStation
  // ---------------------------------------------------------------------

  /** The stub place handed to the forecast sampler: a name and the zone's coordinates. */
  function ZonePlace(lat: real, lon: real): Row
  {
    map["spot_name" := PStr("zone"), "region_lat" := PFloat(lat), "region_lon" := PFloat(lon)]
  }

  /** The forecast gate on the stub place fails only when the period or the direction is missing. */
  lemma ZoneGatePassesWhenComplete(lat: real, lon: real, t: string, f: WavePreference.Forecast)
    ensures WavePreference.ForecastForSpot(ZonePlace(lat, lon), t, f).Pass? <==> f.per.Some? && f.dir.Some?
  {
    var p := ZonePlace(lat, lon);
    assert "period_min" !in p && "period_max" !in p && "dir_min" !in p && "dir_max" !in p;
  }

  /** The row for one anchor, if the sampler succeeds there; a missing height casts to 0. */
  function SampleAt(a: Anchor, place: Row, forecastAt: int -> WavePreference.Forecast): (r: Option<Sample>)
    ensures r.Some? <==> WavePreference.ForecastForSpot(place, IntToString(a.when), forecastAt(a.when)).Pass?
    ensures r.Some? ==> (r.value.when == a.when && r.value.hlType == a.hlType &&
                         forecastAt(a.when).per == Some(r.value.perS) && forecastAt(a.when).dir == Some(r.value.dirDeg))
    ensures r.Some? ==> r.value.hsM == (if forecastAt(a.when).hs.Some? then forecastAt(a.when).hs.value else 0.0)
  {
    var g := WavePreference.ForecastForSpot(place, IntToString(a.when), forecastAt(a.when));
    if g.Fail? then None
    else Some(Sample(a.when, a.hlType, g.hs.UnwrapOr(0.0), g.per, g.dir))
  }

  /** The sampler over the stub place and the interpolator. */
  type Sampler = Anchor -> Option<Sample>

  function SamplerOf(place: Row, forecastAt: int -> WavePreference.Forecast): Sampler
  {
    a => SampleAt(a, place, forecastAt)
  }

  /** A sampler that labels each row with its anchor. */
  ghost predicate KeepsAnchor(sample: Sampler)
  {
    forall a :: sample(a).Some? ==> sample(a).value.when == a.when && sample(a).value.hlType == a.hlType
  }

  /** The rows for the anchors whose sample succeeded, in anchor order. */
  function Samples(anchors: seq<Anchor>, sample: Sampler): (r: seq<Sample>)
    ensures |r| <= |anchors|
    ensures forall k :: 0 <= k < |anchors| && sample(anchors[k]).Some? ==> sample(anchors[k]).value in r
  {
    if |anchors| == 0 then []
    else
      var rest := Samples(anchors[1..], sample);
      assert forall k :: 1 <= k < |anchors| ==> anchors[1..][k - 1] == anchors[k];
      if sample(anchors[0]).None? then rest else [sample(anchors[0]).value] + rest
  }

  /** Rows sampled from `anchors`, each carrying the instant and type of one of them. */
  predicate FromAnchors(r: seq<Sample>, anchors: seq<Anchor>)
  {
    forall k :: 0 <= k < |r| ==> Anchor(r[k].when, r[k].hlType) in anchors
  }

  predicate SamplesIncrease(r: seq<Sample>)
  {
    forall i, j :: 0 <= i < j < |r| ==> r[i].when < r[j].when
  }

  /** Skipping failed samples keeps each row's anchor and the anchors' order. */
  lemma SamplesKeepOrder(anchors: seq<Anchor>, sample: Sampler)
    requires KeepsAnchor(sample)
    ensures FromAnchors(Samples(anchors, sample), anchors)
    ensures Increasing(anchors) ==> SamplesIncrease(Samples(anchors, sample))
  {
    SamplesFromAnchors(anchors, sample);
    if Increasing(anchors) {
      SamplesIncreasing(anchors, sample);
    }
  }

  /** Each sampled row carries the instant and type of one of the anchors. */
  lemma {:induction false} SamplesFromAnchors(anchors: seq<Anchor>, sample: Sampler)
    requires KeepsAnchor(sample)
    ensures FromAnchors(Samples(anchors, sample), anchors)
  {
    if |anchors| > 0 {
      var tail := anchors[1..];
      var r := Samples(anchors, sample);
      var rest := Samples(tail, sample);
      SamplesFromAnchors(tail, sample);
      forall k | 0 <= k < |rest| ensures Anchor(rest[k].when, rest[k].hlType) in anchors {
        assert Anchor(rest[k].when, rest[k].hlType) in tail;
      }
      if sample(anchors[0]).Some? {
        assert r == [sample(anchors[0]).value] + rest;
        forall k | 1 <= k < |r| ensures r[k] == rest[k - 1] { }
      }
    }
  }

  /** The anchors after the first still increase. */
  lemma IncreasingTail(anchors: seq<Anchor>)
    requires |anchors| > 0 && Increasing(anchors)
    ensures Increasing(anchors[1..])
  {
    var tail := anchors[1..];
    forall i, j | 0 <= i < j < |tail| ensures tail[i].when < tail[j].when {
      assert tail[i] == anchors[i + 1] && tail[j] == anchors[j + 1];
    }
  }

  /** Over increasing anchors the sampled rows increase too. */
  lemma {:induction false} SamplesIncreasing(anchors: seq<Anchor>, sample: Sampler)
    requires KeepsAnchor(sample) && Increasing(anchors)
    ensures SamplesIncrease(Samples(anchors, sample))
  {
    if |anchors| > 0 {
      var tail := anchors[1..];
      var rest := Samples(tail, sample);
      IncreasingTail(anchors);
      SamplesIncreasing(tail, sample);
      if sample(anchors[0]).Some? {
        var x := sample(anchors[0]).value;
        assert forall k :: 0 <= k < |rest| ==> x.when < rest[k].when by {
          SamplesFromAnchors(tail, sample);
          forall k | 0 <= k < |rest| ensures x.when < rest[k].when {
            LaterThanFirst(anchors, Anchor(rest[k].when, rest[k].hlType));
          }
        }
        ConsIncreases(x, rest);
      }
    }
  }

  /** An anchor after the first of increasing anchors is later than it. */
  lemma LaterThanFirst(anchors: seq<Anchor>, a: Anchor)
    requires |anchors| > 0 && Increasing(anchors) && a in anchors[1..]
    ensures anchors[0].when < a.when
  {
    var m :| 0 <= m < |anchors[1..]| && anchors[1..][m] == a;
    assert anchors[m + 1] == a;
  }

  /** A row earlier than every row of increasing rows can go in front of them. */
  lemma ConsIncreases(x: Sample, rest: seq<Sample>)
    requires SamplesIncrease(rest)
    requires forall k :: 0 <= k < |rest| ==> x.when < rest[k].when
    ensures SamplesIncrease([x] + rest)
  {
    var r := [x] + rest;
    forall i, j | 0 <= i < j < |r| ensures r[i].when < r[j].when {
      assert r[j] == rest[j - 1];
      if i > 0 {
        assert r[i] == rest[i - 1];
      }
    }
  }

  /** `hlAnchoredForecastForStation`, over the anchors and the interpolator. */
  function AnchoredForecastSpec(table: seq<TideRow>, lat: real, lon: real, start: int,
                                forecastAt: int -> WavePreference.Forecast, hours: int, maxRows: int): seq<Sample>
  {
    var anchors := HlAnchorsSpec(table, start, hours, maxRows);
    if |anchors| == 0 then [] else Samples(anchors, SamplerOf(ZonePlace(lat, lon), forecastAt))
  }

  /** The sampling loop, skipping anchors whose forecast gate fails. */
  method HlAnchoredForecastForStation(table: seq<TideRow>, lat: real, lon: real, start: int,
                                      forecastAt: int -> WavePreference.Forecast, hours: int, maxRows: int)
    returns (out: seq<Sample>)
    ensures out == AnchoredForecastSpec(table, lat, lon, start, forecastAt, hours, maxRows)
  {
    var anchors := HlAnchors(table, start, hours, maxRows);
    if |anchors| == 0 {
      return [];
    }
    var place := ZonePlace(lat, lon);
    ghost var sample := SamplerOf(place, forecastAt);
    out := [];
    var i := 0;
    while i < |anchors|
      invariant 0 <= i <= |anchors|
      invariant out + Samples(anchors[i..], sample) == Samples(anchors, sample)
    {
      var a := anchors[i];
      assert anchors[i..][1..] == anchors[i + 1..];
      var wf := WavePreference.ForecastForSpot(place, IntToString(a.when), forecastAt(a.when));
      assert sample(a) == if wf.Fail? then None else Some(Sample(a.when, a.hlType, wf.hs.UnwrapOr(0.0), wf.per, wf.dir));
      i := i + 1;
      if wf.Fail? {
        continue;
      }
      out := out + [Sample(a.when, a.hlType, wf.hs.UnwrapOr(0.0), wf.per, wf.dir)];
    }
  }

  /**
   * The output lies in the anchor window: at most `maxRows` rows, in time
   * order, each at a table H/L instant between the start and the horizon.
   */
  lemma AnchoredRowsAreTideEvents(table: seq<TideRow>, lat: real, lon: real, start: int,
                                  forecastAt: int -> WavePreference.Forecast, hours: int, maxRows: int)
    ensures var out := AnchoredForecastSpec(table, lat, lon, start, forecastAt, hours, maxRows);
            |out| <= Max(maxRows, 0) && SamplesIncrease(out) &&
            forall k :: 0 <= k < |out| ==>
              (start <= out[k].when <= EndOf(start, hours) && IsHL(out[k].hlType) &&
               Anchor(out[k].when, out[k].hlType) in Events(table))
  {
    var anchors := HlAnchorsSpec(table, start, hours, maxRows);
    var out := AnchoredForecastSpec(table, lat, lon, start, forecastAt, hours, maxRows);
    HlAnchorsProperties(table, start, hours, maxRows);
    if |anchors| > 0 {
      var sample := SamplerOf(ZonePlace(lat, lon), forecastAt);
      SamplesKeepOrder(anchors, sample);
      assert FromAnchors(out, anchors);
      forall k | 0 <= k < |out|
        ensures start <= out[k].when <= EndOf(start, hours) && IsHL(out[k].hlType) &&
                Anchor(out[k].when, out[k].hlType) in Events(table)
      {
        var m :| 0 <= m < |anchors| && anchors[m] == Anchor(out[k].when, out[k].hlType);
      }
    }
  }
}
