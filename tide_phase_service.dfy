/**
 * `Services\TidePhaseService`: reads a station's tide table around "now"
 * and reports the surrounding high/low events, the mid-tide between them
 * and which phases fall inside a window of minutes around now
 * (`tideWindowForStation`), or a coarse tide state: slack high/low,
 * incoming or outgoing (`stateForStation`).
 *
 * The table is the station's rows in `t_utc` order and the two queries are
 * `NoaaTideRepository.GetPrevHL`/`GetNextHL`. Times are epoch seconds; the
 * local-time strings the service also returns are not modelled.
 */
module TidePhaseService {
  import opened Common
  import opened Php
  import opened NoaaTideRepository

  /** A high or a low (as opposed to an intermediate `I` row). */
  predicate IsHL(t: string) { t == "H" || t == "L" }

  /** How many extra steps back the walk to an H/L row may take. */
  const WalkGuard: nat := 8
  /** How many rows ahead the window looks. */
  const WindowLookAhead: nat := 6
  /** How many rows ahead the state looks. */
  const StateLookAhead: nat := 3

  const LowToHigh: string := "L→H"
  const HighToLow: string := "H→L"

  /** No two rows share a time, and rows are in time order. */
  predicate TimeStrict(table: seq<TideRow>)
  {
    forall i, j :: 0 <= i < j < |table| ==> table[i].when < table[j].when
  }

  /** No high or low lies strictly between `lo` and `hi`. */
  predicate NoHLBetween(table: seq<TideRow>, lo: int, hi: int)
  {
    forall i :: 0 <= i < |table| && lo < table[i].when < hi ==> !IsHL(table[i].hlType)
  }

  // ---------------------------------------------------------------------
  // Previous high/low: the bounded walk back
  // ---------------------------------------------------------------------

  /** The walk from `cur`: step back to the previous row while `cur` is not H/L, at most `steps` times. */
  function WalkFrom(table: seq<TideRow>, cur: Option<TideRow>, steps: nat): (r: Option<TideRow>)
    ensures r.Some? ==> r == cur || (r.value in table && cur.Some? && r.value.when < cur.value.when)
    decreases steps
  {
    if cur.None? || IsHL(cur.value.hlType) || steps == 0 then cur
    else WalkFrom(table, GetPrevHL(table, cur.value.when), steps - 1)
  }

  /** The `a` endpoint before any replacement: the walk's end if it is H/L, otherwise none. */
  function PrevForWindow(table: seq<TideRow>, now: int): (r: Option<TideRow>)
    ensures r.Some? ==> r.value in table && IsHL(r.value.hlType) && r.value.when < now
  {
    var p := WalkFrom(table, GetPrevHL(table, now), WalkGuard);
    if p.Some? && !IsHL(p.value.hlType) then None else p
  }

  /** The walk back of `tideWindowForStation`. */
  method WalkBack(table: seq<TideRow>, now: int) returns (prev: Option<TideRow>)
    ensures prev == PrevForWindow(table, now)
  {
    prev := GetPrevHL(table, now);
    var guard := 0;
    while prev.Some? && !IsHL(prev.value.hlType) && guard < WalkGuard
      invariant 0 <= guard <= WalkGuard
      invariant WalkFrom(table, prev, WalkGuard - guard) == WalkFrom(table, GetPrevHL(table, now), WalkGuard)
    {
      prev := GetPrevHL(table, prev.value.when);
      guard := guard + 1;
    }
    if prev.Some? && !IsHL(prev.value.hlType) {
      prev := None;
    }
  }

  lemma StrictIsOrdered(table: seq<TideRow>)
    requires TimeStrict(table)
    ensures TimeOrdered(table)
  {
  }

  /** Each step of the walk keeps "no high or low between the current row and now". */
  lemma {:induction false} WalkFromNearest(table: seq<TideRow>, now: int, cur: Option<TideRow>, steps: nat)
    requires TimeStrict(table)
    requires cur.Some? ==> cur.value in table && NoHLBetween(table, cur.value.when, now)
    ensures WalkFrom(table, cur, steps).Some? ==>
      NoHLBetween(table, WalkFrom(table, cur, steps).value.when, now)
    decreases steps
  {
    if cur.Some? && !IsHL(cur.value.hlType) && steps > 0 {
      var c := cur.value;
      var next := GetPrevHL(table, c.when);
      StrictIsOrdered(table);
      GetPrevHLIsLatest(table, c.when);
      if next.Some? {
        forall i | 0 <= i < |table| && next.value.when < table[i].when < now
          ensures !IsHL(table[i].hlType)
        {
          if table[i].when == c.when {
            var j :| 0 <= j < |table| && table[j] == c;
            assert i == j;
          }
        }
      }
      WalkFromNearest(table, now, next, steps - 1);
    }
  }

  /**
   * On a table with distinct times, the `a` endpoint the walk finds is the
   * latest high or low before now.
   */
  lemma PrevForWindowIsLatestHL(table: seq<TideRow>, now: int)
    requires TimeStrict(table)
    ensures PrevForWindow(table, now).Some? ==>
      forall x :: x in table && IsHL(x.hlType) && x.when < now ==> x.when <= PrevForWindow(table, now).value.when
  {
    StrictIsOrdered(table);
    GetPrevHLIsLatest(table, now);
    WalkFromNearest(table, now, GetPrevHL(table, now), WalkGuard);
  }

  // ---------------------------------------------------------------------
  // Looking ahead
  // ---------------------------------------------------------------------

  /** The position of the first high or low in `rows`. */
  function FirstHLIndex(rows: seq<TideRow>): (r: Option<nat>)
    ensures r.Some? ==> r.value < |rows| && IsHL(rows[r.value].hlType)
    ensures r.Some? ==> forall j :: 0 <= j < r.value ==> !IsHL(rows[j].hlType)
    ensures r.None? <==> forall j :: 0 <= j < |rows| ==> !IsHL(rows[j].hlType)
  {
    if |rows| == 0 then None
    else if IsHL(rows[0].hlType) then Some(0)
    else
      var t := FirstHLIndex(rows[1..]);
      if t.Some? then Some(t.value + 1) else None
  }

  /** The first high or low in `rows`. */
  function FirstHL(rows: seq<TideRow>): (r: Option<TideRow>)
    ensures r.Some? ==> r.value in rows && IsHL(r.value.hlType)
    ensures r.None? <==> forall x :: x in rows ==> !IsHL(x.hlType)
  {
    var k := FirstHLIndex(rows);
    if k.Some? then Some(rows[k.value]) else None
  }

  /** The `foreach ... break` that picks the first H/L row. */
  method FirstHLOf(rows: seq<TideRow>) returns (r: Option<TideRow>)
    ensures r == FirstHL(rows)
  {
    r := None;
    var i := 0;
    while i < |rows|
      invariant 0 <= i <= |rows|
      invariant forall j :: 0 <= j < i ==> !IsHL(rows[j].hlType)
    {
      if IsHL(rows[i].hlType) {
        r := Some(rows[i]);
        assert FirstHLIndex(rows) == Some(i);
        return;
      }
      i := i + 1;
    }
  }

  /**
   * The search for an opposite high/low: H/L rows are skipped until the one
   * whose time is `bWhen` has been passed, then the first of a type other
   * than `aType` is taken.
   */
  function OppositeAfter(rows: seq<TideRow>, bWhen: int, aType: string, passed: bool): (r: Option<TideRow>)
    ensures r.Some? ==> r.value in rows && IsHL(r.value.hlType) && r.value.hlType != aType
    ensures passed && r.None? ==> forall x :: x in rows && IsHL(x.hlType) ==> x.hlType == aType
  {
    if |rows| == 0 then None
    else
      var x := rows[0];
      assert forall y :: y in rows ==> y == x || y in rows[1..];
      if !IsHL(x.hlType) then OppositeAfter(rows[1..], bWhen, aType, passed)
      else if !passed then OppositeAfter(rows[1..], bWhen, aType, x.when == bWhen)
      else if x.hlType != aType then Some(x)
      else OppositeAfter(rows[1..], bWhen, aType, passed)
  }

  /** When `b` is the first H/L row, the search starts right after it. */
  lemma {:induction false} OppositeAfterFirst(rows: seq<TideRow>, k: nat, aType: string)
    requires FirstHLIndex(rows) == Some(k)
    ensures OppositeAfter(rows, rows[k].when, aType, false) == OppositeAfter(rows[k + 1..], rows[k].when, aType, true)
    decreases k
  {
    if k > 0 {
      assert FirstHLIndex(rows[1..]) == Some(k - 1);
      OppositeAfterFirst(rows[1..], k - 1, aType);
      assert rows[1..][k - 1] == rows[k];
      assert rows[1..][k..] == rows[k + 1..];
    }
  }

  /** The loop with `$passedFirst` that looks for an opposite high/low. */
  method OppositeAfterOf(rows: seq<TideRow>, bWhen: int, aType: string) returns (r: Option<TideRow>)
    ensures r == OppositeAfter(rows, bWhen, aType, false)
  {
    r := None;
    var passed := false;
    var i := 0;
    while i < |rows|
      invariant 0 <= i <= |rows|
      invariant OppositeAfter(rows[i..], bWhen, aType, passed) == OppositeAfter(rows, bWhen, aType, false)
    {
      var x := rows[i];
      assert rows[i..][1..] == rows[i + 1..];
      if !IsHL(x.hlType) {
        i := i + 1;
        continue;
      }
      if !passed {
        if x.when == bWhen {
          passed := true;
        }
        i := i + 1;
        continue;
      }
      if x.hlType != aType {
        r := Some(x);
        return;
      }
      i := i + 1;
    }
  }

  /** The first `n` high/low rows of `rows`, in order. */
  function TakeHL(rows: seq<TideRow>, n: nat): (r: seq<TideRow>)
    ensures |r| <= n
    ensures forall x :: x in r ==> x in rows && IsHL(x.hlType)
  {
    if n == 0 || |rows| == 0 then []
    else
      assert forall y :: y in rows[1..] ==> y in rows;
      if IsHL(rows[0].hlType) then [rows[0]] + TakeHL(rows[1..], n - 1)
      else TakeHL(rows[1..], n)
  }

  /** The first high/low collected is the first high/low of the rows. */
  lemma {:induction false} TakeHLStartsWithFirst(rows: seq<TideRow>, n: nat)
    requires |TakeHL(rows, n)| > 0
    ensures FirstHL(rows) == Some(TakeHL(rows, n)[0])
  {
    if !IsHL(rows[0].hlType) {
      TakeHLStartsWithFirst(rows[1..], n);
    }
  }

  /** The loop that collects the first two high/low rows. */
  method FirstTwoHLOf(rows: seq<TideRow>) returns (hls: seq<TideRow>)
    ensures hls == TakeHL(rows, 2)
  {
    hls := [];
    var i := 0;
    while i < |rows|
      invariant 0 <= i <= |rows| && |hls| < 2
      invariant hls + TakeHL(rows[i..], 2 - |hls|) == TakeHL(rows, 2)
    {
      assert rows[i..][1..] == rows[i + 1..];
      if IsHL(rows[i].hlType) {
        hls := hls + [rows[i]];
      }
      if |hls| >= 2 {
        assert hls == TakeHL(rows, 2);
        return;
      }
      i := i + 1;
    }
  }

  // ---------------------------------------------------------------------
  // The tide window
  // ---------------------------------------------------------------------

  datatype MidPoint = MidPoint(between: string, t: int, heightFt: real, heightM: real)

  /** `within_window`: which phase is within the window around now. */
  datatype Within = Within(h: bool, l: bool, mPlus: bool, mMinus: bool)

  datatype TideWindow =
    | NoHlEvents
    | Window(prev: Option<TideRow>, next: Option<TideRow>, mid: Option<MidPoint>, within: Within)

  /** `L→H` for a low then a high, `H→L` for a high then a low. */
  function Between(a: TideRow, b: TideRow): (r: Option<string>)
    ensures r == Some(LowToHigh) <==> a.hlType == "L" && b.hlType == "H"
    ensures r == Some(HighToLow) <==> a.hlType == "H" && b.hlType == "L"
    ensures r.None? <==> !(a.hlType == "L" && b.hlType == "H") && !(a.hlType == "H" && b.hlType == "L")
  {
    if a.hlType == "L" && b.hlType == "H" then Some(LowToHigh)
    else if a.hlType == "H" && b.hlType == "L" then Some(HighToLow)
    else None
  }

  /** `(int) round(abs(x - y) / 60) <= windowMin`. */
  function WithinMinutes(now: int, t: int, windowMin: int): (r: bool)
    ensures windowMin >= 0 ==> (r <==> Abs(now - t) < 60 * windowMin + 30)
    ensures windowMin < 0 ==> !r
  {
    RoundHalfAway(Abs(now - t) as real / 60.0) <= windowMin
  }

  /** The endpoints `a` and `b` the mid-tide is computed from. */
  function WindowEnds(prev: Option<TideRow>, nexts: seq<TideRow>): (r: (Option<TideRow>, Option<TideRow>))
  {
    var b0 := FirstHL(nexts);
    var b1 :=
      if prev.Some? && b0.Some? && prev.value.hlType == b0.value.hlType then
        var o := OppositeAfter(nexts, b0.value.when, prev.value.hlType, false);
        if o.Some? then o else b0
      else b0;
    var hls := TakeHL(nexts, 2);
    if prev.None? && b1.Some? && |hls| >= 2 then (Some(hls[0]), Some(hls[1]))
    else (prev, b1)
  }

  /** The instant a `Y-m-d H:i:00` timestamp shows: the start of its minute. */
  function MinuteOf(t: int): (r: int)
    ensures r <= t < r + 60 && r % 60 == 0
  {
    t - t % 60
  }

  /** `(int) floor((ta + tb) / 2)`: the instant halfway between two events. */
  function MidInstant(a: TideRow, b: TideRow): (r: int)
    ensures Min(a.when, b.when) <= r <= Max(a.when, b.when)
  {
    (a.when + b.when) / 2
  }

  /** A height rounded to three places is within half a thousandth of it. */
  lemma RoundToThreeClose(x: real)
    ensures AbsR(RoundTo(x, 3) - x) <= 0.0005
  {
    assert DecimalScale(3) == 1000.0;
    RoundScaledClose(x, 1000.0);
  }

  /**
   * The mid-tide of two endpoints, when they are a high and a low: its
   * time is shown to the minute and its heights are the averages to three
   * places.
   */
  function MidOf(a: TideRow, b: TideRow): (r: Option<MidPoint>)
    ensures r.Some? <==> Between(a, b).Some?
    ensures r.Some? ==> Some(r.value.between) == Between(a, b)
    ensures r.Some? ==> r.value.t <= MidInstant(a, b) < r.value.t + 60
    ensures r.Some? ==> AbsR(r.value.heightFt - (a.heightFt + b.heightFt) / 2.0) <= 0.0005
    ensures r.Some? ==> AbsR(r.value.heightM - (a.heightM + b.heightM) / 2.0) <= 0.0005
  {
    var between := Between(a, b);
    RoundToThreeClose((a.heightFt + b.heightFt) / 2.0);
    RoundToThreeClose((a.heightM + b.heightM) / 2.0);
    if between.None? then None
    else Some(MidPoint(between.value, MinuteOf(MidInstant(a, b)),
                       RoundTo((a.heightFt + b.heightFt) / 2.0, 3),
                       RoundTo((a.heightM + b.heightM) / 2.0, 3)))
  }

  /** The window given the walked-back `prev` and the rows looked ahead. */
  function WindowOf(prev: Option<TideRow>, nexts: seq<TideRow>, now: int, windowMin: int): (r: TideWindow)
  {
    var nextHL := FirstHL(nexts);
    var ends := WindowEnds(prev, nexts);
    var mid := if ends.0.Some? && ends.1.Some? then MidOf(ends.0.value, ends.1.value) else None;
    var nearNext := nextHL.Some? && WithinMinutes(now, nextHL.value.when, windowMin);
    var nearMid := mid.Some? && WithinMinutes(now, MidInstant(ends.0.value, ends.1.value), windowMin);
    Window(ends.0, nextHL, mid,
           Within(nearNext && nextHL.value.hlType == "H",
                  nearNext && nextHL.value.hlType == "L",
                  nearMid && mid.value.between == LowToHigh,
                  nearMid && mid.value.between == HighToLow))
  }

  /** `tideWindowForStation` as a function of the table. */
  function TideWindowSpec(table: seq<TideRow>, now: int, windowMin: int): (r: TideWindow)
    ensures r.NoHlEvents? <==>
      PrevForWindow(table, now).None? && FirstHL(GetNextHL(table, now, WindowLookAhead)).None?
    ensures r.Window? && r.next.Some? ==>
      r.next.value in table && IsHL(r.next.value.hlType) && r.next.value.when >= now
    ensures r.Window? && r.prev.Some? ==> r.prev.value in table && IsHL(r.prev.value.hlType)
    ensures r.Window? ==> !(r.within.h && r.within.l) && !(r.within.mPlus && r.within.mMinus)
    ensures r.Window? && r.within.h ==> r.next.Some? && r.next.value.hlType == "H"
    ensures r.Window? && r.within.l ==> r.next.Some? && r.next.value.hlType == "L"
    ensures r.Window? && r.within.mPlus ==> r.mid.Some? && r.mid.value.between == LowToHigh
    ensures r.Window? && r.within.mMinus ==> r.mid.Some? && r.mid.value.between == HighToLow
    ensures r.Window? ==>
      (r.within.h <==> r.next.Some? && r.next.value.hlType == "H" && WithinMinutes(now, r.next.value.when, windowMin))
    ensures r.Window? ==>
      (r.within.l <==> r.next.Some? && r.next.value.hlType == "L" && WithinMinutes(now, r.next.value.when, windowMin))
    ensures r.Window? && r.mid.Some? ==>
      var e := WindowEnds(PrevForWindow(table, now), GetNextHL(table, now, WindowLookAhead));
      e.0.Some? && e.1.Some? && r.mid == MidOf(e.0.value, e.1.value) &&
      (r.within.mPlus <==>
        r.mid.value.between == LowToHigh && WithinMinutes(now, MidInstant(e.0.value, e.1.value), windowMin)) &&
      (r.within.mMinus <==>
        r.mid.value.between == HighToLow && WithinMinutes(now, MidInstant(e.0.value, e.1.value), windowMin))
    ensures r.Window? && (r.within.h || r.within.l) ==>
      r.next.Some? && windowMin >= 0 && Abs(now - r.next.value.when) < 60 * windowMin + 30
    ensures r.Window? && (r.within.mPlus || r.within.mMinus) ==>
      r.mid.Some? && windowMin >= 0 &&
      r.mid.value.t - 60 * windowMin - 30 < now < r.mid.value.t + 60 * windowMin + 90
  {
    var prev := PrevForWindow(table, now);
    var nexts := GetNextHL(table, now, WindowLookAhead);
    var nextHL := FirstHL(nexts);
    if prev.None? && nextHL.None? then NoHlEvents
    else WindowOf(prev, nexts, now, windowMin)
  }

  /** `tideWindowForStation`. */
  method TideWindowForStation(table: seq<TideRow>, now: int, windowMin: int) returns (w: TideWindow)
    ensures w == TideWindowSpec(table, now, windowMin)
  {
    var prev := WalkBack(table, now);
    var nexts := GetNextHL(table, now, WindowLookAhead);
    var nextHL := FirstHLOf(nexts);
    if prev.None? && nextHL.None? {
      return NoHlEvents;
    }
    var a := prev;
    var b := nextHL;
    if a.Some? && b.Some? && a.value.hlType == b.value.hlType {
      var o := OppositeAfterOf(nexts, b.value.when, a.value.hlType);
      if o.Some? {
        b := o;
      }
    }
    if a.None? && b.Some? {
      var hls := FirstTwoHLOf(nexts);
      if |hls| >= 2 {
        a := Some(hls[0]);
        b := Some(hls[1]);
      }
    }
    assert (a, b) == WindowEnds(prev, nexts);
    var mid: Option<MidPoint> := None;
    if a.Some? && b.Some? {
      mid := MidOf(a.value, b.value);
    }
    var within := Within(false, false, false, false);
    if nextHL.Some? {
      var near := WithinMinutes(now, nextHL.value.when, windowMin);
      if nextHL.value.hlType == "H" {
        within := within.(h := near);
      } else if nextHL.value.hlType == "L" {
        within := within.(l := near);
      }
    }
    if mid.Some? {
      var near := WithinMinutes(now, MidInstant(a.value, b.value), windowMin);
      if mid.value.between == LowToHigh {
        within := within.(mPlus := near);
      }
      if mid.value.between == HighToLow {
        within := within.(mMinus := near);
      }
    }
    w := Window(a, nextHL, mid, within);
  }

  /**
   * The same-type rule: when the previous and next events are both highs
   * (or both lows), the mid-tide is taken towards the first later event of
   * the other type, when one is in the rows looked ahead.
   */
  lemma SameTypeUsesOpposite(prev: TideRow, nexts: seq<TideRow>)
    requires FirstHL(nexts).Some? && FirstHL(nexts).value.hlType == prev.hlType
    ensures var k := FirstHLIndex(nexts).value;
      var o := OppositeAfter(nexts[k + 1..], nexts[k].when, prev.hlType, true);
      WindowEnds(Some(prev), nexts) == (Some(prev), if o.Some? then o else FirstHL(nexts))
  {
    var k := FirstHLIndex(nexts).value;
    var b0 := FirstHL(nexts);
    assert b0 == Some(nexts[k]);
    var o := OppositeAfter(nexts, nexts[k].when, prev.hlType, false);
    assert o == OppositeAfter(nexts[k + 1..], nexts[k].when, prev.hlType, true) by {
      OppositeAfterFirst(nexts, k, prev.hlType);
    }
    assert WindowEnds(Some(prev), nexts) == (Some(prev), if o.Some? then o else b0);
  }

  /**
   * Without a previous high/low but with two ahead, the window's `prev` is
   * the first high/low ahead, the same event as its `next`.
   */
  lemma NoPrevUsesTwoAhead(table: seq<TideRow>, now: int, windowMin: int)
    requires PrevForWindow(table, now).None?
    requires |TakeHL(GetNextHL(table, now, WindowLookAhead), 2)| == 2
    ensures var w := TideWindowSpec(table, now, windowMin);
      w.Window? && w.prev.Some? && w.prev == w.next
  {
    var nexts := GetNextHL(table, now, WindowLookAhead);
    TakeHLStartsWithFirst(nexts, 2);
  }

  // ---------------------------------------------------------------------
  // The tide state
  // ---------------------------------------------------------------------

  datatype TideState =
    | NoState
    | Slack(state: string, code: string, start: int, end: int, peak: int)
    | Flow(flow: Option<string>, flowCode: Option<string>, prev: TideRow, next: TideRow,
           mid: int, midLabel: Option<string>, slackMinutes: int)

  /** `$checkSlack`: a slack window around `row` when now is within `slackMin` minutes of it. */
  function CheckSlack(row: TideRow, name: string, now: int, slackMin: int): (r: Option<TideState>)
    ensures r.Some? <==> Abs(now - row.when) <= 60 * slackMin
    ensures r.Some? ==> r.value.Slack? && r.value.start <= r.value.peak <= r.value.end
    ensures r.Some? ==> r.value.peak == row.when && r.value.state == name
  {
    if (Abs(now - row.when) as real / 60.0) <= slackMin as real then
      Some(Slack(name, if name == "High" then "H" else "L",
                 row.when - 60 * slackMin, row.when + 60 * slackMin, row.when))
    else None
  }

  /** `(int)` of the halved sum lies between the two times. */
  lemma TruncHalfBetween(a: int, b: int)
    ensures Min(a, b) <= TruncDiv(a + b, 2) <= Max(a, b)
  {
  }

  /** Slack at `row` if it is a high or a low and now is within `slackMin` minutes of it. */
  function SlackAt(row: Option<TideRow>, now: int, slackMin: int): (r: Option<TideState>)
    ensures r.Some? <==> row.Some? && IsHL(row.value.hlType) && Abs(now - row.value.when) <= 60 * slackMin
    ensures r.Some? ==> r.value.Slack? && r.value.peak == row.value.when
    ensures r.Some? ==> (r.value.state == "High" <==> row.value.hlType == "H")
    ensures r.Some? ==> (r.value.state == "Low" <==> row.value.hlType == "L")
    ensures r.Some? ==> r.value.code == row.value.hlType
    ensures r.Some? ==> r.value.start == r.value.peak - 60 * slackMin && r.value.end == r.value.peak + 60 * slackMin
  {
    if row.Some? && row.value.hlType == "H" then CheckSlack(row.value, "High", now, slackMin)
    else if row.Some? && row.value.hlType == "L" then CheckSlack(row.value, "Low", now, slackMin)
    else None
  }

  /** The first slack hit, checked in the order previous high, previous low, next high, next low. */
  function SlackHit(prev: Option<TideRow>, next: Option<TideRow>, now: int, slackMin: int): (r: Option<TideState>)
    ensures r == OrElse(SlackAt(prev, now, slackMin), SlackAt(next, now, slackMin))
  {
    var c1 := if prev.Some? && prev.value.hlType == "H" then CheckSlack(prev.value, "High", now, slackMin) else None;
    var c2 := if prev.Some? && prev.value.hlType == "L" then CheckSlack(prev.value, "Low", now, slackMin) else None;
    var c3 := if next.Some? && next.value.hlType == "H" then CheckSlack(next.value, "High", now, slackMin) else None;
    var c4 := if next.Some? && next.value.hlType == "L" then CheckSlack(next.value, "Low", now, slackMin) else None;
    OrElse(c1, OrElse(c2, OrElse(c3, c4)))
  }

  /** `stateForStation` given the previous row and the rows looked ahead. */
  function StateOf(prev: Option<TideRow>, nexts: seq<TideRow>, now: int, slackMin: int): (r: TideState)
    ensures r.NoState? <==> (prev.None? || FirstHL(nexts).None?) && SlackHit(prev, FirstHL(nexts), now, slackMin).None?
    ensures r.Slack? ==> Some(r) == SlackHit(prev, FirstHL(nexts), now, slackMin)
    ensures r.Flow? ==> prev == Some(r.prev) && FirstHL(nexts) == Some(r.next)
    ensures r.Flow? ==> SlackAt(prev, now, slackMin).None? && SlackAt(FirstHL(nexts), now, slackMin).None?
    ensures r.Flow? ==> (r.flow == Some("Incoming") <==> r.prev.hlType == "L" && r.next.hlType == "H")
    ensures r.Flow? ==> (r.flow == Some("Outgoing") <==> r.prev.hlType == "H" && r.next.hlType == "L")
    ensures r.Flow? ==> Min(r.prev.when, r.next.when) <= r.mid <= Max(r.prev.when, r.next.when)
  {
    var next := FirstHL(nexts);
    if prev.None? && next.None? then NoState
    else
      var hit := SlackHit(prev, next, now, slackMin);
      if hit.Some? then hit.value
      else if prev.Some? && next.Some? then
        var p := prev.value;
        var n := next.value;
        var mid := TruncDiv(p.when + n.when, 2);
        TruncHalfBetween(p.when, n.when);
        if p.hlType == "L" && n.hlType == "H" then Flow(Some("Incoming"), Some("IN"), p, n, mid, Some("M+"), slackMin)
        else if p.hlType == "H" && n.hlType == "L" then Flow(Some("Outgoing"), Some("OUT"), p, n, mid, Some("M-"), slackMin)
        else Flow(None, None, p, n, mid, None, slackMin)
      else NoState
  }

  /** `stateForStation` as a function of the table. */
  function StateSpec(table: seq<TideRow>, now: int, slackMin: int): (r: TideState)
    ensures r.Flow? ==> r.prev.when < now <= r.next.when && r.prev.when <= r.mid <= r.next.when
  {
    StateOf(GetPrevHL(table, now), GetNextHL(table, now, StateLookAhead), now, slackMin)
  }

  /**
   * A slack state is reported exactly when now is within `slackMin` minutes
   * of the previous row (if a high or low) or of the next high/low; the
   * previous one wins, and the code is the event's type.
   */
  lemma SlackWhenNearEvent(table: seq<TideRow>, now: int, slackMin: int)
    ensures var prev := GetPrevHL(table, now);
      var next := FirstHL(GetNextHL(table, now, StateLookAhead));
      var r := StateSpec(table, now, slackMin);
      (r.Slack? <==> SlackAt(prev, now, slackMin).Some? || SlackAt(next, now, slackMin).Some?) &&
      (SlackAt(prev, now, slackMin).Some? ==> r.Slack? && r.peak == prev.value.when && r.code == prev.value.hlType) &&
      (r.Slack? ==> Abs(now - r.peak) <= 60 * slackMin && r.end - r.start == 120 * slackMin)
  {
  }

  /** `stateForStation`. */
  method StateForStation(table: seq<TideRow>, now: int, slackMin: int) returns (s: TideState)
    ensures s == StateSpec(table, now, slackMin)
  {
    var prev := GetPrevHL(table, now);
    var nextList := GetNextHL(table, now, StateLookAhead);
    var next := FirstHLOf(nextList);
    ghost var spec := StateOf(prev, nextList, now, slackMin);
    assert spec == StateSpec(table, now, slackMin);
    if prev.None? && next.None? {
      return NoState;
    }
    var hit := SlackHit(prev, next, now, slackMin);
    if hit.Some? {
      return hit.value;
    }
    if prev.Some? && next.Some? {
      var p := prev.value;
      var n := next.value;
      var mid := TruncDiv(p.when + n.when, 2);
      if p.hlType == "L" && n.hlType == "H" {
        s := Flow(Some("Incoming"), Some("IN"), p, n, mid, Some("M+"), slackMin);
      } else if p.hlType == "H" && n.hlType == "L" {
        s := Flow(Some("Outgoing"), Some("OUT"), p, n, mid, Some("M-"), slackMin);
      } else {
        s := Flow(None, None, p, n, mid, None, slackMin);
      }
      return;
    }
    s := NoState;
  }
}
