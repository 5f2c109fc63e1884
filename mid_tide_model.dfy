/**
 * `Models\MidTideModel::nextMid`: the next mid-tide of a station, halfway
 * between the last high/low before now and the first high/low from now
 * on, labelled `M+` (rising, low to high) or `M-` (falling).
 *
 * The station's table is its rows in `t_utc` order; "now" (the clock,
 * to the minute) is a parameter. The local-time strings are not modelled.
 */
module MidTideModel {
  import opened Common
  import opened Php
  import opened NoaaTideRepository
  import opened TidePhaseService

  /** The rows of one type, in table order (`WHERE hl_type = ...`). */
  function OfKind(table: seq<TideRow>, kind: string): (r: seq<TideRow>)
    ensures forall x :: x in r <==> x in table && x.hlType == kind
  {
    if |table| == 0 then []
    else
      var rest := OfKind(table[1..], kind);
      assert forall x :: x in table <==> x == table[0] || x in table[1..];
      if table[0].hlType == kind then [table[0]] + rest else rest
  }

  /** The highs and lows, in table order (`WHERE hl_type='H' OR hl_type='L'`). */
  function HighsAndLows(table: seq<TideRow>): (r: seq<TideRow>)
    ensures forall x :: x in r <==> x in table && IsHL(x.hlType)
  {
    if |table| == 0 then []
    else
      var rest := HighsAndLows(table[1..]);
      assert forall x :: x in table <==> x == table[0] || x in table[1..];
      if IsHL(table[0].hlType) then [table[0]] + rest else rest
  }

  /** Keeping the rows of one type keeps a time-ordered table ordered. */
  lemma {:induction false} OfKindOrdered(table: seq<TideRow>, kind: string)
    requires TimeOrdered(table)
    ensures TimeOrdered(OfKind(table, kind))
    decreases |table|
  {
    if |table| > 0 {
      var tail := table[1..];
      assert TimeOrdered(tail) by {
        forall i, j | 0 <= i < j < |tail|
          ensures tail[i].when <= tail[j].when
        {
          assert tail[i] == table[i + 1] && tail[j] == table[j + 1];
        }
      }
      OfKindOrdered(tail, kind);
      forall x | x in tail
        ensures table[0].when <= x.when
      {
        var j :| 0 <= j < |tail| && tail[j] == x;
        assert table[j + 1] == x;
      }
    }
  }

  /** Keeping the highs and lows keeps a time-ordered table ordered. */
  lemma {:induction false} HighsAndLowsOrdered(table: seq<TideRow>)
    requires TimeOrdered(table)
    ensures TimeOrdered(HighsAndLows(table))
    decreases |table|
  {
    if |table| > 0 {
      var tail := table[1..];
      assert TimeOrdered(tail) by {
        forall i, j | 0 <= i < j < |tail|
          ensures tail[i].when <= tail[j].when
        {
          assert tail[i] == table[i + 1] && tail[j] == table[j + 1];
        }
      }
      HighsAndLowsOrdered(tail);
      forall x | x in tail
        ensures table[0].when <= x.when
      {
        var j :| 0 <= j < |tail| && tail[j] == x;
        assert table[j + 1] == x;
      }
    }
  }

  /** `x` is a row of `rows` at or after `t`, and no such row is earlier. */
  predicate EarliestFrom(rows: seq<TideRow>, t: int, x: TideRow)
  {
    x in rows && x.when >= t && forall y :: y in rows && y.when >= t ==> x.when <= y.when
  }

  /** The type a mid-tide should head to from `t`. */
  function Opposite(t: string): string
  {
    if t == "H" then "L" else "H"
  }

  datatype MidTide = MidTide(phase: string, midEpoch: int, heightFt: real, prev: TideRow, next: TideRow)

  /** The guard query: the first event of the type opposite to `prevType` strictly after `prevWhen`, if any. */
  function GuardFix(table: seq<TideRow>, prevType: string, prevWhen: int): seq<TideRow>
  {
    GetNextHL(OfKind(table, Opposite(prevType)), prevWhen + 1, 1)
  }

  /** The `next` endpoint: the first high/low from now, or the first event of the other type after `prev`. */
  function NextEnd(table: seq<TideRow>, p: TideRow, first: TideRow): (r: TideRow)
    ensures r == first || (r in table && r.hlType == Opposite(p.hlType) && r.when > p.when)
  {
    if p.hlType == first.hlType then
      var fix := GuardFix(table, p.hlType, p.when);
      if |fix| > 0 then fix[0] else first
    else first
  }

  /**
   * The mid-tide between `p` and `n`: the halved sum of their times,
   * truncated, within their span, and the average height to the cent.
   */
  function MidTideOf(p: TideRow, n: TideRow): (m: MidTide)
    ensures m.prev == p && m.next == n
    ensures m.phase == "M+" <==> p.hlType == "L" && n.hlType == "H"
    ensures m.phase == "M-" <==> !(p.hlType == "L" && n.hlType == "H")
    ensures Min(p.when, n.when) <= m.midEpoch <= Max(p.when, n.when)
    ensures AbsR(m.heightFt - (p.heightFt + n.heightFt) / 2.0) <= 0.005
  {
    TruncHalfBetween(p.when, n.when);
    RoundToTwoClose((p.heightFt + n.heightFt) / 2.0);
    MidTide(if p.hlType == "L" && n.hlType == "H" then "M+" else "M-",
            TruncDiv(p.when + n.when, 2),
            RoundTo((p.heightFt + n.heightFt) / 2.0, 2),
            p, n)
  }

  /** `nextMid`. */
  function NextMid(table: seq<TideRow>, now: int): (r: Option<MidTide>)
    ensures r.None? <==>
      (forall x :: x in table && IsHL(x.hlType) ==> x.when >= now) ||
      (forall x :: x in table && IsHL(x.hlType) ==> x.when < now)
    ensures r.Some? ==> r.value.prev in table && IsHL(r.value.prev.hlType) && r.value.prev.when < now
    ensures r.Some? ==> r.value.next in table && IsHL(r.value.next.hlType)
    ensures r.Some? ==> r.value == MidTideOf(r.value.prev, r.value.next)
  {
    var hls := HighsAndLows(table);
    var prev := GetPrevHL(hls, now);
    var nexts := GetNextHL(hls, now, 1);
    if prev.None? || |nexts| == 0 then
      assert forall i :: 0 <= i < |hls| ==> hls[i] in hls;
      None
    else
      var p := prev.value;
      var n := NextEnd(table, p, nexts[0]);
      Some(MidTideOf(p, n))
  }

  /**
   * The opposing guard: whenever the table has an event of the other type
   * after `prev`, the endpoints are a high and a low, so the label says
   * which way the tide runs.
   */
  lemma MidTideOpposes(table: seq<TideRow>, now: int, x: TideRow)
    requires NextMid(table, now).Some?
    requires var m := NextMid(table, now).value;
      x in table && x.hlType == Opposite(m.prev.hlType) && x.when > m.prev.when
    ensures var m := NextMid(table, now).value;
      m.next.hlType == Opposite(m.prev.hlType) &&
      (m.phase == "M+" <==> m.prev.hlType == "L")
  {
    var m := NextMid(table, now).value;
    var p := m.prev;
    var kind := OfKind(table, Opposite(p.hlType));
    assert x in kind;
    var j :| 0 <= j < |kind| && kind[j] == x;
    var fix := GetNextHL(kind, p.when + 1, 1);
    assert |fix| > 0;
  }

  /** Of the two types, the other one is `Opposite`. */
  lemma OppositeIsOther(t: string, u: string)
    requires IsHL(t) && IsHL(u)
    ensures u != t <==> u == Opposite(t)
  {
  }

  /** The two types are each other's opposite, so a type never opposes itself. */
  lemma OppositeDiffers(t: string)
    ensures Opposite(t) != t
  {
    if t == "H" {
      assert Opposite(t)[0] == 'L';
    }
  }

  /** The first row the query returns from a list of one type has that type. */
  lemma FirstHasKind(rows: seq<TideRow>, kind: string, t: int)
    requires forall x :: x in rows ==> x.hlType == kind
    requires |GetNextHL(rows, t, 1)| > 0
    ensures GetNextHL(rows, t, 1)[0].hlType == kind
  {
    assert GetNextHL(rows, t, 1)[0] in GetNextHL(rows, t, 1);
  }

  /** On a time-ordered list the first row the query returns is the earliest at or after `t`. */
  lemma FirstFromIsEarliest(rows: seq<TideRow>, t: int)
    requires TimeOrdered(rows)
    ensures |GetNextHL(rows, t, 1)| > 0 ==> EarliestFrom(rows, t, GetNextHL(rows, t, 1)[0])
  {
    AtOrAfterHeadIsEarliest(rows, t);
    if |GetNextHL(rows, t, 1)| > 0 {
      assert GetNextHL(rows, t, 1)[0] == AtOrAfter(rows, t)[0];
    }
  }

  /** An empty answer to the query means every row of the type is before `t`. */
  lemma NoneOfKindFrom(table: seq<TideRow>, kind: string, t: int)
    requires |GetNextHL(OfKind(table, kind), t, 1)| == 0
    ensures forall x :: x in table && x.hlType == kind ==> x.when < t
  {
    var rows := OfKind(table, kind);
    forall x | x in table && x.hlType == kind
      ensures x.when < t
    {
      assert x in rows;
      var i :| 0 <= i < |rows| && rows[i] == x;
    }
  }

  /** When the guard query finds an event, it becomes the endpoint, and it has the other type. */
  lemma NextEndTakesFix(table: seq<TideRow>, p: TideRow, first: TideRow)
    requires p.hlType == first.hlType && |GuardFix(table, p.hlType, p.when)| > 0
    ensures NextEnd(table, p, first) == GuardFix(table, p.hlType, p.when)[0]
    ensures NextEnd(table, p, first).hlType != p.hlType
  {
    FirstHasKind(OfKind(table, Opposite(p.hlType)), Opposite(p.hlType), p.when + 1);
    OppositeDiffers(p.hlType);
  }

  /**
   * When the first high/low from now has the type of `prev`, the guard
   * replaces it by the earliest event of the other type after `prev`, and
   * keeps it only when there is none.
   */
  lemma NextEndReplacesSameType(table: seq<TideRow>, p: TideRow, first: TideRow)
    requires TimeOrdered(table) && p.hlType == first.hlType
    ensures var n := NextEnd(table, p, first);
      (n.hlType != p.hlType ==> EarliestFrom(OfKind(table, Opposite(p.hlType)), p.when + 1, n)) &&
      (n.hlType == p.hlType ==> n == first && forall x :: x in table && x.hlType == Opposite(p.hlType) ==> x.when <= p.when)
  {
    if |GuardFix(table, p.hlType, p.when)| > 0 {
      NextEndTakesFix(table, p, first);
      GuardFixIsEarliest(table, p.hlType, p.when);
    } else {
      NoneOfKindFrom(table, Opposite(p.hlType), p.when + 1);
    }
  }

  /** The guard's fix, when there is one, is the earliest event of the other type after `prevWhen`. */
  lemma GuardFixIsEarliest(table: seq<TideRow>, prevType: string, prevWhen: int)
    requires TimeOrdered(table) && |GuardFix(table, prevType, prevWhen)| > 0
    ensures EarliestFrom(OfKind(table, Opposite(prevType)), prevWhen + 1, GuardFix(table, prevType, prevWhen)[0])
  {
    OfKindOrdered(table, Opposite(prevType));
    FirstFromIsEarliest(OfKind(table, Opposite(prevType)), prevWhen + 1);
  }

  /**
   * When the first high/low from now already has the other type, it is kept,
   * and it is the earliest event of that type after `prev`, since nothing
   * lies between `prev` and now.
   */
  lemma NextEndKeepsOtherType(table: seq<TideRow>, now: int, p: TideRow, first: TideRow)
    requires IsHL(p.hlType) && IsHL(first.hlType) && p.hlType != first.hlType
    requires first in table && p.when < now <= first.when
    requires forall x :: x in table && IsHL(x.hlType) && x.when < now ==> x.when <= p.when
    requires forall x :: x in table && IsHL(x.hlType) && x.when >= now ==> first.when <= x.when
    ensures NextEnd(table, p, first) == first
    ensures EarliestFrom(OfKind(table, Opposite(p.hlType)), p.when + 1, first)
  {
    var kind := OfKind(table, Opposite(p.hlType));
    assert first.hlType == Opposite(p.hlType);
    assert first in kind;
    forall y | y in kind && y.when >= p.when + 1
      ensures first.when <= y.when
    {
      assert y in table && IsHL(y.hlType);
    }
  }

  /** `prev` is the latest high/low before now (the `ORDER BY t_utc DESC LIMIT 1` query). */
  lemma NextMidPrevIsLatest(table: seq<TideRow>, now: int)
    requires TimeOrdered(table)
    ensures NextMid(table, now).Some? ==>
      forall x :: x in table && IsHL(x.hlType) && x.when < now ==> x.when <= NextMid(table, now).value.prev.when
  {
    if NextMid(table, now).Some? {
      var hls := HighsAndLows(table);
      HighsAndLowsOrdered(table);
      GetPrevHLIsLatest(hls, now);
      assert NextMid(table, now).value.prev == GetPrevHL(hls, now).value;
      forall x | x in table && IsHL(x.hlType) && x.when < now
        ensures x.when <= GetPrevHL(hls, now).value.when
      {
        var i :| 0 <= i < |hls| && hls[i] == x;
      }
    }
  }

  /**
   * On a time-ordered table the endpoints are the ones the queries mean:
   * `prev` is the latest high/low before now; `next` is the earliest event
   * of the other type after `prev` when it has the other type, and otherwise
   * the earliest high/low from now, with no event of the other type after
   * `prev` to replace it.
   */
  lemma NextMidEndpoints(table: seq<TideRow>, now: int)
    requires TimeOrdered(table)
    ensures NextMid(table, now).Some? ==>
      var m := NextMid(table, now).value;
      (forall x :: x in table && IsHL(x.hlType) && x.when < now ==> x.when <= m.prev.when) &&
      (m.next.hlType != m.prev.hlType ==> EarliestFrom(OfKind(table, Opposite(m.prev.hlType)), m.prev.when + 1, m.next)) &&
      (m.next.hlType == m.prev.hlType ==>
        EarliestFrom(HighsAndLows(table), now, m.next) &&
        forall x :: x in table && x.hlType == Opposite(m.prev.hlType) ==> x.when <= m.prev.when)
  {
    if NextMid(table, now).Some? {
      var hls := HighsAndLows(table);
      HighsAndLowsOrdered(table);
      NextMidPrevIsLatest(table, now);
      var p := GetPrevHL(hls, now).value;
      var first := GetNextHL(hls, now, 1)[0];
      FirstFromIsEarliest(hls, now);
      if p.hlType == first.hlType {
        NextEndReplacesSameType(table, p, first);
      } else {
        NextEndKeepsOtherType(table, now, p, first);
      }
      var m := NextMid(table, now).value;
      assert m.prev == p && m.next == NextEnd(table, p, first);
    }
  }
}
