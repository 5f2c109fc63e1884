/**
 * `Utilities\TidePreference::tidePrefMatch`: decides whether a surf spot's
 * tide preferences (high, low, mid rising `M+`, mid falling `M-`) are met
 * now, which preferred phase comes next and how many minutes away, and,
 * for spots without preferences, which tide marker comes next. The tide
 * window is memoised per station and hour.
 *
 * The tide window and the upcoming rows come from the `TidePhase` and
 * `TideRepo` classes, which are not part of this model: they are passed in
 * as functions. The great-circle distance is passed in the same way. The
 * shared pieces (`Prefs`, `MatchWindow`, ...) are also what
 * `TidePreferenceEvaluator` runs.
 */
module TidePreference {
  import opened Common
  import opened Php
  import opened NoaaTideRepository
  import opened TidePhaseService

  /** `PHP_INT_MAX` on a 64-bit build. */
  const PhpIntMax: int := 0x7FFF_FFFF_FFFF_FFFF

  /** The static tide stations, in the order the nearest search visits them. */
  const TideStations: seq<(string, real, real)> := [
    ("8720030", 30.6715, -81.4653),
    ("8720218", 30.3982, -81.3831),
    ("8720291", 30.2885, -81.3909)]

  /** The words (after trimming and lower-casing) that read as "yes". */
  const TruthyWords: set<string> := {"1", "y", "yes", "t", "true"}

  // ---------------------------------------------------------------------
  // Preferences
  // ---------------------------------------------------------------------

  /** The `$truthy` helper applied to `$spot[col] ?? null`. */
  function PrefTruthy(v: Option<PVal>): (r: bool)
    ensures v.None? ==> !r
    ensures v.Some? && v.value.PBool? ==> r == v.value.b
    ensures v.Some? && IsNumeric(v.value) ==> (r <==> IntCast(v.value) == 1)
    ensures v.Some? && v.value.PStr? && !IsNumericStr(v.value.s) ==> (r <==> Lower(Trim(v.value.s)) in TruthyWords)
  {
    if v.None? then false
    else
      match v.value
      case PBool(b) => b
      case PInt(_) => IntCast(v.value) == 1
      case PFloat(_) => IntCast(v.value) == 1
      case PStr(s) => if IsNumericStr(s) then IntCast(v.value) == 1 else Lower(Trim(s)) in TruthyWords
      case _ => false
  }

  datatype PrefSet = PrefSet(h: bool, l: bool, mPlus: bool, mMinus: bool)
  {
    /** `$hasPrefs`. */
    predicate Any() { h || l || mPlus || mMinus }
  }

  /** The four preference columns of a spot row. */
  function Prefs(spot: Row): (p: PrefSet)
    ensures forall code :: PhaseColumn(code).Some? ==>
      PrefFor(p, code) == PrefTruthy(Field(spot, PhaseColumn(code).value))
  {
    PrefSet(PrefTruthy(Field(spot, "H_tide")), PrefTruthy(Field(spot, "L_tide")),
            PrefTruthy(Field(spot, "M_plus_tide")), PrefTruthy(Field(spot, "M_minus_tide")))
  }

  /** The column `allowPhase` reads for a phase code. */
  function PhaseColumn(code: string): Option<string>
  {
    if code == "H" then Some("H_tide")
    else if code == "L" then Some("L_tide")
    else if code == "M+" then Some("M_plus_tide")
    else if code == "M-" then Some("M_minus_tide")
    else None
  }

  /** `allowPhase`: the phase's column, read as `(int)($spot[col] ?? 0) === 1`. */
  function AllowPhase(spot: Row, code: Option<string>): (r: bool)
    ensures r ==> code.Some? && PhaseColumn(code.value).Some?
    ensures r <==> (code.Some? && PhaseColumn(code.value).Some? &&
                    IntCast(Field(spot, PhaseColumn(code.value).value).UnwrapOr(PInt(0))) == 1)
  {
    if code.None? then false
    else
      var col := PhaseColumn(code.value);
      col.Some? && IntCast(Field(spot, col.value).UnwrapOr(PInt(0))) == 1
  }

  /** The flag `Prefs` sets for a phase code. */
  function PrefFor(p: PrefSet, code: string): bool
  {
    if code == "H" then p.h else if code == "L" then p.l
    else if code == "M+" then p.mPlus else if code == "M-" then p.mMinus else false
  }

  /**
   * For a column that is absent, null, a boolean or a number, `allowPhase`
   * agrees with the preference `tidePrefMatch` reads from it.
   */
  lemma AllowPhaseAgreesOnNumbers(spot: Row, code: string)
    requires PhaseColumn(code).Some?
    requires var v := Field(spot, PhaseColumn(code).value);
      v.None? || v.value.PBool? || IsNumeric(v.value)
    ensures AllowPhase(spot, Some(code)) == PrefFor(Prefs(spot), code)
  {
  }

  /** A preference the `$truthy` helper accepts is also a value `!empty` accepts. */
  lemma PrefTruthyIsTruthy(v: PVal)
    ensures PrefTruthy(Some(v)) ==> Truthy(v)
  {
    if v.PStr? && v.s == "0" {
      DigitsAreNumeric("0");
      assert DigitsValue("0") == 0;
    }
    if v.PStr? && v.s == "" {
      assert !IsNumericStr("") by {
        assert DecimalAt("", 0).None?;
      }
      assert Trim("") == "";
    }
  }

  /** A string starting with a letter holds no leading number. */
  lemma LetterStartsNoNumber(s: string)
    requires |s| > 0 && 'a' <= s[0] <= 'z'
    ensures !IsNumericStr(s) && LeadingFloat(s) == 0.0
  {
    assert SkipNumWs(s, 0) == 0;
    assert DigitRunEnd(s, 0) == 0;
    assert DecimalAt(s, 0).None?;
  }

  /** On a word such as `yes`, the two readings differ: a preference that `allowPhase` refuses. */
  lemma AllowPhaseRefusesYes(spot: Row)
    requires spot == map["H_tide" := PStr("yes")]
    ensures Prefs(spot).h && !AllowPhase(spot, Some("H"))
  {
    assert Field(spot, "H_tide") == Some(PStr("yes"));
    YesReadings();
  }

  lemma YesReadings()
    ensures PrefTruthy(Some(PStr("yes"))) && IntCast(PStr("yes")) == 0
  {
    LetterStartsNoNumber("yes");
    LowerWordIsClean("yes");
  }

  /** A word of lower-case letters is what `strtolower(trim(...))` makes of it. */
  lemma LowerWordIsClean(w: string)
    requires forall i :: 0 <= i < |w| ==> 'a' <= w[i] <= 'z'
    ensures Lower(Trim(w)) == w
  {
    TrimOfTrimmed(w);
    LowerOfNoCapitals(w);
  }

  // ---------------------------------------------------------------------
  // Minutes and the nearest station
  // ---------------------------------------------------------------------

  /** `$mins($a, $b)`: signed minutes from `a` to `b`, rounded half away from zero. */
  function Mins(a: int, b: int): (r: int)
    ensures r >= 0 <==> b - a > -30
    ensures AbsR(r as real - (b - a) as real / 60.0) <= 0.5
  {
    RoundHalfAway((b - a) as real / 60.0)
  }

  /** The first index of a smallest distance. */
  function NearestIndex(d: seq<real>): (k: nat)
    requires |d| > 0
    ensures k < |d|
    ensures forall j :: 0 <= j < |d| ==> d[k] <= d[j]
    ensures forall j :: 0 <= j < k ==> d[j] > d[k]
  {
    if |d| == 1 then 0
    else
      var k := NearestIndex(d[..|d| - 1]);
      assert forall j :: 0 <= j < |d| - 1 ==> d[..|d| - 1][j] == d[j];
      if d[|d| - 1] < d[k] then |d| - 1 else k
  }

  /** The distance from the spot to each station, in station order. */
  function Distances(lat: real, lon: real, distKm: (real, real, real, real) -> real): (d: seq<real>)
    ensures |d| == |TideStations|
  {
    seq(|TideStations|, j requires 0 <= j < |TideStations| => distKm(lat, lon, TideStations[j].1, TideStations[j].2))
  }

  /** No station is nearer to the spot than station `k`. */
  predicate NoneNearer(lat: real, lon: real, distKm: (real, real, real, real) -> real, k: nat)
    requires k < |TideStations|
  {
    forall j :: 0 <= j < |TideStations| ==>
      distKm(lat, lon, TideStations[k].1, TideStations[k].2) <= distKm(lat, lon, TideStations[j].1, TideStations[j].2)
  }

  /** The id of the station nearest to the spot; the first one on a tie. */
  function NearestId(lat: real, lon: real, distKm: (real, real, real, real) -> real): (id: string)
    ensures exists k :: 0 <= k < |TideStations| && TideStations[k].0 == id && NoneNearer(lat, lon, distKm, k)
  {
    var d := Distances(lat, lon, distKm);
    var k := NearestIndex(d);
    assert NoneNearer(lat, lon, distKm, k) by {
      forall j | 0 <= j < |TideStations|
        ensures distKm(lat, lon, TideStations[k].1, TideStations[k].2) <= distKm(lat, lon, TideStations[j].1, TideStations[j].2)
      {
        assert d[k] <= d[j];
      }
    }
    TideStations[k].0
  }

  /** The nearest-station loop. */
  method NearestStation(lat: real, lon: real, distKm: (real, real, real, real) -> real) returns (id: string)
    ensures id == NearestId(lat, lon, distKm)
  {
    var d := Distances(lat, lon, distKm);
    var best := 0;
    var nearestKm := distKm(lat, lon, TideStations[0].1, TideStations[0].2);
    var i := 1;
    assert d[..1] == [d[0]];
    while i < |TideStations|
      invariant 1 <= i <= |TideStations|
      invariant best == NearestIndex(d[..i]) && nearestKm == d[best]
    {
      var km := distKm(lat, lon, TideStations[i].1, TideStations[i].2);
      assert d[..i + 1][..i] == d[..i];
      if km < nearestKm {
        nearestKm := km;
        best := i;
      }
      i := i + 1;
    }
    assert d[..|TideStations|] == d;
    id := TideStations[best].0;
  }

  // ---------------------------------------------------------------------
  // Reading the window
  // ---------------------------------------------------------------------

  function NextT(w: TideWindow): Option<int>
    requires w.Window?
  {
    if w.next.Some? then Some(w.next.value.when) else None
  }

  function MidT(w: TideWindow): Option<int>
    requires w.Window?
  {
    if w.mid.Some? then Some(w.mid.value.t) else None
  }

  /**
   * The current-window match: a phase that is both preferred and within the
   * window; when several are, the later check wins (`M-` over `M+` over `L`
   * over `H`).
   */
  function MatchReason(w: TideWindow, p: PrefSet): (r: (Option<string>, Option<int>))
    requires w.Window?
    ensures r.0 == Some("M-") <==> w.within.mMinus && p.mMinus
    ensures r.0 == Some("M+") <==> w.within.mPlus && p.mPlus && !(w.within.mMinus && p.mMinus)
    ensures r.0 == Some("L") <==>
      w.within.l && p.l && !(w.within.mPlus && p.mPlus) && !(w.within.mMinus && p.mMinus)
    ensures r.0 == Some("H") <==>
      w.within.h && p.h && !(w.within.l && p.l) && !(w.within.mPlus && p.mPlus) && !(w.within.mMinus && p.mMinus)
    ensures r.0.None? ==> r.1.None?
    ensures r.0 == Some("H") || r.0 == Some("L") ==> r.1 == NextT(w)
    ensures r.0 == Some("M+") || r.0 == Some("M-") ==> r.1 == MidT(w)
  {
    var r0: (Option<string>, Option<int>) := (None, None);
    var r1 := if w.within.h && p.h then (Some("H"), NextT(w)) else r0;
    var r2 := if w.within.l && p.l then (Some("L"), NextT(w)) else r1;
    var r3 := if w.within.mPlus && p.mPlus then (Some("M+"), MidT(w)) else r2;
    if w.within.mMinus && p.mMinus then (Some("M-"), MidT(w)) else r3
  }

  // ---------------------------------------------------------------------
  // Upcoming events
  // ---------------------------------------------------------------------

  /** The position of the first row of type `kind`. */
  function FirstKindIndex(rows: seq<TideRow>, kind: string): (r: Option<nat>)
    ensures r.Some? ==> r.value < |rows| && rows[r.value].hlType == kind
    ensures r.Some? ==> forall j :: 0 <= j < r.value ==> rows[j].hlType != kind
    ensures r.None? <==> forall j :: 0 <= j < |rows| ==> rows[j].hlType != kind
  {
    if |rows| == 0 then None
    else if rows[0].hlType == kind then Some(0)
    else
      var t := FirstKindIndex(rows[1..], kind);
      if t.Some? then Some(t.value + 1) else None
  }

  /** The time of the first row of type `kind`. */
  function FirstKindTime(rows: seq<TideRow>, kind: string): Option<int>
  {
    var k := FirstKindIndex(rows, kind);
    if k.Some? then Some(rows[k.value].when) else None
  }

  /** The loop that takes the first high and the first low of the upcoming rows. */
  method FirstHighAndLow(rows: seq<TideRow>) returns (h: Option<int>, l: Option<int>)
    ensures h == FirstKindTime(rows, "H") && l == FirstKindTime(rows, "L")
  {
    h, l := None, None;
    var i := 0;
    while i < |rows|
      invariant 0 <= i <= |rows|
      invariant h.None? ==> forall j :: 0 <= j < i ==> rows[j].hlType != "H"
      invariant h.Some? ==> h == FirstKindTime(rows, "H")
      invariant l.None? ==> forall j :: 0 <= j < i ==> rows[j].hlType != "L"
      invariant l.Some? ==> l == FirstKindTime(rows, "L")
    {
      if rows[i].hlType == "H" && h.None? {
        assert FirstKindIndex(rows, "H") == Some(i);
        h := Some(rows[i].when);
      }
      if rows[i].hlType == "L" && l.None? {
        assert FirstKindIndex(rows, "L") == Some(i);
        l := Some(rows[i].when);
      }
      if h.Some? && l.Some? {
        return;
      }
      i := i + 1;
    }
  }

  /** The first position at or after `from` where a row of type `x` is followed by one of type `y`. */
  function PairIndex(rows: seq<TideRow>, x: string, y: string, from: nat): (r: Option<nat>)
    ensures r.Some? ==> (from <= r.value && r.value + 1 < |rows| &&
                         rows[r.value].hlType == x && rows[r.value + 1].hlType == y)
    ensures r.Some? ==> forall j :: from <= j < r.value ==> !(rows[j].hlType == x && rows[j + 1].hlType == y)
    ensures r.None? ==> forall j :: from <= j && j + 1 < |rows| ==> !(rows[j].hlType == x && rows[j + 1].hlType == y)
    decreases |rows| - from
  {
    if from + 1 >= |rows| then None
    else if rows[from].hlType == x && rows[from + 1].hlType == y then Some(from)
    else PairIndex(rows, x, y, from + 1)
  }

  /** The mid-time of the first `x` then `y` pair at or after `from` (`floor` of the halved sum). */
  function PairMid(rows: seq<TideRow>, x: string, y: string, from: nat): Option<int>
  {
    var k := PairIndex(rows, x, y, from);
    if k.Some? then Some((rows[k.value].when + rows[k.value + 1].when) / 2) else None
  }

  /** The next rising (`L`, `H`) or falling (`H`, `L`) mid-tide of the upcoming rows. */
  function FutureMid(rows: seq<TideRow>, x: string, y: string): Option<int>
  {
    PairMid(rows, x, y, 0)
  }

  /** The mids loop from position `i` on, with what it has found so far. */
  function MidsFrom(rows: seq<TideRow>, i: nat, plus: Option<int>, minus: Option<int>): (Option<int>, Option<int>)
    decreases |rows| - i
  {
    if i + 1 >= |rows| || (plus.Some? && minus.Some?) then (plus, minus)
    else
      var a := rows[i];
      var b := rows[i + 1];
      var mid := (a.when + b.when) / 2;
      var hl := IsHL(a.hlType) && IsHL(b.hlType);
      var plus' := if hl && plus.None? && a.hlType == "L" && b.hlType == "H" then Some(mid) else plus;
      var minus' := if hl && minus.None? && a.hlType == "H" && b.hlType == "L" then Some(mid) else minus;
      MidsFrom(rows, i + 1, plus', minus')
  }

  /** One step of the pair search: a match at `i`, or the search from `i + 1`. */
  lemma PairMidStep(rows: seq<TideRow>, x: string, y: string, i: nat)
    requires i + 1 < |rows|
    ensures PairMid(rows, x, y, i) ==
      if rows[i].hlType == x && rows[i + 1].hlType == y then Some((rows[i].when + rows[i + 1].when) / 2)
      else PairMid(rows, x, y, i + 1)
  {
  }

  /** The loop keeps the first rising pair. */
  lemma {:induction false} MidsFromPlus(rows: seq<TideRow>, i: nat, plus: Option<int>, minus: Option<int>)
    ensures MidsFrom(rows, i, plus, minus).0 == if plus.Some? then plus else PairMid(rows, "L", "H", i)
    decreases |rows| - i
  {
    if i + 1 < |rows| && !(plus.Some? && minus.Some?) {
      var a := rows[i];
      var b := rows[i + 1];
      var mid := (a.when + b.when) / 2;
      var hl := IsHL(a.hlType) && IsHL(b.hlType);
      var plus' := if hl && plus.None? && a.hlType == "L" && b.hlType == "H" then Some(mid) else plus;
      var minus' := if hl && minus.None? && a.hlType == "H" && b.hlType == "L" then Some(mid) else minus;
      assert MidsFrom(rows, i, plus, minus) == MidsFrom(rows, i + 1, plus', minus');
      MidsFromPlus(rows, i + 1, plus', minus');
      if plus.None? {
        PairMidStep(rows, "L", "H", i);
      }
    }
  }

  /** The loop keeps the first falling pair. */
  lemma {:induction false} MidsFromMinus(rows: seq<TideRow>, i: nat, plus: Option<int>, minus: Option<int>)
    ensures MidsFrom(rows, i, plus, minus).1 == if minus.Some? then minus else PairMid(rows, "H", "L", i)
    decreases |rows| - i
  {
    if i + 1 < |rows| && !(plus.Some? && minus.Some?) {
      var a := rows[i];
      var b := rows[i + 1];
      var mid := (a.when + b.when) / 2;
      var hl := IsHL(a.hlType) && IsHL(b.hlType);
      var plus' := if hl && plus.None? && a.hlType == "L" && b.hlType == "H" then Some(mid) else plus;
      var minus' := if hl && minus.None? && a.hlType == "H" && b.hlType == "L" then Some(mid) else minus;
      assert MidsFrom(rows, i, plus, minus) == MidsFrom(rows, i + 1, plus', minus');
      MidsFromMinus(rows, i + 1, plus', minus');
      if minus.None? {
        PairMidStep(rows, "H", "L", i);
      }
    }
  }

  /** The loop that derives the next rising and falling mid-tides from the upcoming rows. */
  method FutureMids(rows: seq<TideRow>) returns (plus: Option<int>, minus: Option<int>)
    ensures plus == FutureMid(rows, "L", "H") && minus == FutureMid(rows, "H", "L")
  {
    plus, minus := None, None;
    var i := 0;
    while i + 1 < |rows| && (plus.None? || minus.None?)
      invariant MidsFrom(rows, i, plus, minus) == MidsFrom(rows, 0, None, None)
      decreases |rows| - i
    {
      var a := rows[i];
      var b := rows[i + 1];
      if IsHL(a.hlType) && IsHL(b.hlType) {
        var mid := (a.when + b.when) / 2;
        if plus.None? && a.hlType == "L" && b.hlType == "H" {
          plus := Some(mid);
        }
        if minus.None? && a.hlType == "H" && b.hlType == "L" {
          minus := Some(mid);
        }
      }
      i := i + 1;
    }
    MidsFromPlus(rows, 0, None, None);
    MidsFromMinus(rows, 0, None, None);
  }

  // ---------------------------------------------------------------------
  // The next preferred phase
  // ---------------------------------------------------------------------

  /** A phase and the time it happens, when known. */
  datatype Candidate = Candidate(phase: string, t: Option<int>)

  /** The candidates in the order `$consider` is called on them. */
  function Candidates(p: PrefSet, w: TideWindow, h: Option<int>, l: Option<int>,
                      plus: Option<int>, minus: Option<int>): seq<Candidate>
    requires w.Window?
  {
    var midPlus := w.mid.Some? && w.mid.value.between == LowToHigh;
    var midMinus := w.mid.Some? && w.mid.value.between == HighToLow;
    (if p.h then [Candidate("H", h)] else []) +
    (if p.l then [Candidate("L", l)] else []) +
    (if p.mPlus then (if midPlus then [Candidate("M+", MidT(w))] else []) + [Candidate("M+", plus)] else []) +
    (if p.mMinus then (if midMinus then [Candidate("M-", MidT(w))] else []) + [Candidate("M-", minus)] else [])
  }

  /** The best so far: the phase, its time and `$bestDelta`. */
  datatype Best = Best(phase: Option<string>, t: Option<int>, delta: int)

  const NoBest: Best := Best(None, None, PhpIntMax)

  /** A candidate's minutes from now, when it is not in the past. */
  function DeltaOf(c: Candidate, now: int): Option<int>
  {
    if c.t.Some? && Mins(now, c.t.value) >= 0 then Some(Mins(now, c.t.value)) else None
  }

  /** `$consider`: take the candidate when it is not past and strictly sooner than the best so far. */
  function Consider(b: Best, c: Candidate, now: int): Best
  {
    if c.t.None? then b
    else
      var d := Mins(now, c.t.value);
      if d >= 0 && d < b.delta then Best(Some(c.phase), c.t, d) else b
  }

  /** The `$consider` calls in order. */
  function PickBest(cs: seq<Candidate>, now: int, b: Best): Best
    decreases |cs|
  {
    if |cs| == 0 then b else PickBest(cs[1..], now, Consider(b, cs[0], now))
  }

  /** The candidate `c` is the one recorded in `r`, at `r`'s delta. */
  predicate Records(r: Best, c: Candidate, now: int)
  {
    DeltaOf(c, now) == Some(r.delta) && r.phase == Some(c.phase) && r.t == c.t
  }

  lemma {:induction false} PickBestSpec(cs: seq<Candidate>, now: int, b: Best)
    ensures var r := PickBest(cs, now, b);
      r.delta <= b.delta &&
      (forall j :: 0 <= j < |cs| && DeltaOf(cs[j], now).Some? ==> r.delta <= DeltaOf(cs[j], now).value) &&
      (r == b || exists i :: (0 <= i < |cs| && Records(r, cs[i], now) && r.delta < b.delta &&
                              forall j :: 0 <= j < i && DeltaOf(cs[j], now).Some? ==> DeltaOf(cs[j], now).value > r.delta))
    decreases |cs|
  {
    if |cs| > 0 {
      var b' := Consider(b, cs[0], now);
      PickBestSpec(cs[1..], now, b');
      var r := PickBest(cs, now, b);
      assert r == PickBest(cs[1..], now, b');
      forall j | 0 <= j < |cs| && DeltaOf(cs[j], now).Some?
        ensures r.delta <= DeltaOf(cs[j], now).value
      {
        if j > 0 {
          assert cs[1..][j - 1] == cs[j];
        }
      }
      if r != b {
        if r == b' {
          assert Records(r, cs[0], now);
        } else {
          var i :| 0 <= i < |cs[1..]| && Records(r, cs[1..][i], now) && r.delta < b'.delta &&
            forall j :: 0 <= j < i && DeltaOf(cs[1..][j], now).Some? ==> DeltaOf(cs[1..][j], now).value > r.delta;
          assert Records(r, cs[i + 1], now);
          forall j | 0 <= j < i + 1 && DeltaOf(cs[j], now).Some?
            ensures DeltaOf(cs[j], now).value > r.delta
          {
            if j > 0 {
              assert cs[1..][j - 1] == cs[j];
            }
          }
        }
      }
    }
  }

  /**
   * The next preferred phase is the candidate with the fewest minutes ahead
   * (not in the past, and short of `PHP_INT_MAX`); on a tie, the one
   * considered first. There is none exactly when no candidate qualifies.
   */
  lemma NextPrefIsSoonest(cs: seq<Candidate>, now: int)
    ensures var r := PickBest(cs, now, NoBest);
      (r.phase.None? <==> forall j :: 0 <= j < |cs| && DeltaOf(cs[j], now).Some? ==> DeltaOf(cs[j], now).value >= PhpIntMax) &&
      (r.phase.Some? ==> exists i :: (0 <= i < |cs| && Records(r, cs[i], now) &&
                                      (forall j :: 0 <= j < |cs| && DeltaOf(cs[j], now).Some? ==> r.delta <= DeltaOf(cs[j], now).value) &&
                                      (forall j :: 0 <= j < i && DeltaOf(cs[j], now).Some? ==> DeltaOf(cs[j], now).value > r.delta)))
  {
    PickBestSpec(cs, now, NoBest);
    var r := PickBest(cs, now, NoBest);
    if r.phase.None? {
      assert r == NoBest;
    }
  }

  // ---------------------------------------------------------------------
  // The marker for spots without preferences
  // ---------------------------------------------------------------------

  /**
   * The next marker: for a spot without preferences, the window's mid-tide
   * when it is not past, else the next high or low.
   */
  function Marker(p: PrefSet, w: TideWindow, now: int): (r: (Option<string>, Option<int>))
    requires w.Window?
    ensures p.Any() ==> r == (None, None)
    ensures r.1.Some? ==>
      (w.mid.Some? && r.1 == MidT(w) && Mins(now, w.mid.value.t) >= 0 &&
       (r.0 == Some("M+") <==> w.mid.value.between == LowToHigh) &&
       (r.0 == Some("M-") <==> w.mid.value.between == HighToLow)) ||
      (w.next.Some? && r == (Some(w.next.value.hlType), NextT(w)))
    ensures !p.Any() && w.mid.Some? && Mins(now, w.mid.value.t) >= 0 && Truthy(PStr(w.mid.value.between)) ==>
      r.1 == MidT(w) &&
      (r.0 == Some("M+") <==> w.mid.value.between == LowToHigh) &&
      (r.0 == Some("M-") <==> w.mid.value.between == HighToLow)
    ensures !p.Any() && !(w.mid.Some? && Mins(now, w.mid.value.t) >= 0 && Truthy(PStr(w.mid.value.between))) ==>
      r == (if w.next.Some? && Truthy(PStr(w.next.value.hlType)) then (Some(w.next.value.hlType), NextT(w)) else (None, None))
  {
    if p.Any() then (None, None)
    else if w.mid.Some? && Mins(now, w.mid.value.t) >= 0 && Truthy(PStr(w.mid.value.between)) then
      var b := w.mid.value.between;
      (if b == LowToHigh then Some("M+") else if b == HighToLow then Some("M-") else None, MidT(w))
    else if w.next.Some? && Truthy(PStr(w.next.value.hlType)) then (Some(w.next.value.hlType), NextT(w))
    else (None, None)
  }

  // ---------------------------------------------------------------------
  // The whole match
  // ---------------------------------------------------------------------

  /**
   * What `tidePrefMatch` returns: `closest_pref*` and `next_pref*` carry the
   * same values and are one field each here; times are instants.
   */
  datatype PrefMatch = PrefMatch(
    ok: bool, hasPrefs: bool, tide: Option<TideWindow>,
    reason: Option<string>, reasonT: Option<int>,
    nextPref: Option<string>, nextPrefT: Option<int>, delta: Option<int>,
    marker: Option<string>, markerT: Option<int>,
    debug: string)

  /** An early return: reported as a match, with nothing else. */
  function Skipped(hasPrefs: bool, debug: string): PrefMatch
  {
    PrefMatch(true, hasPrefs, None, None, None, None, None, None, None, None, debug)
  }

  const NoHlEventsError: string := "no_hl_events"

  /** How many upcoming rows the next-preference search reads. */
  const AheadRows: nat := 6

  /** `tidePrefMatch` once the window and the upcoming rows are known. */
  function MatchWindow(p: PrefSet, w: TideWindow, ahead: seq<TideRow>, now: int): (r: PrefMatch)
    ensures r.hasPrefs == p.Any()
    ensures w.NoHlEvents? ==> r == Skipped(p.Any(), "tide error: " + NoHlEventsError)
    ensures w.Window? ==> r.tide == Some(w)
    ensures w.Window? ==> (r.ok <==> r.reason.Some?)
    ensures w.Window? ==> r.debug == (if r.ok then "matched " + r.reason.value else "no phase match")
    ensures r.nextPref.Some? ==> p.Any() && PrefFor(p, r.nextPref.value)
    ensures w.Window? ==> (r.delta.Some? <==> r.nextPref.Some?)
    ensures r.delta.Some? ==> (0 <= r.delta.value < PhpIntMax && r.nextPrefT.Some? &&
                               r.delta.value == Mins(now, r.nextPrefT.value))
    ensures r.marker.Some? ==> !p.Any()
  {
    if w.NoHlEvents? then Skipped(p.Any(), "tide error: " + NoHlEventsError)
    else
      var reason := MatchReason(w, p);
      var cs := Candidates(p, w, FirstKindTime(ahead, "H"), FirstKindTime(ahead, "L"),
                           FutureMid(ahead, "L", "H"), FutureMid(ahead, "H", "L"));
      var best := if p.Any() then PickBest(cs, now, NoBest) else NoBest;
      CandidatesArePreferred(p, w, FirstKindTime(ahead, "H"), FirstKindTime(ahead, "L"),
                             FutureMid(ahead, "L", "H"), FutureMid(ahead, "H", "L"));
      PickBestSpec(cs, now, NoBest);
      var marker := Marker(p, w, now);
      PrefMatch(reason.0.Some?, p.Any(), Some(w), reason.0, reason.1,
                best.phase, best.t,
                if best.t.Some? && best.delta != PhpIntMax then Some(best.delta) else None,
                marker.0, marker.1,
                if reason.0.Some? then "matched " + reason.0.value else "no phase match")
  }

  /** Every candidate is of a preferred phase. */
  lemma CandidatesArePreferred(p: PrefSet, w: TideWindow, h: Option<int>, l: Option<int>,
                               plus: Option<int>, minus: Option<int>)
    requires w.Window?
    ensures forall c :: c in Candidates(p, w, h, l, plus, minus) ==> PrefFor(p, c.phase)
  {
  }

  /** The window-dependent part of `tidePrefMatch`, with its two loops over the upcoming rows. */
  method EvaluateWindow(p: PrefSet, w: TideWindow, ahead: seq<TideRow>, now: int) returns (r: PrefMatch)
    ensures r == MatchWindow(p, w, ahead, now)
  {
    if w.NoHlEvents? {
      return Skipped(p.Any(), "tide error: " + NoHlEventsError);
    }
    var reason := MatchReason(w, p);
    var best := NoBest;
    if p.Any() {
      var h, l := FirstHighAndLow(ahead);
      var plus, minus := FutureMids(ahead);
      best := PickBest(Candidates(p, w, h, l, plus, minus), now, NoBest);
    }
    var marker := Marker(p, w, now);
    var delta := if best.t.Some? && best.delta != PhpIntMax then Some(best.delta) else None;
    var debug := if reason.0.Some? then "matched " + reason.0.value else "no phase match";
    r := PrefMatch(reason.0.Some?, p.Any(), Some(w), reason.0, reason.1,
                   best.phase, best.t, delta, marker.0, marker.1, debug);
  }

  /** Both coordinates are set. */
  predicate HasCoords(spot: Row): (b: bool)
    ensures b <==> Field(spot, "region_lat").Some? && Field(spot, "region_lon").Some?
  {
    Isset(spot, "region_lat") && Isset(spot, "region_lon")
  }

  /** The memo key: the station and the UTC hour of now (`substr($nowUtc, 0, 13)`). */
  function CacheKey(station: string, now: int): (k: (string, int))
    ensures k.0 == station && k.1 * 3600 <= now < k.1 * 3600 + 3600
  {
    (station, now / 3600)
  }

  /** `TidePreference` with its per-station, per-hour memo of tide windows. */
  class TidePreferenceMatcher {
    var cache: map<(string, int), TideWindow>

    constructor()
      ensures cache == map[]
    {
      cache := map[];
    }

    /**
     * `tidePrefMatch`. `phase` stands for `TidePhase::tideWindowForStation`
     * and `nextHL` for `TideRepo::getNextHL`; `distKm` for the haversine
     * distance.
     */
    method TidePrefMatch(spot: Row, now: int, windowMin: int,
                         distKm: (real, real, real, real) -> real,
                         phase: (string, int, int) -> TideWindow,
                         nextHL: (string, int, nat) -> seq<TideRow>) returns (r: PrefMatch)
      modifies this
      ensures !HasCoords(spot) ==> r == Skipped(Prefs(spot).Any(), "no coords") && cache == old(cache)
      ensures HasCoords(spot) ==>
        var id := NearestId(FloatCast(spot["region_lat"]), FloatCast(spot["region_lon"]), distKm);
        var key := CacheKey(id, now);
        cache == (if key in old(cache) then old(cache) else old(cache)[key := phase(id, now, windowMin)]) &&
        r == MatchWindow(Prefs(spot), cache[key], nextHL(id, now, AheadRows), now)
    {
      var prefs := Prefs(spot);
      if !HasCoords(spot) {
        return Skipped(prefs.Any(), "no coords");
      }
      var lat := FloatCast(spot["region_lat"]);
      var lon := FloatCast(spot["region_lon"]);
      var id := NearestStation(lat, lon, distKm);
      var key := CacheKey(id, now);
      if key !in cache {
        cache := cache[key := phase(id, now, windowMin)];
      }
      var tide := cache[key];
      r := EvaluateWindow(prefs, tide, nextHL(id, now, AheadRows), now);
    }
  }
}
