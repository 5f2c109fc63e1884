// TideCell: the short tide strings shown in the spot table — the current
// state caption, the next high/low header and the preference cell rendered
// from a selector row.
//
// Local-time formatting and timestamp parsing are functions passed in; the
// next-event query reads the station's table in time order.

module TideCell {
  import opened Common
  import opened Php
  import opened NoaaTideRepository
  import Format

  /** The placeholder shown when there is nothing to say. */
  const Dash: string := [Format.EmDash]

  // ---------------------------------------------------------------------
  // normalizeCode / humanize
  // ---------------------------------------------------------------------

  /** The six canonical codes. */
  const Canonical: set<string> := {"H", "L", "M+", "M-", "IN", "OUT"}

  /** Every accepted spelling, upper-cased, with the canonical code it stands for. */
  const Synonyms: map<string, string> := map[
    "H" := "H", "HIGH" := "H",
    "L" := "L", "LOW" := "L",
    "M+" := "M+", "MID+" := "M+",
    "M-" := "M-", "MID-" := "M-",
    "IN" := "IN", "INCOMING" := "IN", "FLOOD" := "IN",
    "OUT" := "OUT", "OUTGOING" := "OUT", "EBB" := "OUT"]

  /** The caption of each canonical code. */
  const Labels: map<string, string> := map[
    "H" := "High", "L" := "Low", "M+" := "Mid Incoming", "M-" := "Mid Outgoing",
    "IN" := "Incoming", "OUT" := "Outgoing"]

  /** The trimmed, upper-cased code `normalizeCode` matches on. */
  function Cleaned(code: string): string
  {
    Upper(Trim(code))
  }

  /** The `match (true)` of `normalizeCode`, on the cleaned code. */
  function Canonicalize(c: string): (r: string)
    ensures c in Synonyms ==> r == Synonyms[c] && r in Canonical
    ensures c !in Synonyms ==> r == c && r !in Canonical
  {
    if c == "H" || c == "HIGH" then "H"
    else if c == "L" || c == "LOW" then "L"
    else if c == "M+" || c == "MID+" then "M+"
    else if c == "M-" || c == "MID-" then "M-"
    else if c == "IN" || c == "INCOMING" || c == "FLOOD" then "IN"
    else if c == "OUT" || c == "OUTGOING" || c == "EBB" then "OUT"
    else c
  }

  /** `normalizeCode`: a known spelling becomes its canonical code; anything else stays cleaned. */
  function NormalizeCode(code: string): (r: string)
    ensures Cleaned(code) in Synonyms ==> r == Synonyms[Cleaned(code)] && r in Canonical
    ensures Cleaned(code) !in Synonyms ==> r == Cleaned(code) && r !in Canonical
  {
    Canonicalize(Cleaned(code))
  }

  lemma UpperKeepsTrimWs(c: char)
    ensures IsTrimWs(UpperChar(c)) <==> IsTrimWs(c)
  {
  }

  /** Cleaning a cleaned code changes nothing. */
  lemma CleanedIsStable(code: string)
    ensures Cleaned(Cleaned(code)) == Cleaned(code)
  {
    var t := Trim(code);
    var c := Upper(t);
    if |c| > 0 {
      UpperKeepsTrimWs(t[0]);
      UpperKeepsTrimWs(t[|t| - 1]);
    }
    TrimOfTrimmed(c);
    assert Upper(c) == c;
  }

  /** A string with no trimmable ends and no lower-case letter is already clean. */
  lemma CleanedOfPlain(s: string)
    requires |s| > 0 ==> !IsTrimWs(s[0]) && !IsTrimWs(s[|s| - 1])
    requires forall i :: 0 <= i < |s| ==> !('a' <= s[i] <= 'z')
    ensures Cleaned(s) == s
  {
    TrimOfTrimmed(s);
    assert Upper(s) == s;
  }

  /** A canonical code normalizes to itself. */
  lemma CanonicalIsStable(r: string)
    requires r in Canonical
    ensures NormalizeCode(r) == r
  {
    CleanedOfPlain(r);
  }

  /** `normalizeCode` is idempotent. */
  lemma NormalizeCodeIdempotent(code: string)
    ensures NormalizeCode(NormalizeCode(code)) == NormalizeCode(code)
  {
    var r := NormalizeCode(code);
    if Cleaned(code) in Synonyms {
      CanonicalIsStable(r);
    } else {
      CleanedIsStable(code);
      assert Cleaned(r) == r;
    }
  }

  /** `normalizeCode` does not depend on letter case. */
  lemma NormalizeCodeIgnoresCase(code: string)
    ensures NormalizeCode(Lower(code)) == NormalizeCode(code)
  {
    CleanedIgnoresCase(code);
  }

  lemma CleanedIgnoresCase(code: string)
    ensures Cleaned(Lower(code)) == Cleaned(code)
  {
    TrimCommutesWithLower(code);
    var t := Trim(code);
    forall i | 0 <= i < |t| ensures Upper(Lower(t))[i] == Upper(t)[i] {
      UpperOfLower(t[i]);
    }
  }

  lemma UpperOfLower(c: char)
    ensures UpperChar(LowerChar(c)) == UpperChar(c)
  {
  }

  lemma {:induction false} TrimLeftLower(s: string)
    ensures TrimLeft(Lower(s)) == Lower(TrimLeft(s))
    decreases |s|
  {
    if |s| > 0 {
      var ls := Lower(s);
      assert IsTrimWs(ls[0]) == IsTrimWs(s[0]);
      if IsTrimWs(s[0]) {
        assert ls[1..] == Lower(s[1..]);
        TrimLeftLower(s[1..]);
        assert TrimLeft(ls) == TrimLeft(ls[1..]);
      } else {
        assert TrimLeft(ls) == ls && TrimLeft(s) == s;
      }
    }
  }

  lemma {:induction false} TrimRightLower(s: string)
    ensures TrimRight(Lower(s)) == Lower(TrimRight(s))
    decreases |s|
  {
    if |s| > 0 {
      assert Lower(s)[..|s| - 1] == Lower(s[..|s| - 1]);
      TrimRightLower(s[..|s| - 1]);
    }
  }

  lemma TrimCommutesWithLower(s: string)
    ensures Trim(Lower(s)) == Lower(Trim(s))
  {
    TrimLeftLower(s);
    TrimRightLower(TrimLeft(s));
  }

  /** `humanize`: the caption of a canonical code, anything else unchanged. */
  function Humanize(norm: string): (r: string)
    ensures norm in Canonical ==> r == Labels[norm]
    ensures norm !in Canonical ==> r == norm
  {
    match norm
    case "H" => "High"
    case "L" => "Low"
    case "M+" => "Mid Incoming"
    case "M-" => "Mid Outgoing"
    case "IN" => "Incoming"
    case "OUT" => "Outgoing"
    case _ => norm
  }

  /** Distinct canonical codes get distinct labels, and no caption is itself a code. */
  lemma LabelsAreDistinct(a: string, b: string)
    requires a in Canonical && b in Canonical && a != b
    ensures Humanize(a) != Humanize(b) && Humanize(a) !in Canonical
  {
  }

  // ---------------------------------------------------------------------
  // currentLabel
  // ---------------------------------------------------------------------

  /** The states the header names. */
  const StateLabels: map<string, string> := map["H" := "High", "L" := "Low", "IN" := "Incoming", "OUT" := "Outgoing"]

  /**
   * `currentLabel`, given the state record the phase service returned (`None`
   * when it returned nothing).
   */
  function CurrentLabel(st: Option<Row>, floatText: real -> string): (r: string)
    ensures (st.None? || |st.value| == 0 || !NotEmpty(st.value, "state")) ==> r == Dash
    ensures st.Some? && |st.value| > 0 && NotEmpty(st.value, "state") ==>
      var code := NormalizeCode(StrCast(st.value["state"], floatText));
      (code in StateLabels ==> r == Humanize(code)) && (code !in StateLabels ==> r == Dash)
  {
    if st.None? || |st.value| == 0 || !NotEmpty(st.value, "state") then Dash
    else
      match NormalizeCode(StrCast(st.value["state"], floatText))
      case "H" => "High"
      case "L" => "Low"
      case "IN" => "Incoming"
      case "OUT" => "Outgoing"
      case _ => Dash
  }

  // ---------------------------------------------------------------------
  // nextPeakInfo
  // ---------------------------------------------------------------------

  /** The header's next high/low: minutes to go and the row caption. */
  datatype PeakInfo = PeakInfo(minutes: int, caption: string, rowLabel: string)

  /** `nextPeakInfo`, with `localHm` the local clock-time formatter. */
  function NextPeakInfo(table: seq<TideRow>, now: int, localHm: int -> string): (r: Option<PeakInfo>)
    ensures r.None? <==>
      (forall i :: 0 <= i < |table| ==> table[i].when < now) ||
      (GetNextHL(table, now, 1) != [] && !Truthy(PStr(GetNextHL(table, now, 1)[0].hlType)))
    ensures r.Some? ==>
      |GetNextHL(table, now, 1)| == 1 &&
      var x := GetNextHL(table, now, 1)[0];
      x in table && x.when >= now &&
      60 * r.value.minutes <= x.when - now < 60 * r.value.minutes + 60 &&
      r.value.caption == (if NormalizeCode(x.hlType) == "H" then "High" else "Low") &&
      r.value.rowLabel == r.value.caption + " @ " + localHm(x.when)
  {
    var rows := GetNextHL(table, now, 1);
    if |rows| == 0 then None
    else
      var row := rows[0];
      assert row in rows;
      if !Truthy(PStr(row.hlType)) then None
      else Some(PeakOf(row, now, localHm))
  }

  /** The header for one upcoming event: whole minutes to go, clamped at zero, and its caption. */
  function PeakOf(row: TideRow, now: int, localHm: int -> string): (r: PeakInfo)
    ensures row.when >= now ==> 60 * r.minutes <= row.when - now < 60 * r.minutes + 60
    ensures r.caption == (if NormalizeCode(row.hlType) == "H" then "High" else "Low")
    ensures r.rowLabel == r.caption + " @ " + localHm(row.when)
  {
    var mins := Max(0, (row.when - now) / 60);
    var caption := if NormalizeCode(row.hlType) == "H" then "High" else "Low";
    PeakInfo(mins, caption, caption + " @ " + localHm(row.when))
  }

  /** The minutes are never negative, and the clamp at zero never bites: the event is not in the past. */
  lemma NextPeakMinutesAreFloor(table: seq<TideRow>, now: int, localHm: int -> string)
    ensures var r := NextPeakInfo(table, now, localHm);
            r.Some? ==> r.value.minutes >= 0 && r.value.minutes == (GetNextHL(table, now, 1)[0].when - now) / 60
  {
  }

  // ---------------------------------------------------------------------
  // hlAtLabel
  // ---------------------------------------------------------------------

  /** `hlAtLabel`, with `localGia` the local 12-hour clock formatter (`g:ia`). */
  function HlAtLabel(hlType: string, tideUtc: int, localGia: int -> string): (r: string)
    ensures hlType == "H" || hlType == "L" ==> r == Humanize(hlType) + " at " + localGia(tideUtc)
    ensures hlType != "H" ==> r == Humanize("L") + " at " + localGia(tideUtc)
  {
    (if hlType == "H" then "High" else "Low") + " at " + localGia(tideUtc)
  }

  /**
   * Unlike the header, the label does not normalise the stored type: a
   * lower-case `h` normalises to a high but is labelled a low.
   */
  lemma HlAtLabelIsCaseSensitive(tideUtc: int, localGia: int -> string)
    ensures NormalizeCode("h") == "H"
    ensures HlAtLabel("h", tideUtc, localGia) == HlAtLabel("L", tideUtc, localGia)
  {
    LowerHNormalizesToHigh();
    assert "h" != "H" by { assert "h"[0] != "H"[0]; }
  }

  lemma LowerHNormalizesToHigh()
    ensures NormalizeCode("h") == "H"
  {
    assert Lower("H") == "h" by {
      assert |Lower("H")| == 1 && Lower("H")[0] == LowerChar('H');
    }
    NormalizeCodeIgnoresCase("H");
    CanonicalIsStable("H");
  }

  // ---------------------------------------------------------------------
  // prefCellFromSelectorRow
  // ---------------------------------------------------------------------

  /** Where the cell looks for the code, in order. */
  const CodeKeys: seq<string> := ["phase_code", "tide", "next_pref", "next_marker"]

  /** Where the cell looks for the time, in order. */
  const TimeKeys: seq<string> := ["phase_time_utc", "next_pref_utc", "next_marker_utc"]

  const DeltaKey: string := "closest_pref_delta_min"

  /** `$row[k1] ?? $row[k2] ?? …`: the first key that is set. */
  function FirstSet(row: Row, keys: seq<string>): (r: Option<PVal>)
    ensures r.None? <==> forall i :: 0 <= i < |keys| ==> !Isset(row, keys[i])
    ensures r.Some? ==>
      exists i :: (0 <= i < |keys| && Isset(row, keys[i]) && r.value == row[keys[i]] &&
                   forall j :: 0 <= j < i ==> !Isset(row, keys[j]))
  {
    if |keys| == 0 then None
    else if Isset(row, keys[0]) then Some(row[keys[0]])
    else
      var r := FirstSet(row, keys[1..]);
      assert forall i :: 1 <= i < |keys| ==> keys[1..][i - 1] == keys[i];
      if r.Some? then
        var i :| 0 <= i < |keys[1..]| && Isset(row, keys[1..][i]) && r.value == row[keys[1..][i]] &&
                 forall j :: 0 <= j < i ==> !Isset(row, keys[1..][j]);
        assert forall j :: 1 <= j < i + 1 ==> keys[j] == keys[1..][j - 1];
        r
      else r
  }

  /** What the cell shows, before it is formatted. */
  datatype CellView =
    | NoCell                                      // the dash
    | Plain(caption: string)                        // "<Label>"
    | At(caption: string, time: string)             // "<Label> @ <local time>"
    | Now(caption: string)                          // "<Label> now"
    | Countdown(caption: string, minutes: int, time: string)  // "<Label> in <h:mm> (<local time>)"

  /** The cell's text. */
  function Render(v: CellView): string
  {
    match v
    case NoCell => Dash
    case Plain(l) => l
    case At(l, t) => l + " @ " + t
    case Now(l) => l + " now"
    case Countdown(l, m, t) => l + " in " + Format.MinutesToHm(m) + " (" + t + ")"
  }

  /** The caption of the code found in the row; a missing code reads as the empty string. */
  function CodeLabel(row: Row, floatText: real -> string): string
  {
    var code := FirstSet(row, CodeKeys);
    Humanize(NormalizeCode(if code.Some? then StrCast(code.value, floatText) else ""))
  }

  /** Minutes to an instant, whole and never negative. */
  function MinutesUntil(when: int, now: int): (r: int)
    ensures r >= 0
    ensures when >= now ==> 60 * r <= when - now < 60 * r + 60
    ensures when < now ==> r == 0
  {
    Max(0, (when - now) / 60)
  }

  /**
   * `prefCellFromSelectorRow` as a view. `parseUtc` reads a UTC timestamp,
   * `localHm` formats it in the local zone.
   */
  function PrefCellView(row: Row, now: int, mode: string, parseUtc: string -> int, localHm: string -> string,
                        floatText: real -> string): (r: CellView)
    ensures r.NoCell? <==> FirstSet(row, CodeKeys).None? && FirstSet(row, TimeKeys).None?
    ensures !r.NoCell? ==> r.caption == CodeLabel(row, floatText)
    ensures mode != "now" && !r.NoCell? ==> r.Plain? || r.At?
    ensures r.Countdown? ==> r.minutes > 0
    ensures mode == "now" && !r.NoCell? && Isset(row, DeltaKey) && IsNumeric(row[DeltaKey]) ==>
      (IntCast(row[DeltaKey]) <= 0 ==> r.Now?) &&
      (IntCast(row[DeltaKey]) > 0 ==> r.Countdown? && r.minutes == IntCast(row[DeltaKey]))
    ensures mode == "now" && !r.NoCell? && !(Isset(row, DeltaKey) && IsNumeric(row[DeltaKey])) &&
            FirstSet(row, TimeKeys).Some? ==>
      var m := MinutesUntil(parseUtc(StrCast(FirstSet(row, TimeKeys).value, floatText)), now);
      (m == 0 ==> r.Now?) && (m > 0 ==> r.Countdown? && r.minutes == m)
  {
    var code := FirstSet(row, CodeKeys);
    var whenUtc := FirstSet(row, TimeKeys);
    if code.None? && whenUtc.None? then NoCell
    else
      var caption := CodeLabel(row, floatText);
      var timeText := if whenUtc.Some? then StrCast(whenUtc.value, floatText) else "";
      var stamp := if whenUtc.Some? && Truthy(whenUtc.value) then At(caption, localHm(timeText)) else Plain(caption);
      if mode != "now" then stamp
      else if whenUtc.None? && !Isset(row, DeltaKey) then Plain(caption)
      else
        var mins :=
          if Isset(row, DeltaKey) && IsNumeric(row[DeltaKey]) then Some(Max(0, IntCast(row[DeltaKey])))
          else if whenUtc.Some? then Some(MinutesUntil(parseUtc(timeText), now))
          else None;
        if mins.None? then stamp
        else if mins.value == 0 then Now(caption)
        else Countdown(caption, mins.value, localHm(timeText))
  }

  /** `prefCellFromSelectorRow`: the view, formatted. */
  function PrefCellFromSelectorRow(row: Row, now: int, mode: string, parseUtc: string -> int,
                                   localHm: string -> string, floatText: real -> string): (r: string)
    ensures FirstSet(row, CodeKeys).None? && FirstSet(row, TimeKeys).None? ==> r == Dash
  {
    Render(PrefCellView(row, now, mode, parseUtc, localHm, floatText))
  }

  /** Outside 'now' mode the cell is the caption, with the local time when there is one, never a countdown. */
  lemma LaterModesShowLabelAtTime(row: Row, now: int, mode: string, parseUtc: string -> int,
                                  localHm: string -> string, floatText: real -> string)
    requires mode != "now"
    requires FirstSet(row, CodeKeys).Some? || FirstSet(row, TimeKeys).Some?
    ensures var w := FirstSet(row, TimeKeys);
            var caption := CodeLabel(row, floatText);
            PrefCellFromSelectorRow(row, now, mode, parseUtc, localHm, floatText) ==
              if w.Some? && Truthy(w.value) then caption + " @ " + localHm(StrCast(w.value, floatText)) else caption
  {
  }

  /** In 'now' mode a zero or negative delta renders "<Label> now". */
  lemma DeltaAtOrBelowZeroIsNow(row: Row, now: int, parseUtc: string -> int,
                                localHm: string -> string, floatText: real -> string)
    requires FirstSet(row, CodeKeys).Some?
    requires Isset(row, DeltaKey) && IsNumeric(row[DeltaKey]) && IntCast(row[DeltaKey]) <= 0
    ensures PrefCellFromSelectorRow(row, now, "now", parseUtc, localHm, floatText) == CodeLabel(row, floatText) + " now"
  {
  }
}
