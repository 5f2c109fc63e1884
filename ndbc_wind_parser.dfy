/**
 * `BatchProcessing\NDBCWindParser`: the NDBC realtime `.txt` wind file
 * parser. It finds the `#YY MM DD hh mm ...` header (and the units line
 * under it), checks that the needed columns are present, and turns every
 * data line into a UTC timestamp, a direction in [0, 360) and a speed in
 * both m/s and knots.
 *
 * The lines arrive as strings; a thrown `RuntimeException` is an `Err`.
 */
module NdbcWindParser {
  import opened Common
  import opened Php

  const HeaderNotFoundMessage: string := "NDBCWindParser: header not found in TXT."
  const NoDataRowMessage: string := "NDBCWindParser: could not locate first data row."

  function RequiredMessage(col: string): string
  {
    "NDBCWindParser: required column " + col + " not found."
  }

  /** The columns whose positions are recorded. */
  const Want: seq<string> := ["YY", "YYYY", "MM", "DD", "hh", "mm", "WDIR", "WSPD"]

  /** The columns a file must have, in the order they are checked. */
  const Required: seq<string> := ["MM", "DD", "hh", "mm", "WSPD"]

  const KnotsPerMetrePerSecond: real := 1.943844

  /** The unit the speed column is read in. */
  datatype SpeedUnit = MetresPerSecond | Knots

  function UnitName(u: SpeedUnit): string
  {
    match u
    case MetresPerSecond => "m/s"
    case Knots => "kt"
  }

  /** One output row: the timestamp, the direction and the speed in both units. */
  datatype WindRow = WindRow(ts: string, wdir: Option<int>, ms: Option<real>, kt: Option<real>)

  /** The parse result: the header columns, the two units and the rows. */
  datatype Parsed = Parsed(columns: seq<string>, wdirUnit: string, wspdUnit: string, data: seq<WindRow>)

  // ---------------------------------------------------------------------
  // Tokens
  // ---------------------------------------------------------------------

  /** `isMissing`: null, or one of the NDBC missing markers once trimmed and upper-cased. */
  predicate IsMissing(raw: Option<string>)
  {
    raw.None? ||
    var s := Upper(Trim(raw.value));
    s == "MM" || s == "M" || s == "N/A" || s == ""
  }

  /** `preg_replace('/^#\s*\/', '', s)`: a leading `#` and the whitespace after it. */
  function StripHash(s: string): (r: string)
    ensures |s| > 0 && s[0] == '#' ==> |r| < |s| && EndsWith(s, r)
    ensures !(|s| > 0 && s[0] == '#') ==> r == s
  {
    if |s| > 0 && s[0] == '#' then s[SkipRegexWs(s, 1)..] else s
  }

  /** The whitespace-separated tokens of a `#` line, after its `#`. */
  function HashTokens(s: string): (r: seq<string>)
    ensures |r| >= 1
  {
    SplitWs(Trim(StripHash(s)))
  }

  // ---------------------------------------------------------------------
  // Header recognition
  // ---------------------------------------------------------------------

  /** The lower-case word `w` occurs at `i`, ignoring case. */
  predicate WordAt(t: string, i: nat, w: string)
  {
    i + |w| <= |t| && Lower(t[i..i + |w|]) == w
  }

  /**
   * `words` occur from `i` on, each separated from the next by `\s+`, and
   * the last one ends at a word boundary.
   */
  predicate WordsFrom(t: string, i: nat, words: seq<string>)
    requires i <= |t|
    decreases |words|
  {
    |words| > 0 && WordAt(t, i, words[0]) &&
    var j := i + |words[0]|;
    if |words| == 1 then j == |t| || !IsWordChar(t[j])
    else j < |t| && IsRegexWs(t[j]) && WordsFrom(t, SkipRegexWs(t, j), words[1..])
  }

  /** The header pattern `^\s*#\s*(YY|YYYY)\s+MM\s+DD\s+hh\s+mm\b`, case-insensitive. */
  predicate HeaderMatch(t: string)
  {
    var i0 := SkipRegexWs(t, 0);
    i0 < |t| && t[i0] == '#' &&
    var i1 := SkipRegexWs(t, i0 + 1);
    WordsFrom(t, i1, ["yy", "mm", "dd", "hh", "mm"]) || WordsFrom(t, i1, ["yyyy", "mm", "dd", "hh", "mm"])
  }

  /** Line `i` is a header: a blank or `#` line once trimmed, matching the header pattern. */
  predicate IsHeaderAt(lines: seq<string>, i: int)
    requires 0 <= i < |lines|
  {
    var t := Trim(lines[i]);
    (t == "" || t[0] == '#') && HeaderMatch(t)
  }

  /** The line after the header exists and starts with `#`: it holds the units. */
  predicate HasUnitsLine(lines: seq<string>, i: int)
    requires 0 <= i < |lines|
  {
    i + 1 < |lines| && |lines[i + 1]| > 0 && lines[i + 1][0] == '#'
  }

  // ---------------------------------------------------------------------
  // Units by position
  // ---------------------------------------------------------------------

  /** `$units[$c] = $unitTokens[$idx] ?? null` for the first `k` columns. */
  function UnitsAfter(units: map<string, Option<string>>, cols: seq<string>, toks: seq<string>, k: nat): map<string, Option<string>>
    requires k <= |cols|
  {
    if k == 0 then units
    else UnitsAfter(units, cols, toks, k - 1)[cols[k - 1] := if k - 1 < |toks| then Some(toks[k - 1]) else None]
  }

  /**
   * After the mapping, every column holds the token at its last position
   * (null past the end of the tokens); any other name keeps its old unit.
   */
  lemma UnitsAfterSpec(units: map<string, Option<string>>, cols: seq<string>, toks: seq<string>, k: nat)
    requires k <= |cols|
    ensures var u := UnitsAfter(units, cols, toks, k);
      (forall c :: c in u <==> c in units || c in cols[..k]) &&
      (forall c :: c in units && c !in cols[..k] ==> u[c] == units[c]) &&
      (forall j :: 0 <= j < k && (forall l :: j < l < k ==> cols[l] != cols[j]) ==>
         u[cols[j]] == if j < |toks| then Some(toks[j]) else None)
  {
    UnitsKeys(units, cols, toks, k);
    UnitsKept(units, cols, toks, k);
    forall j | 0 <= j < k && (forall l :: j < l < k ==> cols[l] != cols[j])
      ensures UnitsAfter(units, cols, toks, k)[cols[j]] == if j < |toks| then Some(toks[j]) else None
    {
      UnitsLastWins(units, cols, toks, k, j);
    }
  }

  /** The keys after the mapping: the old ones and the first `k` columns. */
  lemma {:induction false} UnitsKeys(units: map<string, Option<string>>, cols: seq<string>, toks: seq<string>, k: nat)
    requires k <= |cols|
    ensures forall c :: c in UnitsAfter(units, cols, toks, k) <==> c in units || c in cols[..k]
  {
    if k > 0 {
      UnitsKeys(units, cols, toks, k - 1);
      assert cols[..k] == cols[..k - 1] + [cols[k - 1]];
    }
  }

  /** A name that is not among the first `k` columns keeps its old unit. */
  lemma {:induction false} UnitsKept(units: map<string, Option<string>>, cols: seq<string>, toks: seq<string>, k: nat)
    requires k <= |cols|
    ensures forall c :: c in units && c !in cols[..k] ==>
      c in UnitsAfter(units, cols, toks, k) && UnitsAfter(units, cols, toks, k)[c] == units[c]
  {
    if k > 0 {
      UnitsKeys(units, cols, toks, k - 1);
      UnitsKept(units, cols, toks, k - 1);
      assert cols[..k] == cols[..k - 1] + [cols[k - 1]];
    }
  }

  /** A column not repeated later holds the token at its position, or null past the tokens. */
  lemma {:induction false} UnitsLastWins(units: map<string, Option<string>>, cols: seq<string>, toks: seq<string>, k: nat, j: nat)
    requires j < k <= |cols|
    requires forall l :: j < l < k ==> cols[l] != cols[j]
    ensures var u := UnitsAfter(units, cols, toks, k);
      cols[j] in u && u[cols[j]] == if j < |toks| then Some(toks[j]) else None
  {
    if j < k - 1 {
      UnitsLastWins(units, cols, toks, k - 1, j);
    }
  }

  /** The `foreach` that maps unit tokens onto the header columns by position. */
  method MapUnits(units0: map<string, Option<string>>, cols: seq<string>, toks: seq<string>)
    returns (units: map<string, Option<string>>)
    ensures units == UnitsAfter(units0, cols, toks, |cols|)
  {
    units := units0;
    var idx := 0;
    while idx < |cols|
      invariant 0 <= idx <= |cols|
      invariant units == UnitsAfter(units0, cols, toks, idx)
    {
      units := units[cols[idx] := if idx < |toks| then Some(toks[idx]) else None];
      idx := idx + 1;
    }
  }

  // ---------------------------------------------------------------------
  // The header scan
  // ---------------------------------------------------------------------

  /** What one header line gives: its columns, the tokens of its units line if there is one, and where the data starts. */
  datatype HeaderLine = HeaderLine(cols: seq<string>, unitToks: Option<seq<string>>, start: nat)

  /** What the header scan finds at line `i`, if it is a header. */
  function HeaderAt(lines: seq<string>, i: nat): (r: Option<HeaderLine>)
    requires i < |lines|
    ensures r.Some? <==> IsHeaderAt(lines, i)
    ensures r.Some? ==> |r.value.cols| >= 1 && i < r.value.start <= i + 2
  {
    if !IsHeaderAt(lines, i) then None
    else if HasUnitsLine(lines, i) then Some(HeaderLine(HashTokens(Trim(lines[i])), Some(HashTokens(lines[i + 1])), i + 2))
    else Some(HeaderLine(HashTokens(Trim(lines[i])), None, i + 1))
  }

  /** The header findings of all lines. */
  function Headers(lines: seq<string>): (hs: seq<Option<HeaderLine>>)
    ensures |hs| == |lines|
    ensures forall i :: 0 <= i < |lines| ==> hs[i] == HeaderAt(lines, i)
  {
    seq(|lines|, i requires 0 <= i < |lines| => HeaderAt(lines, i))
  }

  /** What the header scan has found so far. */
  datatype Scan = Scan(cols: seq<string>, units: map<string, Option<string>>, dataStart: Option<nat>)

  /**
   * The scan state after the first `n` lines: the scan never stops early,
   * so a later header replaces the columns and the data start of an
   * earlier one, while units are mapped over the units seen before.
   */
  function HeaderScan(hs: seq<Option<HeaderLine>>, n: nat): Scan
    requires n <= |hs|
  {
    if n == 0 then Scan([], map[], None)
    else ScanStep(HeaderScan(hs, n - 1), hs[n - 1])
  }

  /** One line of the scan: a header replaces the columns and data start, and maps its units over the ones seen. */
  function ScanStep(s: Scan, line: Option<HeaderLine>): Scan
  {
    match line
    case None => s
    case Some(h) =>
      var units := if h.unitToks.Some? then UnitsAfter(s.units, h.cols, h.unitToks.value, |h.cols|) else s.units;
      Scan(h.cols, units, Some(h.start))
  }

  /** The scan ends with nothing when there is no header, and otherwise with the columns and data start of the last one. */
  lemma {:induction false} HeaderScanLast(hs: seq<Option<HeaderLine>>, n: nat)
    requires n <= |hs|
    ensures var h := LastSome(hs, n);
      (h.None? ==> HeaderScan(hs, n) == Scan([], map[], None)) &&
      (h.Some? ==> HeaderScan(hs, n).cols == hs[h.value].value.cols &&
                   HeaderScan(hs, n).dataStart == Some(hs[h.value].value.start))
  {
    if n > 0 {
      HeaderScanLast(hs, n - 1);
    }
  }

  /** Step 1 of `parse`: the loop over all lines looking for the header. */
  method ScanHeader(lines: seq<string>) returns (cols: seq<string>, units: map<string, Option<string>>, dataStart: Option<nat>)
    ensures Scan(cols, units, dataStart) == HeaderScan(Headers(lines), |lines|)
  {
    cols, units, dataStart := [], map[], None;
    for i := 0 to |lines|
      invariant Scan(cols, units, dataStart) == HeaderScan(Headers(lines), i)
    {
      cols, units, dataStart := ScanLine(lines, i, cols, units, dataStart);
    }
  }

  /** The body of the header loop for line `i`: a header line replaces the columns and data start and maps its units. */
  method ScanLine(lines: seq<string>, i: nat, cols0: seq<string>, units0: map<string, Option<string>>, dataStart0: Option<nat>)
    returns (cols: seq<string>, units: map<string, Option<string>>, dataStart: Option<nat>)
    requires i < |lines|
    ensures Scan(cols, units, dataStart) == ScanStep(Scan(cols0, units0, dataStart0), HeaderAt(lines, i))
  {
    cols, units, dataStart := cols0, units0, dataStart0;
    var t := Trim(lines[i]);
    if (t == "" || t[0] == '#') && HeaderMatch(t) {
      cols := HashTokens(t);
      if HasUnitsLine(lines, i) {
        units := MapUnits(units, cols, HashTokens(lines[i + 1]));
        dataStart := Some(i + 2);
      } else {
        dataStart := Some(i + 1);
      }
    }
  }

  // ---------------------------------------------------------------------
  // Column positions and the required columns
  // ---------------------------------------------------------------------

  /** `$idxMap`: each wanted name that is a column, at its last position. */
  function IndexMap(cols: seq<string>): (m: map<string, nat>)
    ensures forall k :: k in m <==> k in Want && k in cols
    ensures forall k :: k in m ==> m[k] < |cols| && cols[m[k]] == k &&
                                   forall j :: m[k] < j < |cols| ==> cols[j] != k
  {
    if |cols| == 0 then map[]
    else
      var n := |cols|;
      var m := IndexMap(cols[..n - 1]);
      assert cols == cols[..n - 1] + [cols[n - 1]];
      if cols[n - 1] in Want then m[cols[n - 1] := n - 1] else m
  }

  /** Step 2 of `parse`: the loop that records the wanted columns' positions. */
  method IndexColumns(cols: seq<string>) returns (m: map<string, nat>)
    ensures m == IndexMap(cols)
  {
    m := map[];
    var i := 0;
    while i < |cols|
      invariant 0 <= i <= |cols|
      invariant m == IndexMap(cols[..i])
    {
      assert cols[..i + 1][..i] == cols[..i];
      if cols[i] in Want {
        m := m[cols[i] := i];
      }
      i := i + 1;
    }
    assert cols[..|cols|] == cols;
  }

  /** The first of `keys` that `m` lacks, in order. */
  function FirstAbsent(keys: seq<string>, m: map<string, nat>): (r: Option<string>)
    ensures r.None? <==> forall i :: 0 <= i < |keys| ==> keys[i] in m
    ensures r.Some? ==> exists i :: 0 <= i < |keys| && keys[i] == r.value && r.value !in m &&
                                    forall j :: 0 <= j < i ==> keys[j] in m
  {
    if |keys| == 0 then None
    else if keys[0] !in m then Some(keys[0])
    else
      var r := FirstAbsent(keys[1..], m);
      assert forall i :: 0 < i < |keys| ==> keys[i] == keys[1..][i - 1];
      if r.Some? then
        var i :| 0 <= i < |keys[1..]| && keys[1..][i] == r.value && r.value !in m &&
                 forall j :: 0 <= j < i ==> keys[1..][j] in m;
        assert keys[i + 1] == r.value;
        r
      else r
  }

  /**
   * The speed unit: m/s when the WSPD unit token contains `m/s`, knots when
   * it is `kt` or mentions `knot`, and m/s when there is no token or it is
   * neither.
   */
  function WspdUnit(units: map<string, Option<string>>): (r: SpeedUnit)
    ensures r == Knots <==>
      "WSPD" in units && units["WSPD"].Some? &&
      var u := Lower(units["WSPD"].value);
      !Contains(u, "m/s") && (u == "kt" || Contains(u, "knot"))
  {
    if "WSPD" in units && units["WSPD"].Some? then
      var u := Lower(units["WSPD"].value);
      if Contains(u, "m/s") then MetresPerSecond
      else if u == "kt" || Contains(u, "knot") then Knots
      else MetresPerSecond
    else MetresPerSecond
  }

  // ---------------------------------------------------------------------
  // Data lines
  // ---------------------------------------------------------------------

  /** `msToKt` / `ktToMs` applied to a speed in the file's unit: both values, each to two places. */
  function Speeds(spd: Option<real>, unit: SpeedUnit): (r: (Option<real>, Option<real>))
    ensures r.0.Some? <==> spd.Some?
    ensures r.1.Some? <==> spd.Some?
  {
    if spd.None? then (None, None)
    else if unit == MetresPerSecond then
      var ms := RoundTo(spd.value, 2);
      (Some(ms), Some(RoundTo(ms * KnotsPerMetrePerSecond, 2)))
    else
      var kt := RoundTo(spd.value, 2);
      (Some(RoundTo(kt / KnotsPerMetrePerSecond, 2)), Some(kt))
  }

  /**
   * The speed the file gives is kept to within 0.005 in its own unit, and
   * the other unit is the converted value to within 0.005.
   */
  lemma SpeedsClose(spd: real, unit: SpeedUnit)
    ensures var (ms, kt) := Speeds(Some(spd), unit);
      (unit == MetresPerSecond ==>
         AbsR(ms.value - spd) <= 0.005 && AbsR(kt.value - ms.value * KnotsPerMetrePerSecond) <= 0.005) &&
      (unit == Knots ==>
         AbsR(kt.value - spd) <= 0.005 && AbsR(ms.value - kt.value / KnotsPerMetrePerSecond) <= 0.005)
  {
    RoundToTwoClose(spd);
    if unit == MetresPerSecond {
      RoundToTwoClose(RoundTo(spd, 2) * KnotsPerMetrePerSecond);
    } else {
      RoundToTwoClose(RoundTo(spd, 2) / KnotsPerMetrePerSecond);
    }
  }

  /** The tokens of a data line: the trimmed line split at whitespace. */
  function Tokens(raw: string): (vals: seq<string>)
    ensures |vals| >= 1
  {
    SplitWs(Trim(raw))
  }

  /** A data line is skipped when blank, a comment, or short of tokens. */
  predicate Skipped(raw: string, ncols: nat)
  {
    var line := Trim(raw);
    line == "" || line[0] == '#' || |Tokens(raw)| < ncols
  }

  /** The year token: YYYY's when that column exists, else YY's, else none. */
  function YearToken(vals: seq<string>, m: map<string, nat>): (r: Option<string>)
    requires forall k :: k in m ==> m[k] < |vals|
    ensures r.None? <==> "YYYY" !in m && "YY" !in m
  {
    if "YYYY" in m then Some(vals[m["YYYY"]])
    else if "YY" in m then Some(vals[m["YY"]])
    else None
  }

  /** `(int)` of the year token, with a two-digit YY-only year read as 20YY. */
  function Year(tok: string, m: map<string, nat>): (y: int)
    ensures !("YY" in m && "YYYY" !in m) ==> y == IntCast(PStr(tok))
    ensures "YY" in m && "YYYY" !in m && IntCast(PStr(tok)) < 100 ==> y == 2000 + IntCast(PStr(tok))
    ensures "YY" in m && "YYYY" !in m && IntCast(PStr(tok)) >= 100 ==> y == IntCast(PStr(tok))
  {
    var y := IntCast(PStr(tok));
    if "YY" in m && "YYYY" !in m then (if y < 100 then 2000 + y else y) else y
  }

  /** The direction of a line: null without a WDIR column or for a missing token, else `((w % 360) + 360) % 360`. */
  function Direction(vals: seq<string>, m: map<string, nat>): (r: Option<int>)
    requires forall k :: k in m ==> m[k] < |vals|
    ensures r.Some? <==> "WDIR" in m && !IsMissing(Some(vals[m["WDIR"]]))
    ensures r.Some? ==> r.value == IntCast(PStr(vals[m["WDIR"]])) % 360 && 0 <= r.value < 360
  {
    if "WDIR" in m && !IsMissing(Some(vals[m["WDIR"]])) then
      var w := IntCast(PStr(vals[m["WDIR"]]));
      NormDegInt(w);
      Some(TruncMod(TruncMod(w, 360) + 360, 360))
    else None
  }

  /** The row a kept data line becomes. */
  function RowOf(vals: seq<string>, m: map<string, nat>, unit: SpeedUnit, year: int): (r: WindRow)
    requires (forall k :: k in m ==> m[k] < |vals|) && Has(m)
    ensures r.wdir == Direction(vals, m)
    ensures r.ms.Some? <==> !IsMissing(Some(vals[m["WSPD"]]))
    ensures r.kt.Some? <==> r.ms.Some?
  {
    var month := IntCast(PStr(vals[m["MM"]]));
    var day := IntCast(PStr(vals[m["DD"]]));
    var hour := IntCast(PStr(vals[m["hh"]]));
    var minute := IntCast(PStr(vals[m["mm"]]));
    var rawSpd := vals[m["WSPD"]];
    var spd := if IsMissing(Some(rawSpd)) then None else Some(FloatCast(PStr(rawSpd)));
    var sp := Speeds(spd, unit);
    WindRow(SqlTimestamp(year, month, day, hour, minute), Direction(vals, m), sp.0, sp.1)
  }

  /** The required columns have positions. */
  predicate Has(m: map<string, nat>)
  {
    "MM" in m && "DD" in m && "hh" in m && "mm" in m && "WSPD" in m
  }

  /** The column positions a data line is read with: every one is a column, and the required ones are there. */
  predicate Layout(ncols: nat, m: map<string, nat>)
  {
    (forall k :: k in m ==> m[k] < ncols) && Has(m)
  }

  /** The body of the data loop for one line: a row, or nothing when the line is skipped or has no year. */
  function ParseDataLine(raw: string, ncols: nat, m: map<string, nat>, unit: SpeedUnit): (r: Option<WindRow>)
    requires Layout(ncols, m)
    ensures r.None? <==> Skipped(raw, ncols) || IsMissing(YearToken(Tokens(raw), m))
    ensures r.Some? ==> r.value == RowOf(Tokens(raw), m, unit, Year(YearToken(Tokens(raw), m).value, m))
  {
    var line := Trim(raw);
    if line == "" || line[0] == '#' then None
    else
      var vals := Tokens(raw);
      if |vals| < ncols then None
      else
        var yt := YearToken(vals, m);
        if IsMissing(yt) then None
        else Some(RowOf(vals, m, unit, Year(yt.value, m)))
  }

  /** Without a year column every data line is dropped. */
  lemma NoYearColumnNoRows(raw: string, ncols: nat, m: map<string, nat>, unit: SpeedUnit)
    requires Layout(ncols, m) && "YYYY" !in m && "YY" !in m
    ensures ParseDataLine(raw, ncols, m, unit).None?
  {
  }

  /**
   * A row's timestamp reads back to its year and the month, day, hour and
   * minute tokens when these fit their widths.
   */
  lemma TimestampFields(vals: seq<string>, m: map<string, nat>, unit: SpeedUnit, year: int)
    requires (forall k :: k in m ==> m[k] < |vals|) && Has(m)
    ensures var mo := IntCast(PStr(vals[m["MM"]]));
      var d := IntCast(PStr(vals[m["DD"]]));
      var h := IntCast(PStr(vals[m["hh"]]));
      var mi := IntCast(PStr(vals[m["mm"]]));
      0 <= year < 10000 && 0 <= mo < 100 && 0 <= d < 100 && 0 <= h < 100 && 0 <= mi < 100 ==>
        ReadSqlTimestamp(RowOf(vals, m, unit, year).ts) == Some((year, mo, d, h, mi))
  {
    var mo := IntCast(PStr(vals[m["MM"]]));
    var d := IntCast(PStr(vals[m["DD"]]));
    var h := IntCast(PStr(vals[m["hh"]]));
    var mi := IntCast(PStr(vals[m["mm"]]));
    if 0 <= year < 10000 && 0 <= mo < 100 && 0 <= d < 100 && 0 <= h < 100 && 0 <= mi < 100 {
      SqlTimestampRoundTrip(year, mo, d, h, mi);
    }
  }

  /** What the data loop makes of each line. */
  function LineResults(lines: seq<string>, ncols: nat, m: map<string, nat>, unit: SpeedUnit): (rs: seq<Option<WindRow>>)
    requires Layout(ncols, m)
    ensures |rs| == |lines|
    ensures forall i :: 0 <= i < |lines| ==> rs[i] == ParseDataLine(lines[i], ncols, m, unit)
  {
    seq(|lines|, i requires 0 <= i < |lines| => ParseDataLine(lines[i], ncols, m, unit))
  }

  /** Step 3 of `parse`: the loop over the lines from the data start, keeping the row of each line not skipped. */
  method ReadRows(lines: seq<string>, dataStart: nat, ncols: nat, m: map<string, nat>, unit: SpeedUnit)
    returns (data: seq<WindRow>)
    requires Layout(ncols, m)
    ensures data == Kept(LineResults(lines, ncols, m, unit), dataStart, |lines|)
  {
    ghost var rs := LineResults(lines, ncols, m, unit);
    data := [];
    var n := |lines|;
    var i := dataStart;
    if i >= n {
      return;
    }
    while i < n
      invariant dataStart <= i <= n
      invariant data == Kept(rs, dataStart, i)
    {
      var r := ParseDataLine(lines[i], ncols, m, unit);
      KeptStep(rs, dataStart, i, data, r);
      if r.Some? {
        data := data + [r.value];
      }
      i := i + 1;
    }
  }

  // ---------------------------------------------------------------------
  // parse and rows
  // ---------------------------------------------------------------------

  /** The five required names, read off `Required`, are all positioned once none of them is absent. */
  lemma RequiredPresent(m: map<string, nat>)
    requires FirstAbsent(Required, m).None?
    ensures Has(m)
  {
    assert Required[0] in m && Required[1] in m && Required[2] in m && Required[3] in m && Required[4] in m;
  }

  /** What `parse` returns for `lines`. */
  function ParseSpec(lines: seq<string>): Result<Parsed>
  {
    var sc := HeaderScan(Headers(lines), |lines|);
    if |sc.cols| == 0 then Err(HeaderNotFoundMessage)
    else if sc.dataStart.None? then Err(NoDataRowMessage)
    else
      var m := IndexMap(sc.cols);
      var miss := FirstAbsent(Required, m);
      if miss.Some? then Err(RequiredMessage(miss.value))
      else
        RequiredPresent(m);
        var unit := WspdUnit(sc.units);
        Ok(Parsed(sc.cols, "degT", UnitName(unit), Kept(LineResults(lines, |sc.cols|, m, unit), sc.dataStart.value, |lines|)))
  }

  /** `parse`: the header scan, the column check, the unit detection and the data loop. */
  method Parse(lines: seq<string>) returns (r: Result<Parsed>)
    ensures r == ParseSpec(lines)
  {
    var cols, units, dataStart := ScanHeader(lines);
    if |cols| == 0 {
      return Err(HeaderNotFoundMessage);
    }
    if dataStart.None? {
      return Err(NoDataRowMessage);
    }
    var m := IndexColumns(cols);
    var miss := FirstAbsent(Required, m);
    if miss.Some? {
      return Err(RequiredMessage(miss.value));
    }
    RequiredPresent(m);
    var unit := WspdUnit(units);
    var data := ReadRows(lines, dataStart.value, |cols|, m, unit);
    r := Ok(Parsed(cols, "degT", UnitName(unit), data));
  }

  /** `rows`: the data of `parse`, with its errors passed on. */
  method Rows(lines: seq<string>) returns (r: Result<seq<WindRow>>)
    ensures r.Err? <==> ParseSpec(lines).Err?
    ensures r.Ok? ==> r.value == ParseSpec(lines).value.data
  {
    var p := Parse(lines);
    if p.Err? {
      return Err(p.msg);
    }
    r := Ok(p.value.data);
  }

  /**
   * The last header finding is the last line that is a header: none when
   * no line is one, and otherwise its columns and the line its data starts
   * on (past the units line when there is one).
   */
  lemma LastHeader(lines: seq<string>)
    ensures var hs := Headers(lines);
      var h := LastSome(hs, |lines|);
      (h.None? <==> forall i :: 0 <= i < |lines| ==> !IsHeaderAt(lines, i)) &&
      (h.Some? ==>
         IsHeaderAt(lines, h.value) && (forall i :: h.value < i < |lines| ==> !IsHeaderAt(lines, i)) &&
         hs[h.value].value.cols == HashTokens(Trim(lines[h.value])) &&
         hs[h.value].value.start == (if HasUnitsLine(lines, h.value) then h.value + 2 else h.value + 1))
  {
    var hs := Headers(lines);
    forall i | 0 <= i < |lines|
      ensures hs[i].Some? <==> IsHeaderAt(lines, i)
    {
      assert hs[i] == HeaderAt(lines, i);
    }
  }

  /**
   * The outcome of `parse`: the header error exactly when there is no
   * header finding. Otherwise the last header decides the columns and
   * where the data starts, the could-not-locate error never occurs, and
   * the result is the first missing required column or the rows from
   * there on.
   */
  lemma ParseOutcome(lines: seq<string>)
    ensures var hs := Headers(lines);
      var h := LastSome(hs, |lines|);
      (h.None? ==> ParseSpec(lines) == Err(HeaderNotFoundMessage)) &&
      (h.Some? ==>
         var hl := hs[h.value].value;
         var m := IndexMap(hl.cols);
         var unit := WspdUnit(HeaderScan(hs, |lines|).units);
         (FirstAbsent(Required, m).Some? ==> ParseSpec(lines) == Err(RequiredMessage(FirstAbsent(Required, m).value))) &&
         (FirstAbsent(Required, m).None? ==>
            (Has(m) &&
             ParseSpec(lines) == Ok(Parsed(hl.cols, "degT", UnitName(unit), Kept(LineResults(lines, |hl.cols|, m, unit), hl.start, |lines|))))))
  {
    var hs := Headers(lines);
    HeaderScanLast(hs, |lines|);
    var h := LastSome(hs, |lines|);
    if h.Some? {
      assert hs[h.value] == HeaderAt(lines, h.value);
      if FirstAbsent(Required, IndexMap(hs[h.value].value.cols)).None? {
        RequiredPresent(IndexMap(hs[h.value].value.cols));
      }
    }
  }
}
