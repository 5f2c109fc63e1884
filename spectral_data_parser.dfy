/**
 * `BatchProcessing\SpectralDataParser`: the NDBC `.spec` (spectral wave
 * summary) parser. The first `# YY MM DD ...` line gives the columns; data
 * starts two lines below it (past the units line). Every data line becomes
 * a row keyed by column, with a `'YYYY-MM-DD hh:mm:00'` timestamp built from
 * its first five tokens, compass names turned into degrees and numbers into
 * floats. `filter` drops the date columns from the column list.
 *
 * A row is a PHP array with string keys (`Php.Row`); a thrown exception is
 * an `Err`.
 */
module SpectralDataParser {
  import opened Common
  import opened Php
  import opened Compass

  const HeaderNotFoundMessage: string := "Header not found in spec file"

  /** The columns `filter` removes by default. */
  const DateColumns: seq<string> := ["YY", "MM", "DD", "hh", "mm"]

  /** `['columns' => ..., 'data' => ...]`. */
  datatype Parsed = Parsed(columns: seq<string>, data: seq<Row>)

  // ---------------------------------------------------------------------
  // The header (shared with the older parser)
  // ---------------------------------------------------------------------

  /** The literal `w` occurs at `i`. */
  predicate LitAt(t: string, i: nat, w: string)
  {
    i + |w| <= |t| && t[i..i + |w|] == w
  }

  /** The header pattern `^\s*#\s*YY\s+MM\s+DD`, case-sensitive and with nothing required after `DD`. */
  predicate HeaderMatch(line: string)
  {
    var i0 := SkipRegexWs(line, 0);
    i0 < |line| && line[i0] == '#' &&
    var i1 := SkipRegexWs(line, i0 + 1);
    LitAt(line, i1, "YY") && i1 + 2 < |line| && IsRegexWs(line[i1 + 2]) &&
    var i2 := SkipRegexWs(line, i1 + 2);
    LitAt(line, i2, "MM") && i2 + 2 < |line| && IsRegexWs(line[i2 + 2]) &&
    LitAt(line, SkipRegexWs(line, i2 + 2), "DD")
  }

  /**
   * `preg_split('/\s+/', trim(substr($line, 1)))`: the header's columns,
   * after dropping its first character (the `#` when it starts the line).
   */
  function HeaderColumns(line: string): (cols: seq<string>)
    ensures |cols| >= 1
  {
    SplitWs(Trim(if |line| == 0 then "" else line[1..]))
  }

  /** Which lines the test `p` accepts. */
  function FlagsOf(lines: seq<string>, p: string -> bool): (f: seq<bool>)
    ensures |f| == |lines|
    ensures forall i :: 0 <= i < |lines| ==> f[i] == p(lines[i])
  {
    seq(|lines|, i requires 0 <= i < |lines| => p(lines[i]))
  }

  /** Which lines match the header pattern. */
  function HeaderFlags(lines: seq<string>): (f: seq<bool>)
    ensures |f| == |lines|
    ensures forall i :: 0 <= i < |lines| ==> f[i] == HeaderMatch(lines[i])
  {
    FlagsOf(lines, HeaderMatch)
  }

  /** The first marked index at or after `i`. */
  function FirstMarked(flags: seq<bool>, i: nat): (r: Option<nat>)
    ensures r.None? ==> forall j :: i <= j < |flags| ==> !flags[j]
    ensures r.Some? ==> i <= r.value < |flags| && flags[r.value] && forall j :: i <= j < r.value ==> !flags[j]
    decreases |flags| - i
  {
    if i >= |flags| then None
    else if flags[i] then Some(i)
    else FirstMarked(flags, i + 1)
  }

  /** The first header line, if any. */
  function FirstHeader(lines: seq<string>): (r: Option<nat>)
    ensures r.Some? ==> r.value < |lines|
  {
    FirstMarked(HeaderFlags(lines), 0)
  }

  /** The first header is the first line matching the pattern, and there is none only when no line matches. */
  lemma FirstHeaderIsFirstMatch(lines: seq<string>)
    ensures var h := FirstHeader(lines);
      (h.None? <==> forall i :: 0 <= i < |lines| ==> !HeaderMatch(lines[i])) &&
      (h.Some? ==> HeaderMatch(lines[h.value]) && forall i :: 0 <= i < h.value ==> !HeaderMatch(lines[i]))
  {
    var f := HeaderFlags(lines);
    forall i | 0 <= i < |lines|
      ensures f[i] <==> HeaderMatch(lines[i])
    {
    }
  }

  /**
   * The header `foreach` with its `break`: the columns and the data start
   * of the first header line, or none.
   */
  method FindHeader(lines: seq<string>) returns (cols: seq<string>, startRow: Option<nat>)
    ensures FirstHeader(lines).None? ==> cols == [] && startRow.None?
    ensures FirstHeader(lines).Some? ==>
      cols == HeaderColumns(lines[FirstHeader(lines).value]) && startRow == Some(FirstHeader(lines).value + 2)
  {
    var k := FirstAccepted(lines, HeaderMatch);
    if k.None? {
      return [], None;
    }
    cols := HeaderColumns(lines[k.value]);
    startRow := Some(k.value + 2);
  }

  /** The `foreach` over the lines that stops at the first one `p` accepts. */
  method FirstAccepted(lines: seq<string>, p: string -> bool) returns (k: Option<nat>)
    ensures k == FirstMarked(FlagsOf(lines, p), 0)
  {
    ghost var flags := FlagsOf(lines, p);
    var i := 0;
    while i < |lines|
      invariant 0 <= i <= |lines|
      invariant FirstMarked(flags, 0) == FirstMarked(flags, i)
    {
      if p(lines[i]) {
        return Some(i);
      }
      i := i + 1;
    }
    return None;
  }

  // ---------------------------------------------------------------------
  // Rows (the fold is shared with the older parser)
  // ---------------------------------------------------------------------

  /** `$vals[$idx] ?? null`. */
  function Token(vals: seq<string>, i: nat): (r: Option<string>)
    ensures r.Some? <==> i < |vals|
  {
    if i < |vals| then Some(vals[i]) else None
  }

  /** `%d` of the `i`th token: its `(int)` value, or 0 for a token past the end. */
  function IntToken(vals: seq<string>, i: nat): int
  {
    if i < |vals| then IntCast(PStr(vals[i])) else 0
  }

  /** The `sprintf('%04d-%02d-%02d %02d:%02d:00', ...)` of the first five tokens. */
  function Timestamp(vals: seq<string>): string
  {
    SqlTimestamp(IntToken(vals, 0), IntToken(vals, 1), IntToken(vals, 2), IntToken(vals, 3), IntToken(vals, 4))
  }

  /** Five leading digit tokens of the right widths read back from the timestamp. */
  lemma TimestampReadsBack(vals: seq<string>)
    requires |vals| >= 5 && forall i :: 0 <= i < 5 ==> |vals[i]| > 0 && AllDigits(vals[i])
    requires DigitsValue(vals[0]) < 10000 && forall i :: 1 <= i < 5 ==> DigitsValue(vals[i]) < 100
    ensures ReadSqlTimestamp(Timestamp(vals)) ==
      Some((DigitsValue(vals[0]), DigitsValue(vals[1]), DigitsValue(vals[2]), DigitsValue(vals[3]), DigitsValue(vals[4])))
  {
    forall i | 0 <= i < 5
      ensures IntToken(vals, i) == DigitsValue(vals[i])
    {
      DigitsAreNumeric(vals[i]);
    }
    SqlTimestampRoundTrip(IntToken(vals, 0), IntToken(vals, 1), IntToken(vals, 2), IntToken(vals, 3), IntToken(vals, 4));
  }

  /**
   * `$row = ['ts' => $ts]` followed by `$row[$col] = ...` for the first `k`
   * columns, with `cells[j]` the value of column `j`.
   */
  function RowAfter(ts: string, cols: seq<string>, cells: seq<PVal>, k: nat): Row
    requires k <= |cols| <= |cells|
  {
    if k == 0 then map["ts" := PStr(ts)]
    else RowAfter(ts, cols, cells, k - 1)[cols[k - 1] := cells[k - 1]]
  }

  /**
   * A built row has the key `ts` and one key per column; a column holds the
   * value of its last position, and `ts` the timestamp unless a column is
   * itself called `ts`.
   */
  lemma RowAfterSpec(ts: string, cols: seq<string>, cells: seq<PVal>, k: nat)
    requires k <= |cols| <= |cells|
    ensures var row := RowAfter(ts, cols, cells, k);
      (forall c :: c in row <==> c == "ts" || c in cols[..k]) &&
      ("ts" !in cols[..k] ==> row["ts"] == PStr(ts)) &&
      (forall j :: 0 <= j < k && (forall l :: j < l < k ==> cols[l] != cols[j]) ==> row[cols[j]] == cells[j])
  {
    RowAfterKeys(ts, cols, cells, k);
    RowAfterTs(ts, cols, cells, k);
    forall j | 0 <= j < k && (forall l :: j < l < k ==> cols[l] != cols[j])
      ensures RowAfter(ts, cols, cells, k)[cols[j]] == cells[j]
    {
      RowAfterLastWins(ts, cols, cells, k, j);
    }
  }

  /** The keys of a built row: `ts` and the first `k` columns. */
  lemma {:induction false} RowAfterKeys(ts: string, cols: seq<string>, cells: seq<PVal>, k: nat)
    requires k <= |cols| <= |cells|
    ensures forall c :: c in RowAfter(ts, cols, cells, k) <==> c == "ts" || c in cols[..k]
  {
    if k > 0 {
      RowAfterKeys(ts, cols, cells, k - 1);
      assert cols[..k] == cols[..k - 1] + [cols[k - 1]];
    }
  }

  /** `ts` keeps the timestamp unless a column is called `ts`. */
  lemma {:induction false} RowAfterTs(ts: string, cols: seq<string>, cells: seq<PVal>, k: nat)
    requires k <= |cols| <= |cells|
    ensures "ts" !in cols[..k] ==>
      "ts" in RowAfter(ts, cols, cells, k) && RowAfter(ts, cols, cells, k)["ts"] == PStr(ts)
  {
    if k > 0 {
      assert cols[..k] == cols[..k - 1] + [cols[k - 1]];
      RowAfterTs(ts, cols, cells, k - 1);
    }
  }

  /** A column not repeated later holds the value of its position. */
  lemma {:induction false} RowAfterLastWins(ts: string, cols: seq<string>, cells: seq<PVal>, k: nat, j: nat)
    requires j < k <= |cols| <= |cells|
    requires forall l :: j < l < k ==> cols[l] != cols[j]
    ensures cols[j] in RowAfter(ts, cols, cells, k) && RowAfter(ts, cols, cells, k)[cols[j]] == cells[j]
  {
    if j < k - 1 {
      RowAfterLastWins(ts, cols, cells, k - 1, j);
    }
  }

  /** One step of the fold: setting the next column to its value. */
  lemma RowAfterStep(ts: string, cols: seq<string>, cells: seq<PVal>, k: nat, row: Row, v: PVal)
    requires k < |cols| <= |cells| && row == RowAfter(ts, cols, cells, k) && v == cells[k]
    ensures row[cols[k] := v] == RowAfter(ts, cols, cells, k + 1)
  {
  }

  // ---------------------------------------------------------------------
  // Values
  // ---------------------------------------------------------------------

  /** `strtoupper($s) === 'N/A'`, character by character. */
  predicate IsNA(s: string)
  {
    |s| == 3 && UpperChar(s[0]) == 'N' && s[1] == '/' && UpperChar(s[2]) == 'A'
  }

  lemma IsNAIsUpperNA(s: string)
    ensures IsNA(s) <==> Upper(s) == "N/A"
  {
    if Upper(s) == "N/A" {
      assert Upper(s)[0] == 'N' && Upper(s)[1] == '/' && Upper(s)[2] == 'A';
    }
  }

  /**
   * One value: null for an absent token, `N/A` (any case) or a blank token;
   * the compass table for SwD and WWD (null for an unknown name); the raw
   * text for STEEPNESS; otherwise the float of a numeric token, or null.
   */
  function Cell(col: string, raw: Option<string>): PVal
  {
    if raw.None? || IsNA(raw.value) || |Trim(raw.value)| == 0 then PNull
    else if col == "SwD" || col == "WWD" then
      match SpecDirDegrees(raw.value)
      case Some(d) => PInt(d)
      case None => PNull
    else if col == "STEEPNESS" then PStr(raw.value)
    else if IsNumericStr(raw.value) then PFloat(FloatCast(PStr(raw.value)))
    else PNull
  }

  /** What each kind of value says about its column and token. */
  lemma CellKinds(col: string, raw: Option<string>)
    ensures var v := Cell(col, raw);
      (raw.None? || IsNA(raw.value) || |Trim(raw.value)| == 0 ==> v == PNull) &&
      (v.PInt? ==> (col == "SwD" || col == "WWD") && v.i in SpecDegrees) &&
      (v.PStr? ==> col == "STEEPNESS" && raw == Some(v.s)) &&
      (v.PFloat? ==> col != "SwD" && col != "WWD" && col != "STEEPNESS" && IsNumericStr(raw.value) &&
                     v.f == LeadingFloat(raw.value)) &&
      (!v.PNull? ==> raw.Some? && !IsNA(raw.value) && |Trim(raw.value)| > 0)
  {
    if raw.Some? && !(IsNA(raw.value) || |Trim(raw.value)| == 0) && (col == "SwD" || col == "WWD") {
      SpecDirDegreesInTable(raw.value);
    }
  }

  /** The values of a line, one per column. */
  function Cells(cols: seq<string>, vals: seq<string>): (cells: seq<PVal>)
    ensures |cells| == |cols|
    ensures forall j :: 0 <= j < |cols| ==> cells[j] == Cell(cols[j], Token(vals, j))
  {
    seq(|cols|, j requires 0 <= j < |cols| => Cell(cols[j], Token(vals, j)))
  }

  /** The inner `foreach` that fills the row of one data line. */
  method BuildRow(ts: string, cols: seq<string>, vals: seq<string>) returns (row: Row)
    ensures row == RowAfter(ts, cols, Cells(cols, vals), |cols|)
  {
    ghost var cells := Cells(cols, vals);
    row := map["ts" := PStr(ts)];
    var idx := 0;
    while idx < |cols|
      invariant 0 <= idx <= |cols|
      invariant row == RowAfter(ts, cols, cells, idx)
    {
      var v := Cell(cols[idx], Token(vals, idx));
      RowAfterStep(ts, cols, cells, idx, row, v);
      row := row[cols[idx] := v];
      idx := idx + 1;
    }
  }

  // ---------------------------------------------------------------------
  // Data lines
  // ---------------------------------------------------------------------

  /** A data line is skipped when blank or a comment once trimmed, or short of tokens. */
  predicate Skipped(raw: string, ncols: nat)
  {
    var line := Trim(raw);
    line == "" || line[0] == '#' || |SplitWs(line)| < ncols
  }

  /** The row of one data line, or nothing when it is skipped. */
  function LineRow(raw: string, cols: seq<string>): (r: Option<Row>)
    ensures r.None? <==> Skipped(raw, |cols|)
    ensures r.Some? ==>
      var vals := SplitWs(Trim(raw));
      r.value == RowAfter(Timestamp(vals), cols, Cells(cols, vals), |cols|)
  {
    var line := Trim(raw);
    if line == "" || line[0] == '#' then None
    else
      var vals := SplitWs(line);
      if |vals| < |cols| then None
      else Some(RowAfter(Timestamp(vals), cols, Cells(cols, vals), |cols|))
  }

  /** What the data loop makes of each line. */
  function LineRows(lines: seq<string>, cols: seq<string>): (rs: seq<Option<Row>>)
    ensures |rs| == |lines|
    ensures forall i :: 0 <= i < |lines| ==> rs[i] == LineRow(lines[i], cols)
  {
    seq(|lines|, i requires 0 <= i < |lines| => LineRow(lines[i], cols))
  }

  /** A row whose keys are `ts` and the columns, and no other. */
  ghost predicate KeyedBy(x: Row, cols: seq<string>)
  {
    forall c :: c in x <==> c == "ts" || c in cols
  }

  /** Every row of a line that is kept has the key `ts` and one key per column, and no other. */
  lemma LineRowKeys(raw: string, cols: seq<string>)
    requires LineRow(raw, cols).Some?
    ensures KeyedBy(LineRow(raw, cols).value, cols)
  {
    var vals := SplitWs(Trim(raw));
    RowAfterSpec(Timestamp(vals), cols, Cells(cols, vals), |cols|);
    assert cols[..|cols|] == cols;
  }

  /** The data `for` loop from the data start to the end of the lines. */
  method ReadRows(lines: seq<string>, cols: seq<string>, startRow: nat) returns (data: seq<Row>)
    ensures data == Kept(LineRows(lines, cols), startRow, |lines|)
  {
    ghost var rs := LineRows(lines, cols);
    data := [];
    var i := startRow;
    if i >= |lines| {
      return;
    }
    while i < |lines|
      invariant startRow <= i <= |lines|
      invariant data == Kept(rs, startRow, i)
    {
      assert rs[i] == LineRow(lines[i], cols);
      var line := Trim(lines[i]);
      if line == "" || line[0] == '#' {
        KeptStep(rs, startRow, i, data, None);
        i := i + 1;
        continue;
      }
      var vals := SplitWs(line);
      if |vals| < |cols| {
        KeptStep(rs, startRow, i, data, None);
        i := i + 1;
        continue;
      }
      var ts := Timestamp(vals);
      var row := BuildRow(ts, cols, vals);
      KeptStep(rs, startRow, i, data, Some(row));
      data := data + [row];
      i := i + 1;
    }
  }

  // ---------------------------------------------------------------------
  // parse and filter
  // ---------------------------------------------------------------------

  /** What `parse` returns for `lines`. */
  function ParseSpec(lines: seq<string>): Result<Parsed>
  {
    match FirstHeader(lines)
    case None => Err(HeaderNotFoundMessage)
    case Some(h) =>
      var cols := HeaderColumns(lines[h]);
      Ok(Parsed(cols, Kept(LineRows(lines, cols), h + 2, |lines|)))
  }

  /** `parse`: the header scan, then the data loop. */
  method Parse(lines: seq<string>) returns (r: Result<Parsed>)
    ensures r == ParseSpec(lines)
  {
    var cols, startRow := FindHeader(lines);
    if |cols| == 0 || startRow.None? {
      return Err(HeaderNotFoundMessage);
    }
    var data := ReadRows(lines, cols, startRow.value);
    r := Ok(Parsed(cols, data));
  }

  /** `parse` throws exactly when no line matches the header pattern. */
  lemma ParseFailsIffNoHeader(lines: seq<string>)
    ensures ParseSpec(lines).Err? <==> forall i :: 0 <= i < |lines| ==> !HeaderMatch(lines[i])
  {
    FirstHeaderIsFirstMatch(lines);
  }

  /**
   * With a header, `parse` succeeds with the columns of the first header,
   * and as data the rows of the lines from two below it that are not
   * skipped, in line order (at most one per line; `Common.KeptSpec` says
   * which).
   */
  lemma ParseData(lines: seq<string>)
    requires FirstHeader(lines).Some?
    ensures var h := FirstHeader(lines).value;
      var cols := HeaderColumns(lines[h]);
      var data := Kept(LineRows(lines, cols), h + 2, |lines|);
      ParseSpec(lines) == Ok(Parsed(cols, data)) &&
      |data| <= |lines|
  {
    var h := FirstHeader(lines).value;
    var cols := HeaderColumns(lines[h]);
    KeptSpec(LineRows(lines, cols), h + 2, |lines|);
  }

  /** Every row of a successful `parse` is keyed by `ts` and the columns, and nothing else. */
  lemma ParseRowKeys(lines: seq<string>)
    requires FirstHeader(lines).Some?
    ensures var p := ParseSpec(lines).value;
      forall x :: x in p.data ==> KeyedBy(x, p.columns)
  {
    var h := FirstHeader(lines).value;
    var cols := HeaderColumns(lines[h]);
    var rs := LineRows(lines, cols);
    var data := Kept(rs, h + 2, |lines|);
    assert ParseSpec(lines).value == Parsed(cols, data);
    forall x | x in data
      ensures KeyedBy(x, cols)
    {
      var i := KeptSource(rs, h + 2, |lines|, x);
      LineRowKeys(lines[i], cols);
    }
  }

  /**
   * `filter`: the columns not in `exclude`, under their original positions
   * (`array_filter` keeps keys), and the data as it was.
   */
  function Filter(p: Parsed, exclude: seq<string>): (r: (seq<(nat, string)>, seq<Row>))
    ensures r.1 == p.data
  {
    (FilterFrom(p.columns, exclude, 0), p.data)
  }

  function FilterFrom(cols: seq<string>, exclude: seq<string>, i: nat): seq<(nat, string)>
    decreases |cols| - i
  {
    if i >= |cols| then []
    else if cols[i] in exclude then FilterFrom(cols, exclude, i + 1)
    else [(i, cols[i])] + FilterFrom(cols, exclude, i + 1)
  }

  /**
   * The kept columns are exactly the columns not excluded, each under its
   * own position, with positions ascending.
   */
  lemma {:induction false} FilterFromSpec(cols: seq<string>, exclude: seq<string>, i: nat)
    ensures var r := FilterFrom(cols, exclude, i);
      (forall e :: e in r <==> i <= e.0 < |cols| && e.1 == cols[e.0] && cols[e.0] !in exclude) &&
      (forall a, b :: 0 <= a < b < |r| ==> r[a].0 < r[b].0) &&
      (forall a :: 0 <= a < |r| ==> i <= r[a].0)
    decreases |cols| - i
  {
    if i < |cols| {
      FilterFromSpec(cols, exclude, i + 1);
    }
  }

  /** With the default exclusions no date column is left, and every other column is. */
  lemma FilterDropsDateColumns(p: Parsed)
    ensures forall e :: e in Filter(p, DateColumns).0 ==> e.1 !in DateColumns
    ensures forall j :: 0 <= j < |p.columns| && p.columns[j] !in DateColumns ==> (j, p.columns[j]) in Filter(p, DateColumns).0
  {
    FilterFromSpec(p.columns, DateColumns, 0);
  }
}
