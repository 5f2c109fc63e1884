/**
 * `Helpers\SpectralDataParser`: the older `.spec` parser. The header scan
 * and the timestamp are those of `SpectralDataParser`; it differs in its
 * error message, in skipping only lines short of tokens (blank and `#`
 * lines are read as data when they have enough tokens), and in its null
 * test, which trims the token before comparing it with `N/A` and does not
 * test for a blank token.
 */
module SpectralDataParserHelpers {
  import opened Common
  import opened Php
  import opened Compass
  import SP = SpectralDataParser

  const HeaderNotFoundMessage: string := "Spec header not found."

  /**
   * One value: null for an absent token or a trimmed `N/A` (any case); the
   * compass table for SwD and WWD (null for an unknown name); the raw text
   * for STEEPNESS; otherwise the float of a numeric token, or null.
   */
  function Cell(col: string, raw: Option<string>): PVal
  {
    if raw.None? || SP.IsNA(Trim(raw.value)) then PNull
    else if col == "SwD" || col == "WWD" then
      match SpecDirDegrees(raw.value)
      case Some(d) => PInt(d)
      case None => PNull
    else if col == "STEEPNESS" then PStr(raw.value)
    else if IsNumericStr(raw.value) then PFloat(FloatCast(PStr(raw.value)))
    else PNull
  }

  /** What each kind of value says about its column and token. */
  lemma CellKinds(col: string, raw: Option<string>)
    ensures var v := Cell(col, raw);
      (raw.None? || SP.IsNA(Trim(raw.value)) ==> v == PNull) &&
      (v.PInt? ==> (col == "SwD" || col == "WWD") && v.i in SpecDegrees) &&
      (v.PStr? ==> col == "STEEPNESS" && raw == Some(v.s)) &&
      (v.PFloat? ==> col != "SwD" && col != "WWD" && col != "STEEPNESS" && IsNumericStr(raw.value) &&
                     v.f == LeadingFloat(raw.value)) &&
      (!v.PNull? ==> raw.Some? && !SP.IsNA(Trim(raw.value)))
  {
    if raw.Some? && !SP.IsNA(Trim(raw.value)) && (col == "SwD" || col == "WWD") {
      SpecDirDegreesInTable(raw.value);
    }
  }

  /**
   * The two parsers read a token the same way except that this one does
   * not null a blank token, and nulls `N/A` with surrounding whitespace.
   * On non-empty tokens with no whitespace around them, which is what a
   * split non-blank line yields, they agree.
   */
  lemma SameCellOnBareTokens(col: string, raw: Option<string>)
    requires raw.Some? ==> |raw.value| > 0 && !IsTrimWs(raw.value[0]) && !IsTrimWs(raw.value[|raw.value| - 1])
    ensures Cell(col, raw) == SP.Cell(col, raw)
  {
    if raw.Some? {
      TrimOfBare(raw.value);
    }
  }

  /** A string with no trimmed whitespace at either end is its own trim. */
  lemma TrimOfBare(s: string)
    requires |s| > 0 && !IsTrimWs(s[0]) && !IsTrimWs(s[|s| - 1])
    ensures Trim(s) == s
  {
    assert TrimLeft(s) == s;
  }

  /** The values of a line, one per column. */
  function Cells(cols: seq<string>, vals: seq<string>): (cells: seq<PVal>)
    ensures |cells| == |cols|
    ensures forall j :: 0 <= j < |cols| ==> cells[j] == Cell(cols[j], SP.Token(vals, j))
  {
    seq(|cols|, j requires 0 <= j < |cols| => Cell(cols[j], SP.Token(vals, j)))
  }

  /** The inner `foreach` that fills the row of one data line. */
  method BuildRow(ts: string, cols: seq<string>, vals: seq<string>) returns (row: Row)
    ensures row == SP.RowAfter(ts, cols, Cells(cols, vals), |cols|)
  {
    ghost var cells := Cells(cols, vals);
    row := map["ts" := PStr(ts)];
    var idx := 0;
    while idx < |cols|
      invariant 0 <= idx <= |cols|
      invariant row == SP.RowAfter(ts, cols, cells, idx)
    {
      var v := Cell(cols[idx], SP.Token(vals, idx));
      SP.RowAfterStep(ts, cols, cells, idx, row, v);
      row := row[cols[idx] := v];
      idx := idx + 1;
    }
  }

  /** The row of one data line, or nothing when it has fewer tokens than there are columns. */
  function LineRow(raw: string, cols: seq<string>): (r: Option<Row>)
    ensures r.None? <==> |SplitWs(Trim(raw))| < |cols|
    ensures r.Some? ==>
      var vals := SplitWs(Trim(raw));
      r.value == SP.RowAfter(SP.Timestamp(vals), cols, Cells(cols, vals), |cols|)
  {
    var vals := SplitWs(Trim(raw));
    if |vals| < |cols| then None
    else Some(SP.RowAfter(SP.Timestamp(vals), cols, Cells(cols, vals), |cols|))
  }

  /** What the data loop makes of each line. */
  function LineRows(lines: seq<string>, cols: seq<string>): (rs: seq<Option<Row>>)
    ensures |rs| == |lines|
    ensures forall i :: 0 <= i < |lines| ==> rs[i] == LineRow(lines[i], cols)
  {
    seq(|lines|, i requires 0 <= i < |lines| => LineRow(lines[i], cols))
  }

  /**
   * Unlike the newer parser, a `#` line with enough tokens is read as a row,
   * where the newer parser skips it.
   */
  lemma CommentLinesAreRows(raw: string, cols: seq<string>)
    requires |Trim(raw)| > 0 && Trim(raw)[0] == '#'
    requires |SplitWs(Trim(raw))| >= |cols|
    ensures LineRow(raw, cols).Some?
    ensures SP.LineRow(raw, cols).None?
  {
  }

  /**
   * A second copy of the header line further down the file is such a line:
   * it matches the header pattern, gives three columns, and as data it
   * becomes a row here while the newer parser skips it.
   */
  lemma RepeatedHeaderIsRow()
    ensures SP.HeaderMatch(RepeatedHeader)
    ensures SP.HeaderColumns(RepeatedHeader) == RepeatedColumns
    ensures LineRow(RepeatedHeader, RepeatedColumns).Some?
    ensures SP.LineRow(RepeatedHeader, RepeatedColumns).None?
  {
    var h := RepeatedHeader;
    RepeatedHeaderMatches();
    RepeatedHeaderColumns();
    RepeatedHeaderTokens();
    assert h[0] == '#';
    CommentLinesAreRows(h, RepeatedColumns);
  }

  /** The shortest header line, and its columns. */
  const RepeatedHeader: string := "#YY MM DD"
  const RepeatedColumns: seq<string> := ["YY", "MM", "DD"]

  /** It matches `^\s*#\s*YY\s+MM\s+DD`. */
  lemma RepeatedHeaderMatches()
    ensures SP.HeaderMatch(RepeatedHeader)
  {
    var h := RepeatedHeader;
    assert SkipRegexWs(h, 0) == 0;
    assert SkipRegexWs(h, 1) == 1;
    assert h[1..3] == "YY";
    assert SkipRegexWs(h, 4) == 4;
    assert h[4..6] == "MM";
    assert SkipRegexWs(h, 7) == 7;
    assert h[7..9] == "DD";
  }

  /** Dropping the `#` leaves the three columns. */
  lemma RepeatedHeaderColumns()
    ensures SP.HeaderColumns(RepeatedHeader) == RepeatedColumns
  {
    var t := RepeatedHeader[1..];
    assert t == "YY" + " " + MmDd;
    MmDdSplits();
    SplitWordSpace("YY", MmDd);
    TrimOfBare(t);
  }

  /** Read as data, it is already trimmed and has as many tokens as columns. */
  lemma RepeatedHeaderTokens()
    ensures Trim(RepeatedHeader) == RepeatedHeader
    ensures |SplitWs(RepeatedHeader)| == |RepeatedColumns|
  {
    var h := RepeatedHeader;
    assert Trim(h) == h by { TrimOfBare(h); }
    assert SplitWs(h) == ["#YY", "MM", "DD"] by {
      assert h == "#YY" + " " + MmDd;
      MmDdSplits();
      SplitWordSpace("#YY", MmDd);
    }
  }

  /** The header's last two columns. */
  const MmDd: string := "MM DD"

  /** `MM DD` splits into its two words. */
  lemma MmDdSplits()
    ensures SplitWs(MmDd) == ["MM", "DD"]
  {
    assert MmDd == "MM" + " " + "DD";
    SplitWord("DD");
    SplitWordSpace("MM", "DD");
  }

  /** A word without `\s` is a single piece. */
  lemma SplitWord(w: string)
    requires forall k :: 0 <= k < |w| ==> !IsRegexWs(w[k])
    ensures SplitWs(w) == [w]
  {
    FindWordEnd(w, 0, |w|);
  }

  /** A word, one space and a rest that starts with a non-`\s` character: the word, then the rest's pieces. */
  lemma SplitWordSpace(w: string, rest: string)
    requires forall k :: 0 <= k < |w| ==> !IsRegexWs(w[k])
    requires |rest| > 0 && !IsRegexWs(rest[0])
    ensures SplitWs(w + " " + rest) == [w] + SplitWs(rest)
  {
    var s := w + " " + rest;
    FindWordEnd(s, 0, |w|);
    assert s[|w| + 1] == rest[0];
    assert SkipRegexWs(s, |w| + 1) == |w| + 1;
    assert SkipRegexWs(s, |w|) == |w| + 1;
    assert s[..|w|] == w;
    assert s[|w| + 1..] == rest;
  }

  /** The `\s` search from the start of a word stops at its end. */
  lemma FindWordEnd(s: string, i: nat, e: nat)
    requires i <= e <= |s|
    requires forall k :: i <= k < e ==> !IsRegexWs(s[k])
    requires e < |s| ==> IsRegexWs(s[e])
    ensures FindRegexWs(s, i) == e
    decreases e - i
  {
    if i < e {
      FindWordEnd(s, i + 1, e);
    }
  }

  /** Every row of a line that is kept has the key `ts` and one key per column, and no other. */
  lemma LineRowKeys(raw: string, cols: seq<string>)
    requires LineRow(raw, cols).Some?
    ensures SP.KeyedBy(LineRow(raw, cols).value, cols)
  {
    var vals := SplitWs(Trim(raw));
    SP.RowAfterSpec(SP.Timestamp(vals), cols, Cells(cols, vals), |cols|);
    assert cols[..|cols|] == cols;
  }

  /** The data `for` loop from the data start to the end of the lines. */
  method ReadRows(lines: seq<string>, cols: seq<string>, startRow: nat) returns (data: seq<Row>)
    ensures data == Kept(LineRows(lines, cols), startRow, |lines|)
  {
    ghost var rs := LineRows(lines, cols);
    data := [];
    var i := startRow;
    if i >= |lines| {
      return;
    }
    while i < |lines|
      invariant startRow <= i <= |lines|
      invariant data == Kept(rs, startRow, i)
    {
      var vals := SplitWs(Trim(lines[i]));
      if |vals| < |cols| {
        KeptStep(rs, startRow, i, data, None);
        i := i + 1;
        continue;
      }
      var ts := SP.Timestamp(vals);
      var row := BuildRow(ts, cols, vals);
      KeptStep(rs, startRow, i, data, Some(row));
      data := data + [row];
      i := i + 1;
    }
  }

  /** What `parse` returns for `lines`. */
  function ParseSpec(lines: seq<string>): Result<SP.Parsed>
  {
    match SP.FirstHeader(lines)
    case None => Err(HeaderNotFoundMessage)
    case Some(h) =>
      var cols := SP.HeaderColumns(lines[h]);
      Ok(SP.Parsed(cols, Kept(LineRows(lines, cols), h + 2, |lines|)))
  }

  /** `parse`: the same header scan as the newer parser, then this parser's data loop. */
  method Parse(lines: seq<string>) returns (r: Result<SP.Parsed>)
    ensures r == ParseSpec(lines)
  {
    var cols, startRow := SP.FindHeader(lines);
    if |cols| == 0 || startRow.None? {
      return Err(HeaderNotFoundMessage);
    }
    var data := ReadRows(lines, cols, startRow.value);
    r := Ok(SP.Parsed(cols, data));
  }

  /** `parse` throws exactly when no line matches the header pattern. */
  lemma ParseFailsIffNoHeader(lines: seq<string>)
    ensures ParseSpec(lines).Err? <==> forall i :: 0 <= i < |lines| ==> !SP.HeaderMatch(lines[i])
  {
    SP.FirstHeaderIsFirstMatch(lines);
  }

  /**
   * With a header, `parse` succeeds with the columns of the first header,
   * and as data the rows of the lines from two below it with enough tokens,
   * in line order (at most one per line).
   */
  lemma ParseData(lines: seq<string>)
    requires SP.FirstHeader(lines).Some?
    ensures var h := SP.FirstHeader(lines).value;
      var cols := SP.HeaderColumns(lines[h]);
      var data := Kept(LineRows(lines, cols), h + 2, |lines|);
      ParseSpec(lines) == Ok(SP.Parsed(cols, data)) &&
      |data| <= |lines|
  {
    var h := SP.FirstHeader(lines).value;
    var cols := SP.HeaderColumns(lines[h]);
    KeptSpec(LineRows(lines, cols), h + 2, |lines|);
  }

  /** Every row of a successful `parse` is keyed by `ts` and the columns, and nothing else. */
  lemma ParseRowKeys(lines: seq<string>)
    requires SP.FirstHeader(lines).Some?
    ensures var p := ParseSpec(lines).value;
      forall x :: x in p.data ==> SP.KeyedBy(x, p.columns)
  {
    var h := SP.FirstHeader(lines).value;
    var cols := SP.HeaderColumns(lines[h]);
    var rs := LineRows(lines, cols);
    var data := Kept(rs, h + 2, |lines|);
    assert ParseSpec(lines).value == SP.Parsed(cols, data);
    forall x | x in data
      ensures SP.KeyedBy(x, cols)
    {
      var i := KeptSource(rs, h + 2, |lines|, x);
      LineRowKeys(lines[i], cols);
    }
  }
}
