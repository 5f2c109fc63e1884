/**
 * `Repositories\NoaaTideRepository`: imports a NOAA annual high/low tide
 * prediction file (XML) into a per-station table. Two item schemas are
 * read: child elements (`date`, `time`, `highlow`, `pred_in_ft`,
 * `pred_in_cm`) and attributes (`t`, `v`, `type`, with the root's `units`).
 * Each usable item becomes one row of heights in metres and feet, an
 * H/L/I type, the datum and the source year.
 *
 * The XML document is given already parsed, as `XmlDoc`; a missing child
 * element or attribute text reads as `""`. Parsing a local date-time is an
 * oracle (to an instant); the UTC/local columns and the upserts are not
 * modelled.
 */
module NoaaTideRepository {
  import opened Common
  import opened Php

  /** One `<item>`: with child elements, or with attributes only. */
  datatype XmlItem =
    | ChildItem(date: string, time: string, highlow: string, predInFt: string, predInCm: string)
    | AttrItem(t: Option<string>, v: Option<string>, typ: Option<string>)

  /**
   * The parts of a parsed file the import reads: `rootIsEmpty` for a root
   * with no children and no attributes (which PHP reads as false), the root
   * attributes `units` and `datum`, `datainfo/Datum`, `datainfo/BeginDate`,
   * and every `<item>` in document order.
   */
  datatype XmlDoc = XmlDoc(
    rootIsEmpty: bool,
    units: Option<string>,
    datumAttr: Option<string>,
    datainfoDatum: Option<string>,
    beginDate: Option<string>,
    items: seq<XmlItem>)

  /** One imported row; `when` is the instant the date-time oracle gave. */
  datatype TideRow = TideRow(when: int, heightM: real, heightFt: real, hlType: string, datum: string, srcYear: int)

  // ---------------------------------------------------------------------
  // Table name, datum, source year
  // ---------------------------------------------------------------------

  const DeriveMessage: string := "Unable to derive table name from filename; pass $tableName."

  /** `tableFor`: `tides_` and the digits of the id. */
  function TableFor(id: string): (r: string)
    ensures StartsWith(r, "tides_") && AllDigits(r[6..])
  {
    "tides_" + DigitsOnly(id)
  }

  /** Station ids keep their digits in order, whatever is around them. */
  lemma TableForKeepsDigits(pre: string, id: string, post: string)
    requires AllDigits(id) && DigitsOnly(pre) == [] && DigitsOnly(post) == []
    ensures TableFor(pre + id + post) == "tides_" + id
  {
    DigitsOnlyConcat(pre, id);
    DigitsOnlyConcat(pre + id, post);
    DigitsOnlyKeepsDigits(id);
  }

  /** `deriveTableNameFromFilename`: `tides_` and the first run of 6 to 9 digits in the base name. */
  function DeriveTableName(path: string): (r: Result<string>)
    ensures r.Err? <==> forall q :: 0 <= q ==> !DigitsAt(Basename(path), q, 6)
    ensures r.Err? ==> r.msg == DeriveMessage
    ensures r.Ok? ==> exists ds :: 6 <= |ds| <= 9 && AllDigits(ds) && r.value == "tides_" + ds
  {
    FirstDigitRunFromSpec(Basename(path), 6, 9, 0);
    match FirstDigitRun(Basename(path), 6, 9)
    case Some(ds) => Ok("tides_" + ds)
    case None => Err(DeriveMessage)
  }

  /** `8720030_annual.xml` names the table `tides_8720030`. */
  lemma DeriveTableNameOfAnnualFile(ds: string)
    requires 6 <= |ds| <= 9 && AllDigits(ds)
    ensures DeriveTableName(ds + "_annual.xml") == Ok("tides_" + ds)
  {
    var name := ds + "_annual.xml";
    assert !HasChar(ds, '/');
    HasCharConcat(ds, "_annual.xml", '/');
    assert name[|name| - 1] != '/';
    assert Basename(name) == name;
    assert name == "" + ds + "_annual.xml";
    FirstDigitRunAfter("", ds, "_annual.xml", 6, 9, 0);
  }

  /** `readDatum`: `datainfo/Datum`, else the root's `datum` attribute, trimmed; else none. */
  function ReadDatum(doc: XmlDoc): (r: Option<string>)
    ensures r.None? <==> doc.datainfoDatum.None? && doc.datumAttr.None?
    ensures doc.datainfoDatum.Some? ==> r == Some(Trim(doc.datainfoDatum.value))
  {
    if doc.datainfoDatum.Some? then Some(Trim(doc.datainfoDatum.value))
    else if doc.datumAttr.Some? then Some(Trim(doc.datumAttr.value))
    else None
  }

  /** `readDatum($xml) ?: 'MLLW'`: an absent, empty or `"0"` datum becomes MLLW. */
  function Datum(doc: XmlDoc): (r: string)
    ensures ReadDatum(doc).None? ==> r == "MLLW"
    ensures ReadDatum(doc).Some? && ReadDatum(doc).value != "" && ReadDatum(doc).value != "0" ==> r == ReadDatum(doc).value
    ensures ReadDatum(doc).Some? && (ReadDatum(doc).value == "" || ReadDatum(doc).value == "0") ==> r == "MLLW"
  {
    match ReadDatum(doc)
    case Some(d) => if Truthy(PStr(d)) then d else "MLLW"
    case None => "MLLW"
  }

  /** `readSrcYear`: the four leading digits of the trimmed `datainfo/BeginDate`, else none. */
  function ReadSrcYear(doc: XmlDoc): (r: Option<int>)
    ensures r.Some? ==> doc.beginDate.Some? && 0 <= r.value < 10000
    ensures r.Some? <==> doc.beginDate.Some? && |Trim(doc.beginDate.value)| >= 4 && AllDigits(Trim(doc.beginDate.value)[..4])
  {
    match doc.beginDate
    case None => None
    case Some(raw) =>
      var bd := Trim(raw);
      if |bd| >= 4 && AllDigits(bd[..4]) then
        DigitsBelow(bd[..4]);
        Some(DigitsValue(bd[..4]))
      else None
  }

  lemma {:induction false} DigitsBelow(s: string)
    requires AllDigits(s)
    ensures DigitsValue(s) < Pow10(|s|)
    decreases |s|
  {
    if |s| > 0 {
      DigitsBelow(s[..|s| - 1]);
    }
  }

  /** A `BeginDate` such as `20250101 00:00` gives the value of its first four digits. */
  lemma ReadSrcYearOfBeginDate(doc: XmlDoc, ys: string, rest: string)
    requires |ys| == 4 && AllDigits(ys) && doc.beginDate == Some(ys + rest)
    requires |rest| > 0 && !IsTrimWs(rest[|rest| - 1])
    ensures ReadSrcYear(doc) == Some(DigitsValue(ys))
  {
    var s := ys + rest;
    assert !IsTrimWs(s[0]);
    assert TrimLeft(s) == s;
    assert Trim(s) == s;
    assert s[..4] == ys;
  }

  /** `readSrcYear($xml) ?: (int)date('Y')`: without a year, or with year 0, the current year. */
  function SrcYear(doc: XmlDoc, currentYear: int): (r: int)
    ensures ReadSrcYear(doc).None? ==> r == currentYear
    ensures ReadSrcYear(doc).Some? && ReadSrcYear(doc).value != 0 ==> r == ReadSrcYear(doc).value
    ensures ReadSrcYear(doc).Some? && ReadSrcYear(doc).value == 0 ==> r == currentYear
  {
    match ReadSrcYear(doc)
    case Some(y) => if y != 0 then y else currentYear
    case None => currentYear
  }

  // ---------------------------------------------------------------------
  // Items
  // ---------------------------------------------------------------------

  /** `H` and `L` are kept; anything else is an interval row `I`. */
  function HlType(s: string): (r: string)
    ensures r == "H" || r == "L" || r == "I"
    ensures r != "I" <==> s == "H" || s == "L"
    ensures r != "I" ==> r == s
  {
    if s == "H" || s == "L" then s else "I"
  }

  /** A trimmed number as PHP reads it, or nothing when it is not numeric. */
  function Numeric(s: string): (r: Option<real>)
    ensures r.Some? <==> IsNumericStr(s)
  {
    if IsNumericStr(s) then Some(LeadingFloat(s)) else None
  }

  /** Child-schema feet: `pred_in_ft`, else centimetres over 30.48. */
  function FeetOf(ft: string, cm: string): (r: Option<real>)
    ensures r.None? <==> !IsNumericStr(ft) && !IsNumericStr(cm)
    ensures IsNumericStr(ft) ==> r == Some(LeadingFloat(ft))
    ensures !IsNumericStr(ft) && IsNumericStr(cm) ==> r == Some(LeadingFloat(cm) / 30.48)
  {
    if IsNumericStr(ft) then Some(LeadingFloat(ft))
    else if IsNumericStr(cm) then Some(LeadingFloat(cm) / 30.48)
    else None
  }

  /** Child-schema metres: centimetres over 100, else feet times 0.3048. */
  function MetresOf(ft: string, cm: string): (r: Option<real>)
    ensures r.None? <==> !IsNumericStr(ft) && !IsNumericStr(cm)
    ensures IsNumericStr(cm) ==> r == Some(LeadingFloat(cm) / 100.0)
    ensures !IsNumericStr(cm) && IsNumericStr(ft) ==> r == Some(LeadingFloat(ft) * 0.3048)
  {
    if IsNumericStr(cm) then Some(LeadingFloat(cm) / 100.0)
    else if IsNumericStr(ft) then Some(LeadingFloat(ft) * 0.3048)
    else None
  }

  /**
   * When the item gives only one of the two heights, the other is its exact
   * conversion: metres are always feet times 0.3048.
   */
  lemma ChildUnitsAgree(ft: string, cm: string)
    requires IsNumericStr(ft) != IsNumericStr(cm)
    ensures FeetOf(ft, cm).Some? && MetresOf(ft, cm).Some?
    ensures MetresOf(ft, cm).value == FeetOf(ft, cm).value * 0.3048
  {
  }

  const DateTimeMessage: string := "DateTime::__construct(): Failed to parse time string "

  /**
   * One item. A child item is skipped with an empty date or time, a
   * date-time that `parseLocal` rejects, or no numeric height; an attribute
   * item is skipped with an empty `t` or a non-numeric `v`, and a `t` that
   * `parseAttr` rejects throws. Heights are rounded to 3 places.
   */
  function ItemRow(it: XmlItem, units: string, datum: string, srcYear: int,
                   parseLocal: string -> Option<int>, parseAttr: string -> Option<int>)
    : (r: Result<Option<TideRow>>)
    ensures r.Err? ==> it.AttrItem?
    ensures r.Ok? && r.value.Some? ==>
      var row := r.value.value;
      (row.hlType == "H" || row.hlType == "L" || row.hlType == "I") &&
      row.datum == datum && row.srcYear == srcYear
  {
    match it
    case ChildItem(date, time, highlow, predFt, predCm) =>
      var d := Trim(date);
      var t := Trim(time);
      var hl := Upper(Trim(highlow));
      var ft := Trim(predFt);
      var cm := Trim(predCm);
      if d == "" || t == "" then Ok(None)
      else
        (match parseLocal(d + " " + t)
         case None => Ok(None)
         case Some(when) =>
           var hFt := FeetOf(ft, cm);
           var hM := MetresOf(ft, cm);
           if hM.None? || hFt.None? then Ok(None)
           else Ok(Some(TideRow(when, RoundTo(hM.value, 3), RoundTo(hFt.value, 3), HlType(hl), datum, srcYear))))
    case AttrItem(tA, vA, typ) =>
      var t := if tA.Some? then Trim(tA.value) else "";
      var v := if vA.Some? then Trim(vA.value) else "";
      var hl := if typ.Some? then Upper(typ.value) else "";
      if t == "" || !IsNumericStr(v) then Ok(None)
      else
        match parseAttr(t)
        case None => Err(DateTimeMessage + "(" + t + ")")
        case Some(when) =>
          Ok(Some(AttrRow(when, LeadingFloat(v), hl, units, datum, srcYear)))
  }

  /**
   * The row of an attribute item whose height reads as `x`: `x` is metres
   * when the root units are `meters` or `m`, feet otherwise.
   */
  function AttrRow(when: int, x: real, hl: string, units: string, datum: string, srcYear: int): (row: TideRow)
    ensures row.when == when && row.datum == datum && row.srcYear == srcYear
    ensures row.hlType == "H" || row.hlType == "L" || row.hlType == "I"
    ensures units == "meters" || units == "m" ==> row.heightM == RoundTo(x, 3) && row.heightFt == RoundTo(x / 0.3048, 3)
    ensures !(units == "meters" || units == "m") ==> row.heightFt == RoundTo(x, 3) && row.heightM == RoundTo(x * 0.3048, 3)
  {
    var metres := units == "meters" || units == "m";
    var hM := if metres then x else x * 0.3048;
    var hFt := if metres then x / 0.3048 else x;
    TideRow(when, RoundTo(hM, 3), RoundTo(hFt, 3), HlType(hl), datum, srcYear)
  }

  /**
   * Child-schema heights: feet come from `pred_in_ft`, else from the
   * centimetres; metres from the centimetres, else from the feet; an item
   * with neither is skipped.
   */
  lemma ChildHeights(date: string, time: string, highlow: string, predFt: string, predCm: string,
                     units: string, datum: string, srcYear: int,
                     parseLocal: string -> Option<int>, parseAttr: string -> Option<int>)
    requires Trim(date) != "" && Trim(time) != ""
    requires parseLocal(Trim(date) + " " + Trim(time)).Some?
    ensures var r := ItemRow(ChildItem(date, time, highlow, predFt, predCm), units, datum, srcYear, parseLocal, parseAttr);
      r.Ok? &&
      (r.value.None? <==> !IsNumericStr(Trim(predFt)) && !IsNumericStr(Trim(predCm))) &&
      (r.value.Some? ==>
         r.value.value.when == parseLocal(Trim(date) + " " + Trim(time)).value &&
         r.value.value.heightFt == RoundTo(FeetOf(Trim(predFt), Trim(predCm)).value, 3) &&
         r.value.value.heightM == RoundTo(MetresOf(Trim(predFt), Trim(predCm)).value, 3))
  {
  }

  /** A child item with an empty date or time, or a date-time that does not parse, is skipped. */
  lemma ChildSkips(it: XmlItem, units: string, datum: string, srcYear: int,
                   parseLocal: string -> Option<int>, parseAttr: string -> Option<int>)
    requires it.ChildItem?
    requires Trim(it.date) == "" || Trim(it.time) == "" || parseLocal(Trim(it.date) + " " + Trim(it.time)).None?
    ensures ItemRow(it, units, datum, srcYear, parseLocal, parseAttr) == Ok(None)
  {
  }

  /**
   * An attribute item with a non-empty `t`, a numeric `v` and a parsable
   * time gives a row: `v` is metres when the root units are `meters` or
   * `m`, feet otherwise, and the other height is converted from it.
   */
  lemma AttrHeights(t: string, v: string, typ: Option<string>, units: string, datum: string, srcYear: int,
                    parseLocal: string -> Option<int>, parseAttr: string -> Option<int>)
    requires Trim(t) != "" && IsNumericStr(Trim(v)) && parseAttr(Trim(t)).Some?
    ensures var x := LeadingFloat(Trim(v));
      var r := ItemRow(AttrItem(Some(t), Some(v), typ), units, datum, srcYear, parseLocal, parseAttr);
      r.Ok? && r.value.Some? &&
      ((units == "meters" || units == "m") ==>
         r.value.value.heightM == RoundTo(x, 3) && r.value.value.heightFt == RoundTo(x / 0.3048, 3)) &&
      (!(units == "meters" || units == "m") ==>
         r.value.value.heightFt == RoundTo(x, 3) && r.value.value.heightM == RoundTo(x * 0.3048, 3))
  {
    var it := AttrItem(Some(t), Some(v), typ);
    var when := parseAttr(Trim(t)).value;
    var hl := if typ.Some? then Upper(typ.value) else "";
    assert ItemRow(it, units, datum, srcYear, parseLocal, parseAttr)
      == Ok(Some(AttrRow(when, LeadingFloat(Trim(v)), hl, units, datum, srcYear)));
  }

  /** An attribute item whose time does not parse makes the import throw; other attribute items never do. */
  lemma AttrThrowsOnlyOnBadTime(it: XmlItem, units: string, datum: string, srcYear: int,
                                parseLocal: string -> Option<int>, parseAttr: string -> Option<int>)
    requires it.AttrItem?
    ensures var t := if it.t.Some? then Trim(it.t.value) else "";
      var v := if it.v.Some? then Trim(it.v.value) else "";
      ItemRow(it, units, datum, srcYear, parseLocal, parseAttr).Err? <==>
        t != "" && IsNumericStr(v) && parseAttr(t).None?
  {
  }

  function ItemRows(items: seq<XmlItem>, units: string, datum: string, srcYear: int,
                    parseLocal: string -> Option<int>, parseAttr: string -> Option<int>)
    : (rs: seq<Result<Option<TideRow>>>)
    ensures |rs| == |items|
    ensures forall i :: 0 <= i < |items| ==> rs[i] == ItemRow(items[i], units, datum, srcYear, parseLocal, parseAttr)
  {
    seq(|items|, i requires 0 <= i < |items| => ItemRow(items[i], units, datum, srcYear, parseLocal, parseAttr))
  }

  // ---------------------------------------------------------------------
  // importAnnualHLXml
  // ---------------------------------------------------------------------

  /** `strtolower((string)($xml['units'] ?? 'feet'))`. */
  function RootUnits(doc: XmlDoc): string
  {
    Lower(if doc.units.Some? then doc.units.value else "feet")
  }

  /** `$tableName ?: derive`: an empty or `"0"` name counts as none. */
  function ResolveTable(path: string, tableName: Option<string>): Result<string>
  {
    if tableName.Some? && Truthy(PStr(tableName.value)) then Ok(tableName.value)
    else DeriveTableName(path)
  }

  /**
   * What `importAnnualHLXml` does: the table and the rows it upserted, in
   * item order, or what it threw. `found` stands for `file_exists` and
   * `doc` for the parsed file (`None` when it does not parse).
   */
  function ImportSpec(path: string, found: bool, doc: Option<XmlDoc>, tableName: Option<string>, currentYear: int,
                      parseLocal: string -> Option<int>, parseAttr: string -> Option<int>)
    : Result<(string, seq<TideRow>)>
  {
    if !found then Err("XML not found: " + path)
    else if doc.None? || doc.value.rootIsEmpty then Err("Failed to parse XML: " + path)
    else
      match ResolveTable(path, tableName)
      case Err(m) => Err(m)
      case Ok(table) =>
        var x := doc.value;
        var rs := ItemRows(x.items, RootUnits(x), Datum(x), SrcYear(x, currentYear), parseLocal, parseAttr);
        match Gather(rs, |x.items|)
        case Err(m) => Err(m)
        case Ok(rows) => Ok((table, rows))
  }

  /** `importAnnualHLXml`: the checks, the table and metadata, then one upsert per usable item. */
  method ImportAnnualHLXml(path: string, found: bool, doc: Option<XmlDoc>, tableName: Option<string>, currentYear: int,
                           parseLocal: string -> Option<int>, parseAttr: string -> Option<int>)
    returns (r: Result<(string, seq<TideRow>)>)
    ensures r == ImportSpec(path, found, doc, tableName, currentYear, parseLocal, parseAttr)
  {
    if !found {
      return Err("XML not found: " + path);
    }
    if doc.None? || doc.value.rootIsEmpty {
      return Err("Failed to parse XML: " + path);
    }
    var table := ResolveTable(path, tableName);
    if table.Err? {
      return Err(table.msg);
    }
    var x := doc.value;
    var datum := Datum(x);
    var srcYear := SrcYear(x, currentYear);
    var units := RootUnits(x);
    ghost var rs := ItemRows(x.items, units, datum, srcYear, parseLocal, parseAttr);
    var rows: seq<TideRow> := [];
    var i := 0;
    while i < |x.items|
      invariant 0 <= i <= |x.items|
      invariant Gather(rs, i) == Ok(rows)
    {
      var step := ItemRow(x.items[i], units, datum, srcYear, parseLocal, parseAttr);
      GatherStep(rs, i, rows);
      if step.Err? {
        GatherStops(rs, i, |x.items|);
        return Err(step.msg);
      }
      if step.value.Some? {
        rows := rows + [step.value.value];
      }
      i := i + 1;
    }
    r := Ok((table.value, rows));
  }

  /**
   * Every imported row is typed H, L or I and carries the file's datum and
   * source year; there is at most one row per item.
   */
  lemma ImportRows(path: string, found: bool, doc: Option<XmlDoc>, tableName: Option<string>, currentYear: int,
                   parseLocal: string -> Option<int>, parseAttr: string -> Option<int>)
    requires ImportSpec(path, found, doc, tableName, currentYear, parseLocal, parseAttr).Ok?
    ensures var rows := ImportSpec(path, found, doc, tableName, currentYear, parseLocal, parseAttr).value.1;
      |rows| <= |doc.value.items| &&
      forall row :: row in rows ==>
        (row.hlType == "H" || row.hlType == "L" || row.hlType == "I") &&
        row.datum == Datum(doc.value) && row.srcYear == SrcYear(doc.value, currentYear)
  {
    var x := doc.value;
    var rs := ItemRows(x.items, RootUnits(x), Datum(x), SrcYear(x, currentYear), parseLocal, parseAttr);
    forall row | row in ImportSpec(path, found, doc, tableName, currentYear, parseLocal, parseAttr).value.1
      ensures (row.hlType == "H" || row.hlType == "L" || row.hlType == "I") &&
              row.datum == Datum(x) && row.srcYear == SrcYear(x, currentYear)
    {
      var i :| 0 <= i < |x.items| && rs[i] == Ok(Some(row));
      assert ItemRow(x.items[i], RootUnits(x), Datum(x), SrcYear(x, currentYear), parseLocal, parseAttr) == Ok(Some(row));
    }
  }

  /** A file of child-schema items never makes the import throw once it is found, parsed and named. */
  lemma ChildItemsNeverThrow(path: string, doc: XmlDoc, tableName: Option<string>, currentYear: int,
                             parseLocal: string -> Option<int>, parseAttr: string -> Option<int>)
    requires !doc.rootIsEmpty && ResolveTable(path, tableName).Ok?
    requires forall i :: 0 <= i < |doc.items| ==> doc.items[i].ChildItem?
    ensures ImportSpec(path, true, Some(doc), tableName, currentYear, parseLocal, parseAttr).Ok?
  {
    var rs := ItemRows(doc.items, RootUnits(doc), Datum(doc), SrcYear(doc, currentYear), parseLocal, parseAttr);
    assert forall i :: 0 <= i < |doc.items| ==> rs[i].Ok?;
  }

  // ---------------------------------------------------------------------
  // Queries: getNextHL / getPrevHL
  // ---------------------------------------------------------------------

  /** A station's table in `t_utc` order, as the queries read it. */
  predicate TimeOrdered(table: seq<TideRow>)
  {
    forall i, j :: 0 <= i < j < |table| ==> table[i].when <= table[j].when
  }

  /** The rows at or after `now`, in table order. */
  function AtOrAfter(table: seq<TideRow>, now: int): (r: seq<TideRow>)
    ensures |r| <= |table|
    ensures forall x :: x in r ==> x in table && x.when >= now
    ensures forall x :: x in table && x.when >= now ==> x in r
    ensures |r| == 0 <==> forall i :: 0 <= i < |table| ==> table[i].when < now
  {
    if |table| == 0 then []
    else
      var rest := AtOrAfter(table[1..], now);
      assert forall x :: x in table ==> x == table[0] || x in table[1..];
      if table[0].when >= now then [table[0]] + rest else rest
  }

  /**
   * `getNextHL` / `getNextHLByTable`: the first `limit` rows at or after
   * `now`, in table order (time order on a time-ordered table, see
   * `AtOrAfterIsSuffix`), or all of them when there are fewer.
   */
  function GetNextHL(table: seq<TideRow>, now: int, limit: nat): (r: seq<TideRow>)
    ensures |r| <= limit
    ensures forall x :: x in r ==> x in table && x.when >= now
    ensures |r| == 0 <==> limit == 0 || forall i :: 0 <= i < |table| ==> table[i].when < now
  {
    var all := AtOrAfter(table, now);
    if |all| <= limit then all else all[..limit]
  }

  /** The query returns the first `limit` rows at or after `now`, in table order, or all of them when there are fewer. */
  lemma GetNextHLIsPrefix(table: seq<TideRow>, now: int, limit: nat)
    ensures GetNextHL(table, now, limit) == AtOrAfter(table, now)[..Min(limit, |AtOrAfter(table, now)|)]
  {
  }

  /** On an ordered table the rows at or after `now` are the table from the first of them on. */
  lemma {:induction false} AtOrAfterIsSuffix(table: seq<TideRow>, now: int, k: nat)
    requires TimeOrdered(table) && k <= |table|
    requires forall i :: 0 <= i < k ==> table[i].when < now
    requires k < |table| ==> table[k].when >= now
    ensures AtOrAfter(table, now) == table[k..]
    decreases |table|
  {
    if |table| > 0 {
      if k == 0 {
        assert table[0].when >= now;
        AtOrAfterIsSuffix(table[1..], now, 0);
        assert [table[0]] + table[1..] == table;
      } else {
        AtOrAfterIsSuffix(table[1..], now, k - 1);
        assert table[1..][k - 1..] == table[k..];
      }
    }
  }

  /** On an ordered table the first row at or after `now` is the earliest such row. */
  lemma {:induction false} AtOrAfterHeadIsEarliest(table: seq<TideRow>, now: int)
    requires TimeOrdered(table)
    ensures |AtOrAfter(table, now)| > 0 ==>
      forall x :: x in table && x.when >= now ==> AtOrAfter(table, now)[0].when <= x.when
    decreases |table|
  {
    if |table| > 0 {
      if table[0].when >= now {
        forall x | x in table
          ensures table[0].when <= x.when
        {
          var j :| 0 <= j < |table| && table[j] == x;
        }
      } else {
        assert TimeOrdered(table[1..]) by {
          forall i, j | 0 <= i < j < |table| - 1
            ensures table[1..][i].when <= table[1..][j].when
          {
            assert table[1..][i] == table[i + 1] && table[1..][j] == table[j + 1];
          }
        }
        AtOrAfterHeadIsEarliest(table[1..], now);
        assert forall x :: x in table && x.when >= now ==> x in table[1..];
      }
    }
  }

  /** `getPrevHL` / `getPrevHLByTable`: the last row strictly before `now`. */
  function GetPrevHL(table: seq<TideRow>, now: int): (r: Option<TideRow>)
    ensures r.Some? ==> r.value in table && r.value.when < now
    ensures r.None? <==> forall i :: 0 <= i < |table| ==> table[i].when >= now
  {
    if |table| == 0 then None
    else if table[|table| - 1].when < now then Some(table[|table| - 1])
    else
      var r := GetPrevHL(table[..|table| - 1], now);
      assert forall x :: x in table[..|table| - 1] ==> x in table;
      assert forall i :: 0 <= i < |table| - 1 ==> table[..|table| - 1][i] == table[i];
      r
  }

  /** On an ordered table no row before `now` is later than the one `getPrevHL` returns. */
  lemma {:induction false} GetPrevHLIsLatest(table: seq<TideRow>, now: int)
    requires TimeOrdered(table)
    ensures GetPrevHL(table, now).Some? ==>
      forall i :: 0 <= i < |table| && table[i].when < now ==> table[i].when <= GetPrevHL(table, now).value.when
    decreases |table|
  {
    if |table| > 0 && table[|table| - 1].when >= now {
      var init := table[..|table| - 1];
      GetPrevHLIsLatest(init, now);
      forall i | 0 <= i < |table| && table[i].when < now
        ensures GetPrevHL(table, now).Some? ==> table[i].when <= GetPrevHL(table, now).value.when
      {
        if i < |table| - 1 {
          assert init[i] == table[i];
        }
      }
    }
  }
}
