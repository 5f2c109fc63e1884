/**
 * `Repositories\WaveForecastRepository`: the newer forecast importer. It
 * reads a `{meta, data: [...]}` payload, resolves the per-station table,
 * and turns each entry with a parsable `time` into a row of heights in
 * metres and feet, direction in degrees and as a 16-point name, period,
 * and the model name, each rounded as the table stores it.
 *
 * Parsing the ISO time is the oracle `parse` (to a UTC instant); the local
 * time column and the upserts themselves are not modelled.
 */
module WaveForecastRepository {
  import opened Common
  import opened Php
  import Compass
  import Maths

  /** One imported row; `tUtc` is the instant `parse` gave. */
  datatype ForecastRow = ForecastRow(
    tUtc: int,
    hsM: Option<real>,
    hsFt: Option<real>,
    dirDeg: Option<real>,
    dirCompass: Option<string>,
    perS: Option<real>,
    srcModel: string)

  // ---------------------------------------------------------------------
  // Table names
  // ---------------------------------------------------------------------

  const DeriveMessage: string := "Unable to derive table name from filename; pass $tableName."

  /** `deriveTableNameFromFilename`: `waves_` and the first run of 5 to 9 digits in the base name. */
  function DeriveTableName(path: string): (r: Result<string>)
    ensures r.Err? <==> forall q :: 0 <= q ==> !DigitsAt(Basename(path), q, 5)
    ensures r.Err? ==> r.msg == DeriveMessage
    ensures r.Ok? ==> exists ds :: 5 <= |ds| <= 9 && AllDigits(ds) && r.value == "waves_" + ds
  {
    FirstDigitRunFromSpec(Basename(path), 5, 9, 0);
    match FirstDigitRun(Basename(path), 5, 9)
    case Some(ds) => Ok("waves_" + ds)
    case None => Err(DeriveMessage)
  }

  /** `wave_point_41112.json` in any directory names the table `waves_41112`. */
  lemma DeriveTableNameRoundTrip(dir: string, ds: string)
    requires 5 <= |ds| <= 9 && AllDigits(ds)
    ensures DeriveTableName(dir + "/" + ("wave_point_" + ds + ".json")) == Ok("waves_" + ds)
  {
    var name := "wave_point_" + ds + ".json";
    NoSlashAmongDigits("wave_point_", ds, ".json");
    BasenameOfJoin(dir, name);
    DeriveOfDigitsBetween(dir + "/" + name, "wave_point_", ds, ".json");
  }

  /** A base name with a 5-to-9-digit run after a digit-free prefix names the table of that run. */
  lemma DeriveOfDigitsBetween(path: string, pre: string, ds: string, post: string)
    requires 5 <= |ds| <= 9 && AllDigits(ds) && Basename(path) == pre + ds + post
    requires forall i :: 0 <= i < |pre| ==> !IsDigit(pre[i])
    requires |post| > 0 ==> !IsDigit(post[0])
    ensures DeriveTableName(path) == Ok("waves_" + ds)
  {
    FirstDigitRunAfter(pre, ds, post, 5, 9, 0);
  }

  /** A name made of slash-free text around digits has no slash. */
  lemma NoSlashAmongDigits(pre: string, ds: string, post: string)
    requires AllDigits(ds) && !HasChar(pre, '/') && !HasChar(post, '/')
    ensures !HasChar(pre + ds + post, '/')
  {
    assert !HasChar(ds, '/');
    HasCharConcat(pre, ds, '/');
    HasCharConcat(pre + ds, post, '/');
  }

  /** `tableFor`: `waves_` and the digits of the id, every other character dropped. */
  function TableFor(id: string): (r: string)
    ensures StartsWith(r, "waves_") && AllDigits(r[6..])
  {
    "waves_" + DigitsOnly(id)
  }

  /** An all-digit id is used as it is, and a table's own digits name the same table. */
  lemma TableForDigits(id: string)
    ensures AllDigits(id) ==> TableFor(id) == "waves_" + id
    ensures TableFor(TableFor(id)[6..]) == TableFor(id)
  {
    if AllDigits(id) {
      DigitsOnlyKeepsDigits(id);
    }
    DigitsOnlyKeepsDigits(DigitsOnly(id));
    assert TableFor(id)[6..] == DigitsOnly(id);
  }

  // ---------------------------------------------------------------------
  // Values
  // ---------------------------------------------------------------------

  /**
   * `toNullableFloat`: null for null, for `''` and for anything not
   * numeric, else the float; the same as the older importer's `numOrNull`.
   */
  function ToNullableFloat(v: Option<PVal>): (r: Option<real>)
    ensures r == NumOrNull(v)
    ensures v == Some(PStr("")) ==> r.None?
  {
    if v.None? then None
    else if v.value == PStr("") then None
    else if !IsNumeric(v.value) then None
    else Some(FloatCast(v.value))
  }

  /** `roundOrNull`: null stays null; a value is rounded to `p` places, moving it by at most half a unit of the last place. */
  function RoundOrNull(v: Option<real>, p: nat): (r: Option<real>)
    ensures r.Some? <==> v.Some?
    ensures r.Some? ==> r.value == RoundTo(v.value, p) && AbsR(r.value - v.value) <= 0.5 / DecimalScale(p)
  {
    if v.None? then None
    else
      RoundScaledClose(v.value, DecimalScale(p));
      Some(RoundTo(v.value, p))
  }

  /** The `parseUtcIso` suffix rule: trailing whitespace dropped, then `Z` appended unless already last. */
  function IsoSuffixed(iso: string): (r: string)
    ensures |r| > 0 && r[|r| - 1] == 'Z'
    ensures r == TrimRight(iso) || r == TrimRight(iso) + "Z"
  {
    var s := TrimRight(iso);
    if |s| > 0 && s[|s| - 1] == 'Z' then s else s + "Z"
  }

  /** A time that already ends in `Z` is only right-trimmed, so the rule is idempotent. */
  lemma IsoSuffixedIdempotent(iso: string)
    ensures IsoSuffixed(IsoSuffixed(iso)) == IsoSuffixed(iso)
    ensures (|TrimRight(iso)| > 0 && TrimRight(iso)[|TrimRight(iso)| - 1] == 'Z') ==> IsoSuffixed(iso) == TrimRight(iso)
  {
    var r := IsoSuffixed(iso);
    assert TrimRight(r) == r;
  }

  /** `parseUtcIso`: the oracle applied to the suffixed time. */
  function ParseUtcIso(iso: string, parse: string -> Option<int>): (r: Option<int>)
    ensures r == parse(IsoSuffixed(iso))
  {
    parse(IsoSuffixed(iso))
  }

  /**
   * Trailing whitespace and an explicit `Z` make no difference to the
   * parsed time: `...T06:00:00`, `...T06:00:00Z` and `...T06:00:00Z `
   * are read alike.
   */
  lemma ParseUtcIsoNormalises(iso: string, parse: string -> Option<int>)
    ensures ParseUtcIso(iso + " ", parse) == ParseUtcIso(iso, parse)
    ensures ParseUtcIso(IsoSuffixed(iso), parse) == ParseUtcIso(iso, parse)
  {
    var padded := iso + " ";
    assert IsTrimWs(padded[|padded| - 1]);
    assert padded[..|padded| - 1] == iso;
    assert TrimRight(padded) == TrimRight(iso);
    IsoSuffixedIdempotent(iso);
  }

  // ---------------------------------------------------------------------
  // degToCompass
  // ---------------------------------------------------------------------

  /** The index `degToCompass` reads: `(int)floor(fmod(deg + 11.25, 360) / 22.5) % 16`, PHP's `%`. */
  function CompassIndexAsWritten(deg: real): (i: int)
    ensures -16 < i < 16
  {
    TruncMod((FMod(deg + 11.25, 360.0) / 22.5).Floor, 16)
  }

  /**
   * `degToCompass` as written: a negative index reads no name and the
   * function fails (its result is not a string); `None` stands for that.
   */
  function DegToCompassAsWritten(deg: real): (r: Option<string>)
    ensures r.Some? ==> r.value in Compass.Points
  {
    var i := CompassIndexAsWritten(deg);
    if 0 <= i then Some(Compass.Points[i]) else None
  }

  /** A bearing of -20 degrees gives index -1: no name. */
  lemma DegToCompassAsWrittenFailsBelowNorth()
    ensures CompassIndexAsWritten(-20.0) == -1
    ensures DegToCompassAsWritten(-20.0).None?
  {
    assert (8.75 / 360.0).Floor == 0;
    assert NonnegMod(8.75, 360.0) == 8.75;
    assert FMod(-8.75, 360.0) == -8.75;
    assert (-8.75 / 22.5).Floor == -1;
  }

  /** From -11.25 degrees up, the index is in range and a name is found. */
  lemma DegToCompassAsWrittenDefined(deg: real)
    requires deg >= -11.25
    ensures 0 <= CompassIndexAsWritten(deg) < 16
    ensures DegToCompassAsWritten(deg).Some?
  {
    var x := FMod(deg + 11.25, 360.0);
    assert 0.0 <= x / 22.5 < 16.0;
  }

  /**
   * `degToCompass` as evidently intended: the bearing normalised to
   * [0, 360) first, so that every direction has a name.
   */
  function DegToCompass(deg: real): (r: string)
    ensures r in Compass.Points
  {
    DegToCompassAsWrittenDefined(Maths.NormAngle(deg));
    DegToCompassAsWritten(Maths.NormAngle(deg)).value
  }

  /** On [0, 360) the corrected function is the code as written. */
  lemma DegToCompassAgrees(deg: real)
    requires 0.0 <= deg < 360.0
    ensures DegToCompassAsWritten(deg) == Some(DegToCompass(deg))
  {
    Maths.NormAngleFixes(deg);
  }

  /** Bearings a whole number of turns apart have the same name. */
  lemma DegToCompassPeriodic(deg: real, k: int)
    ensures DegToCompass(deg + 360.0 * k as real) == DegToCompass(deg)
  {
    Maths.NormAnglePeriodic(deg, k);
  }

  /**
   * Point `k` names the bearings within 11.25 degrees of `22.5 * k`, lower
   * edge included; the sector of north wraps through 360.
   */
  lemma CompassSector(deg: real, k: nat)
    requires 0.0 <= deg < 360.0 && k <= 16
    requires 22.5 * k as real - 11.25 <= deg < 22.5 * k as real + 11.25
    ensures DegToCompass(deg) == Compass.Points[k % 16]
  {
    DegToCompassAgrees(deg);
    var x := deg + 11.25;
    if x < 360.0 {
      FModBelow(x);
      FloorInSector(x, k);
    } else {
      FModAbove(x);
      FloorInSector(x - 360.0, 0);
    }
  }

  /** A value in the `k`-th stretch of 22.5 has floor quotient `k`. */
  lemma FloorInSector(x: real, k: nat)
    requires 22.5 * k as real <= x < 22.5 * k as real + 22.5
    ensures (x / 22.5).Floor == k
  {
    var q := x / 22.5;
    assert q * 22.5 == x;
    if q < k as real {
      MulStrict(q, k as real, 22.5);
      assert false;
    }
    if q >= k as real + 1.0 {
      MulMono(k as real + 1.0, q, 22.5);
      assert false;
    }
  }

  /** Both [348.75, 360) and [0, 11.25) are north. */
  lemma NorthBothSides(deg: real)
    requires 0.0 <= deg < 11.25 || 348.75 <= deg < 360.0
    ensures DegToCompass(deg) == "N"
  {
    if deg < 11.25 {
      CompassSector(deg, 0);
    } else {
      CompassSector(deg, 16);
    }
  }

  // ---------------------------------------------------------------------
  // importJson
  // ---------------------------------------------------------------------

  const TimeTypeMessage: string :=
    "Legenda\\NormalSurf\\Repositories\\WaveForecastRepository::parseUtcIso(): Argument #1 ($iso) must be of type string, array given"

  const CompassTypeMessage: string :=
    "Legenda\\NormalSurf\\Repositories\\WaveForecastRepository::degToCompass(): Return value must be of type string, null returned"

  /** The source model recorded on every row: `meta.model` cast to a string, or `gfswave` when either level is missing or null. */
  function ModelName(payload: PVal, floatText: real -> string): (r: string)
    ensures Index(payload, "meta").None? || Index(Index(payload, "meta").value, "model").None? ==> r == "gfswave"
    ensures Index(payload, "meta").Some? && Index(Index(payload, "meta").value, "model").Some? ==>
      r == StrCast(Index(Index(payload, "meta").value, "model").value, floatText)
  {
    match Index(payload, "meta")
    case Some(meta) =>
      (match Index(meta, "model")
       case Some(m) => StrCast(m, floatText)
       case None => "gfswave")
    case None => "gfswave"
  }

  /** The entry's `time` is set and is an array, which `parseUtcIso` refuses. */
  predicate TimeIsArray(v: PVal)
  {
    Index(v, "time").Some? && Index(v, "time").value.PArr?
  }

  /**
   * The entry is kept up to its direction, and the direction is a bearing
   * that `degToCompass` as written finds no name for.
   */
  predicate CompassFails(v: PVal, parse: string -> Option<int>, floatText: real -> string)
  {
    var t := Index(v, "time");
    var dir := NumOrNull(Index(v, "Dir_deg"));
    t.Some? && !t.value.PArr? && ParseUtcIso(StrCast(t.value, floatText), parse).Some? &&
    dir.Some? && DegToCompassAsWritten(dir.value).None?
  }

  /**
   * One entry of `data`: skipped without a set `time` or when the time does
   * not parse; an array as time, or a bearing that `degToCompass` cannot
   * name, is a type error. Otherwise feet follow metres and the compass
   * name follows the degrees, each null exactly when its source is.
   */
  function EntryRow(v: PVal, parse: string -> Option<int>, floatText: real -> string, model: string)
    : (r: Result<Option<ForecastRow>>)
    ensures r.Err? <==> TimeIsArray(v) || CompassFails(v, parse, floatText)
    ensures r.Err? ==> r.msg == if TimeIsArray(v) then TimeTypeMessage else CompassTypeMessage
    ensures r.Ok? && r.value.Some? ==>
      var row := r.value.value;
      Index(v, "time").Some? &&
      Some(row.tUtc) == ParseUtcIso(StrCast(Index(v, "time").value, floatText), parse) &&
      (row.hsFt.None? <==> row.hsM.None?) &&
      (row.dirCompass.None? <==> row.dirDeg.None?) &&
      (row.hsM.Some? <==> NumOrNull(Index(v, "Hs_m")).Some?) &&
      (row.dirDeg.Some? <==> NumOrNull(Index(v, "Dir_deg")).Some?) &&
      (row.dirCompass.Some? ==> row.dirCompass == DegToCompassAsWritten(NumOrNull(Index(v, "Dir_deg")).value) &&
                                row.dirCompass.value in Compass.Points) &&
      (row.perS.Some? <==> NumOrNull(Index(v, "Per_s")).Some?) &&
      (row.hsM.Some? ==> row.hsM.value == RoundTo(NumOrNull(Index(v, "Hs_m")).value, 3) &&
                         row.hsFt.value == RoundTo(NumOrNull(Index(v, "Hs_m")).value * 3.28084, 2)) &&
      (row.dirDeg.Some? ==> row.dirDeg.value == RoundTo(NumOrNull(Index(v, "Dir_deg")).value, 2)) &&
      (row.perS.Some? ==> row.perS.value == RoundTo(NumOrNull(Index(v, "Per_s")).value, 2)) &&
      row.srcModel == model
  {
    var t := Index(v, "time");
    if t.None? then Ok(None)
    else if t.value.PArr? then Err(TimeTypeMessage)
    else
      match ParseUtcIso(StrCast(t.value, floatText), parse)
      case None => Ok(None)
      case Some(utc) =>
        var hs := ToNullableFloat(Index(v, "Hs_m"));
        var ft := if hs.None? then None else Some(hs.value * 3.28084);
        var dir := ToNullableFloat(Index(v, "Dir_deg"));
        var comp := if dir.None? then None else DegToCompassAsWritten(dir.value);
        if dir.Some? && comp.None? then Err(CompassTypeMessage)
        else
          var per := ToNullableFloat(Index(v, "Per_s"));
          Ok(Some(ForecastRow(utc, RoundOrNull(hs, 3), RoundOrNull(ft, 2), RoundOrNull(dir, 2), comp, RoundOrNull(per, 2), model)))
  }

  /** Bearings from -11.25 degrees up always get a name, so the direction never aborts the entry. */
  lemma CompassFailsOnlyBelowNorth(v: PVal, parse: string -> Option<int>, floatText: real -> string)
    requires NumOrNull(Index(v, "Dir_deg")).Some? ==> NumOrNull(Index(v, "Dir_deg")).value >= -11.25
    ensures !CompassFails(v, parse, floatText)
  {
    var dir := NumOrNull(Index(v, "Dir_deg"));
    if dir.Some? {
      DegToCompassAsWrittenDefined(dir.value);
    }
  }

  function EntryRows(es: seq<(Key, PVal)>, parse: string -> Option<int>, floatText: real -> string, model: string)
    : (rs: seq<Result<Option<ForecastRow>>>)
    ensures |rs| == |es| && forall i :: 0 <= i < |es| ==> rs[i] == EntryRow(es[i].1, parse, floatText, model)
  {
    seq(|es|, i requires 0 <= i < |es| => EntryRow(es[i].1, parse, floatText, model))
  }

  /** `$tableName ?: derive`: an empty or `"0"` name counts as none. */
  function ResolveTable(path: string, tableName: Option<string>): Result<string>
  {
    if tableName.Some? && Truthy(PStr(tableName.value)) then Ok(tableName.value)
    else DeriveTableName(path)
  }

  /** What `importJson` does: the table it used and the rows it upserted, in entry order, or what it threw. */
  function ImportSpec(path: string, isFile: bool, payload: PVal, tableName: Option<string>,
                      parse: string -> Option<int>, floatText: real -> string): Result<(string, seq<ForecastRow>)>
  {
    if !isFile then Err("JSON not found: " + path)
    else
      var data := Index(payload, "data");
      if data.None? || !data.value.PArr? then Err("Invalid JSON structure in " + path)
      else
        match ResolveTable(path, tableName)
        case Err(m) => Err(m)
        case Ok(table) =>
          var es := data.value.entries;
          match Gather(EntryRows(es, parse, floatText, ModelName(payload, floatText)), |es|)
          case Err(m) => Err(m)
          case Ok(rows) => Ok((table, rows))
  }

  /**
   * `importJson`: the checks, the table, then one upsert per usable entry
   * (the rows collected here). `isFile` stands for the file test and
   * `payload` for the decoded file.
   */
  method ImportJson(path: string, isFile: bool, payload: PVal, tableName: Option<string>,
                    parse: string -> Option<int>, floatText: real -> string)
    returns (r: Result<(string, seq<ForecastRow>)>)
    ensures r == ImportSpec(path, isFile, payload, tableName, parse, floatText)
  {
    if !isFile {
      return Err("JSON not found: " + path);
    }
    var data := Index(payload, "data");
    if data.None? || !data.value.PArr? {
      return Err("Invalid JSON structure in " + path);
    }
    var table := ResolveTable(path, tableName);
    if table.Err? {
      return Err(table.msg);
    }
    var model := ModelName(payload, floatText);
    var es := data.value.entries;
    ghost var rs := EntryRows(es, parse, floatText, model);
    var rows: seq<ForecastRow> := [];
    var i := 0;
    while i < |es|
      invariant 0 <= i <= |es|
      invariant Gather(rs, i) == Ok(rows)
    {
      var step := EntryRow(es[i].1, parse, floatText, model);
      GatherStep(rs, i, rows);
      if step.Err? {
        GatherStops(rs, i, |es|);
        return Err(step.msg);
      }
      if step.value.Some? {
        rows := rows + [step.value.value];
      }
      i := i + 1;
    }
    r := Ok((table.value, rows));
  }

  /** In every imported row feet are null exactly when metres are, and the compass name exactly when the degrees are. */
  lemma ImportNullPropagation(path: string, isFile: bool, payload: PVal, tableName: Option<string>,
                              parse: string -> Option<int>, floatText: real -> string)
    requires ImportSpec(path, isFile, payload, tableName, parse, floatText).Ok?
    ensures forall row :: row in ImportSpec(path, isFile, payload, tableName, parse, floatText).value.1 ==>
      (row.hsFt.None? <==> row.hsM.None?) &&
      (row.dirCompass.None? <==> row.dirDeg.None?) &&
      (row.dirCompass.Some? ==> row.dirCompass.value in Compass.Points)
  {
    var es := Index(payload, "data").value.entries;
    var rs := EntryRows(es, parse, floatText, ModelName(payload, floatText));
    forall row | row in ImportSpec(path, isFile, payload, tableName, parse, floatText).value.1
      ensures (row.hsFt.None? <==> row.hsM.None?) && (row.dirCompass.None? <==> row.dirDeg.None?) &&
              (row.dirCompass.Some? ==> row.dirCompass.value in Compass.Points)
    {
      var i :| 0 <= i < |es| && rs[i] == Ok(Some(row));
      assert EntryRow(es[i].1, parse, floatText, ModelName(payload, floatText)) == Ok(Some(row));
    }
  }

  /** Without a `data` array the import throws, whatever the table. */
  lemma ImportNeedsDataArray(path: string, payload: PVal, tableName: Option<string>,
                             parse: string -> Option<int>, floatText: real -> string)
    requires Index(payload, "data").None? || !Index(payload, "data").value.PArr?
    ensures ImportSpec(path, true, payload, tableName, parse, floatText) == Err("Invalid JSON structure in " + path)
  {
  }

  /** An empty or `"0"` table name is ignored and the table is derived from the file name. */
  lemma FalsyTableNameIsDerived(path: string, name: string)
    requires name == "" || name == "0"
    ensures ResolveTable(path, Some(name)) == DeriveTableName(path)
  {
  }

  /** A time followed by a bearing of -20 degrees makes the entry throw. */
  lemma EntryFailsBelowNorth(t: string, parse: string -> Option<int>, floatText: real -> string, model: string)
    requires ParseUtcIso(t, parse).Some?
    ensures EntryRow(PArr([(KStr("time"), PStr(t)), (KStr("Dir_deg"), PFloat(-20.0))]), parse, floatText, model)
            == Err(CompassTypeMessage)
  {
    var entry := PArr([(KStr("time"), PStr(t)), (KStr("Dir_deg"), PFloat(-20.0))]);
    assert Index(entry, "time") == Some(PStr(t));
    assert entry.entries[1..] == [(KStr("Dir_deg"), PFloat(-20.0))];
    assert Lookup(entry.entries[1..], KStr("Dir_deg")) == Some(PFloat(-20.0));
    assert entry.entries[0].0 != KStr("Dir_deg");
    assert Index(entry, "Dir_deg") == Some(PFloat(-20.0));
    DegToCompassAsWrittenFailsBelowNorth();
    assert CompassFails(entry, parse, floatText);
  }

  /**
   * A single entry with a parsable time and a bearing of -20 degrees aborts
   * the whole import with the type error of `degToCompass`: no row is kept.
   */
  lemma ImportAbortsOnBearingBelowNorth(path: string, t: string, parse: string -> Option<int>, floatText: real -> string)
    requires ParseUtcIso(t, parse).Some?
    ensures var entry := PArr([(KStr("time"), PStr(t)), (KStr("Dir_deg"), PFloat(-20.0))]);
            var payload := PArr([(KStr("data"), PArr([(KInt(0), entry)]))]);
            ImportSpec(path, true, payload, Some("waves_41112"), parse, floatText) == Err(CompassTypeMessage)
  {
    var entry := PArr([(KStr("time"), PStr(t)), (KStr("Dir_deg"), PFloat(-20.0))]);
    var payload := PArr([(KStr("data"), PArr([(KInt(0), entry)]))]);
    var es := [(KInt(0), entry)];
    assert Index(payload, "data") == Some(PArr(es));
    EntryFailsBelowNorth(t, parse, floatText, ModelName(payload, floatText));
    assert ResolveTable(path, Some("waves_41112")).Ok?;
    ImportStopsAtFirstEntry(path, payload, Some("waves_41112"), parse, floatText, es, CompassTypeMessage);
  }

  /** An import whose first entry throws ends with that entry's error. */
  lemma ImportStopsAtFirstEntry(path: string, payload: PVal, tableName: Option<string>,
                                parse: string -> Option<int>, floatText: real -> string,
                                es: seq<(Key, PVal)>, m: string)
    requires Index(payload, "data") == Some(PArr(es)) && ResolveTable(path, tableName).Ok?
    requires |es| > 0 && EntryRow(es[0].1, parse, floatText, ModelName(payload, floatText)) == Err(m)
    ensures ImportSpec(path, true, payload, tableName, parse, floatText) == Err(m)
  {
    GatherStops(EntryRows(es, parse, floatText, ModelName(payload, floatText)), 0, |es|);
  }
}
