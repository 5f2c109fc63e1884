/**
 * `Repositories\WaveForecastRepo`: imports one GFS-Wave point-forecast JSON
 * file into a per-station table. It accepts the current shape
 * `{meta, data: [{time, Hs_m, Per_s, Dir_deg}, ...]}` and the legacy flat
 * list `[{t_utc, hs_m, per_s, dir_deg}, ...]`, normalises either to rows of
 * (minute timestamp, height, period, direction), and reports the outcome
 * as a one-line message.
 *
 * Parsing a time to `'Y-m-d H:i:00'` is the oracle `toUtc`; how PHP prints
 * a float is the oracle `floatText`; the file system, the JSON decoder and
 * the database are parameters of `ImportJson`.
 */
module WaveForecastRepo {
  import opened Common
  import opened Php

  /** One normalised row: its UTC minute and the three optional quantities. */
  datatype WaveRow = WaveRow(tUtc: string, hsM: Option<real>, perS: Option<real>, dirDeg: Option<real>)

  // ---------------------------------------------------------------------
  // Table names
  // ---------------------------------------------------------------------

  const WavePoint: string := "wave_point_"
  const JsonSuffix: string := ".json"

  /** The start of the run of digits that ends at `e`. */
  function DigitRunBack(s: string, e: nat): (d: nat)
    requires e <= |s|
    ensures d <= e && AllDigits(s[d..e])
    ensures d > 0 ==> !IsDigit(s[d - 1])
    decreases e
  {
    if e > 0 && IsDigit(s[e - 1]) then
      var d := DigitRunBack(s, e - 1);
      assert s[d..e] == s[d..e - 1] + [s[e - 1]];
      d
    else e
  }

  /**
   * `preg_match('/wave_point_(\d+)\.json$/', base)`: the end of the name is
   * `.json`, or `.json` and one final newline (which `$` lets through), and
   * the digits before it follow `wave_point_`. The table is `waves_` and
   * those digits.
   */
  function InferTable(base: string): (r: Option<string>)
    ensures r.Some? ==>
      exists ds :: |ds| > 0 && AllDigits(ds) && r.value == "waves_" + ds &&
        (EndsWith(base, WavePoint + ds + JsonSuffix) || EndsWith(base, WavePoint + ds + JsonSuffix + "\n"))
  {
    var e: int :=
      if EndsWith(base, JsonSuffix) then |base| - 5
      else if EndsWith(base, JsonSuffix + "\n") then |base| - 6
      else -1;
    if e < 0 then None
    else
      var d := DigitRunBack(base, e);
      if d < e && d >= 11 && base[d - 11..d] == WavePoint then
        var ds := base[d..e];
        TableNameTail(base, d, e);
        Some("waves_" + ds)
      else None
  }

  /** The tail from `wave_point_` on is the prefix, the digits and the suffix the match accepted. */
  lemma TableNameTail(base: string, d: nat, e: nat)
    requires 11 <= d <= e <= |base| && base[d - 11..d] == WavePoint
    requires (EndsWith(base, JsonSuffix) && e == |base| - 5) ||
             (!EndsWith(base, JsonSuffix) && EndsWith(base, JsonSuffix + "\n") && e == |base| - 6)
    ensures EndsWith(base, JsonSuffix) ==> EndsWith(base, WavePoint + base[d..e] + JsonSuffix)
    ensures !EndsWith(base, JsonSuffix) ==> EndsWith(base, WavePoint + base[d..e] + JsonSuffix + "\n")
  {
    assert base[d - 11..] == base[d - 11..d] + base[d..e] + base[e..];
    if EndsWith(base, JsonSuffix) {
      assert base[e..] == JsonSuffix;
    } else {
      assert base[e..] == JsonSuffix + "\n";
    }
  }

  /** Any name that ends in `wave_point_<digits>.json` gives the table of those digits. */
  lemma InferTableRoundTrip(prefix: string, ds: string)
    requires |ds| > 0 && AllDigits(ds)
    ensures InferTable(prefix + WavePoint + ds + JsonSuffix) == Some("waves_" + ds)
  {
    var base := prefix + WavePoint + ds + JsonSuffix;
    var e := |base| - 5;
    assert EndsWith(base, JsonSuffix);
    assert base[..e] == prefix + WavePoint + ds;
    var k := |prefix| + 11;
    assert base[k - 1] == '_';
    assert base[k..e] == ds;
    var d := DigitRunBack(base, e);
    assert d == k by {
      if d < k {
        assert false;
      }
      if d > k {
        assert false;
      }
    }
    assert base[d - 11..d] == WavePoint;
  }

  /** A name without the `wave_point_<digits>.json` ending cannot be imported without a table name. */
  lemma InferTableNeedsJsonEnding(base: string)
    requires !EndsWith(base, JsonSuffix) && !EndsWith(base, JsonSuffix + "\n")
    ensures InferTable(base).None?
  {
  }

  const BadStationMessage: string := "Bad station id: "

  /**
   * `tableForStation`: `waves_` and the id when `preg_match('/^\d+$/')`
   * accepts it (all digits, allowing one final newline, which `$` lets
   * through and which stays in the name); otherwise an error.
   */
  function TableForStation(id: string): (r: Result<string>)
    ensures r.Ok? <==>
      (|id| > 0 && AllDigits(id)) ||
      (|id| > 1 && id[|id| - 1] == '\n' && AllDigits(id[..|id| - 1]))
    ensures r.Ok? ==> r.value == "waves_" + id
    ensures r.Err? ==> r.msg == BadStationMessage + id
  {
    var body := if |id| > 0 && id[|id| - 1] == '\n' then id[..|id| - 1] else id;
    if |body| > 0 && AllDigits(body) then Ok("waves_" + id)
    else Err(BadStationMessage + id)
  }

  // ---------------------------------------------------------------------
  // List detection
  // ---------------------------------------------------------------------

  /** `array_is_list`: the keys are 0, 1, 2, ... in order. */
  predicate IsListSpec(entries: seq<(Key, PVal)>)
  {
    forall i :: 0 <= i < |entries| ==> entries[i].0 == KInt(i)
  }

  /** The `isList` fallback: a counter compared with each key in turn, stopping at the first mismatch. */
  method IsList(entries: seq<(Key, PVal)>) returns (b: bool)
    ensures b <==> IsListSpec(entries)
  {
    var i := 0;
    while i < |entries|
      invariant 0 <= i <= |entries|
      invariant forall j :: 0 <= j < i ==> entries[j].0 == KInt(j)
    {
      if entries[i].0 != KInt(i) {
        return false;
      }
      i := i + 1;
    }
    return true;
  }

  // ---------------------------------------------------------------------
  // normalizeRows
  // ---------------------------------------------------------------------

  /** `$r[a] ?? $r[b] ?? null` through `numOrNull`: the first name that is set decides, numeric or not. */
  function Quantity(r: PVal, a: string, b: string): Option<real>
  {
    NumOrNull(OrElse(Index(r, a), Index(r, b)))
  }

  /**
   * An entry of the `data` array: skipped unless it is an array with a set
   * `time` that parses; otherwise its minute and the quantities under the
   * current names, falling back to the legacy lower-case names.
   */
  function EntryA(r: PVal, toUtc: string -> Option<string>, floatText: real -> string): (w: Option<WaveRow>)
    ensures w.Some? <==>
      r.PArr? && Index(r, "time").Some? && toUtc(StrCast(Index(r, "time").value, floatText)).Some?
    ensures w.Some? ==> w.value.tUtc == toUtc(StrCast(Index(r, "time").value, floatText)).value
    ensures w.Some? ==>
      w.value.hsM == Quantity(r, "Hs_m", "hs_m") &&
      w.value.perS == Quantity(r, "Per_s", "per_s") &&
      w.value.dirDeg == Quantity(r, "Dir_deg", "dir_deg")
  {
    var t := Index(r, "time");
    if !r.PArr? || t.None? then None
    else
      match toUtc(StrCast(t.value, floatText))
      case None => None
      case Some(u) =>
        Some(WaveRow(u, Quantity(r, "Hs_m", "hs_m"), Quantity(r, "Per_s", "per_s"), Quantity(r, "Dir_deg", "dir_deg")))
  }

  /**
   * An entry of the legacy list: skipped unless it is an array with a set
   * `t_utc`; a `t_utc` that does not parse is kept as its raw text.
   */
  function EntryB(r: PVal, toUtc: string -> Option<string>, floatText: real -> string): (w: Option<WaveRow>)
    ensures w.Some? <==> r.PArr? && Index(r, "t_utc").Some?
    ensures w.Some? ==>
      var raw := StrCast(Index(r, "t_utc").value, floatText);
      w.value.tUtc == (if toUtc(raw).Some? then toUtc(raw).value else raw)
    ensures w.Some? ==>
      w.value.hsM == NumOrNull(Index(r, "hs_m")) &&
      w.value.perS == NumOrNull(Index(r, "per_s")) &&
      w.value.dirDeg == NumOrNull(Index(r, "dir_deg"))
  {
    var t := Index(r, "t_utc");
    if !r.PArr? || t.None? then None
    else
      var raw := StrCast(t.value, floatText);
      Some(WaveRow(toUtc(raw).UnwrapOr(raw), NumOrNull(Index(r, "hs_m")), NumOrNull(Index(r, "per_s")), NumOrNull(Index(r, "dir_deg"))))
  }

  function EntriesA(es: seq<(Key, PVal)>, toUtc: string -> Option<string>, floatText: real -> string): (ws: seq<Option<WaveRow>>)
    ensures |ws| == |es| && forall i :: 0 <= i < |es| ==> ws[i] == EntryA(es[i].1, toUtc, floatText)
  {
    seq(|es|, i requires 0 <= i < |es| => EntryA(es[i].1, toUtc, floatText))
  }

  function EntriesB(es: seq<(Key, PVal)>, toUtc: string -> Option<string>, floatText: real -> string): (ws: seq<Option<WaveRow>>)
    ensures |ws| == |es| && forall i :: 0 <= i < |es| ==> ws[i] == EntryB(es[i].1, toUtc, floatText)
  {
    seq(|es|, i requires 0 <= i < |es| => EntryB(es[i].1, toUtc, floatText))
  }

  /** The `data` array of the current shape, when there is one. */
  function DataArray(json: seq<(Key, PVal)>): Option<seq<(Key, PVal)>>
  {
    match Lookup(json, KStr("data"))
    case Some(PArr(es)) => Some(es)
    case _ => None
  }

  /** What `normalizeRows` returns: the current shape first, then the legacy list, else nothing. */
  function NormalizeRowsSpec(json: seq<(Key, PVal)>, toUtc: string -> Option<string>, floatText: real -> string): seq<WaveRow>
  {
    match DataArray(json)
    case Some(es) => Kept(EntriesA(es, toUtc, floatText), 0, |es|)
    case None =>
      if IsListSpec(json) then Kept(EntriesB(json, toUtc, floatText), 0, |json|) else []
  }

  /** The loop over the `data` array. */
  method ReadShapeA(es: seq<(Key, PVal)>, toUtc: string -> Option<string>, floatText: real -> string)
    returns (out: seq<WaveRow>)
    ensures out == Kept(EntriesA(es, toUtc, floatText), 0, |es|)
  {
    ghost var ws := EntriesA(es, toUtc, floatText);
    out := [];
    var i := 0;
    while i < |es|
      invariant 0 <= i <= |es|
      invariant out == Kept(ws, 0, i)
    {
      var r := es[i].1;
      var t := Index(r, "time");
      if !r.PArr? || t.None? {
        KeptStep(ws, 0, i, out, None);
        i := i + 1;
        continue;
      }
      var u := toUtc(StrCast(t.value, floatText));
      if u.None? {
        KeptStep(ws, 0, i, out, None);
        i := i + 1;
        continue;
      }
      var row := WaveRow(u.value, Quantity(r, "Hs_m", "hs_m"), Quantity(r, "Per_s", "per_s"), Quantity(r, "Dir_deg", "dir_deg"));
      KeptStep(ws, 0, i, out, Some(row));
      out := out + [row];
      i := i + 1;
    }
  }

  /** The loop over the legacy list. */
  method ReadShapeB(es: seq<(Key, PVal)>, toUtc: string -> Option<string>, floatText: real -> string)
    returns (out: seq<WaveRow>)
    ensures out == Kept(EntriesB(es, toUtc, floatText), 0, |es|)
  {
    ghost var ws := EntriesB(es, toUtc, floatText);
    out := [];
    var i := 0;
    while i < |es|
      invariant 0 <= i <= |es|
      invariant out == Kept(ws, 0, i)
    {
      var r := es[i].1;
      var t := Index(r, "t_utc");
      if !r.PArr? || t.None? {
        KeptStep(ws, 0, i, out, None);
        i := i + 1;
        continue;
      }
      var raw := StrCast(t.value, floatText);
      var row := WaveRow(toUtc(raw).UnwrapOr(raw), NumOrNull(Index(r, "hs_m")), NumOrNull(Index(r, "per_s")), NumOrNull(Index(r, "dir_deg")));
      KeptStep(ws, 0, i, out, Some(row));
      out := out + [row];
      i := i + 1;
    }
  }

  /** `normalizeRows`. */
  method NormalizeRows(json: seq<(Key, PVal)>, toUtc: string -> Option<string>, floatText: real -> string)
    returns (out: seq<WaveRow>)
    ensures out == NormalizeRowsSpec(json, toUtc, floatText)
  {
    var data := Lookup(json, KStr("data"));
    if data.Some? && data.value.PArr? {
      out := ReadShapeA(data.value.entries, toUtc, floatText);
      return;
    }
    var isList := IsList(json);
    if isList {
      out := ReadShapeB(json, toUtc, floatText);
    } else {
      out := [];
    }
  }

  /**
   * With a `data` array, every row comes from an entry of it that is an
   * array with a set, parsable `time`, at most one per entry; the legacy
   * list is then not looked at.
   */
  lemma ShapeAFirst(json: seq<(Key, PVal)>, toUtc: string -> Option<string>, floatText: real -> string)
    requires DataArray(json).Some?
    ensures var es := DataArray(json).value;
      var out := NormalizeRowsSpec(json, toUtc, floatText);
      |out| <= |es| &&
      forall w :: w in out ==> exists i :: 0 <= i < |es| && EntryA(es[i].1, toUtc, floatText) == Some(w)
  {
    var es := DataArray(json).value;
    KeptSpec(EntriesA(es, toUtc, floatText), 0, |es|);
  }

  /** In the legacy list every array entry with a set `t_utc` gives a row, in list order. */
  lemma ShapeBKeepsEveryTimedEntry(json: seq<(Key, PVal)>, toUtc: string -> Option<string>, floatText: real -> string)
    requires DataArray(json).None? && IsListSpec(json)
    requires forall i :: 0 <= i < |json| ==> json[i].1.PArr? && Index(json[i].1, "t_utc").Some?
    ensures var out := NormalizeRowsSpec(json, toUtc, floatText);
      |out| == |json| && forall i :: 0 <= i < |json| ==> Some(out[i]) == EntryB(json[i].1, toUtc, floatText)
  {
    EntriesBAllKept(json, toUtc, floatText);
    KeptAll(EntriesB(json, toUtc, floatText), 0, |json|);
  }

  lemma EntriesBAllKept(json: seq<(Key, PVal)>, toUtc: string -> Option<string>, floatText: real -> string)
    requires forall i :: 0 <= i < |json| ==> json[i].1.PArr? && Index(json[i].1, "t_utc").Some?
    ensures forall i :: 0 <= i < |json| ==> EntriesB(json, toUtc, floatText)[i].Some?
  {
  }

  /** Input of neither shape normalises to no rows. */
  lemma NeitherShapeIsEmpty(json: seq<(Key, PVal)>, toUtc: string -> Option<string>, floatText: real -> string)
    requires DataArray(json).None? && !IsListSpec(json)
    ensures NormalizeRowsSpec(json, toUtc, floatText) == []
  {
  }

  /** A set current-shape name wins even when its value is not numeric; the lower-case name is read only when it is unset. */
  lemma CurrentNamesWin(r: PVal, a: string, b: string)
    ensures Index(r, a).Some? ==> Quantity(r, a, b) == NumOrNull(Index(r, a))
    ensures Index(r, a).None? ==> Quantity(r, a, b) == NumOrNull(Index(r, b))
    ensures Quantity(r, a, b).Some? ==>
      ((Index(r, a).Some? && IsNumeric(Index(r, a).value)) ||
       (Index(r, a).None? && Index(r, b).Some? && IsNumeric(Index(r, b).value)))
  {
  }

  // ---------------------------------------------------------------------
  // importJson
  // ---------------------------------------------------------------------

  /** How an import ends: one of the skips, a failed or a committed transaction. */
  datatype Import =
    | NotAFile
    | NoTable
    | ReadError
    | BadJson
    | NoRows
    | StoreFailed(table: string, error: string)
    | Stored(table: string, count: nat)

  /**
   * `importJson`, as the way it ends. `isFile` and `raw` stand for the file
   * system (`raw` is `None` on a read error), `decode` for `json_decode`,
   * and `store` for the transaction that upserts the rows (`None` when it
   * commits, else the message of what it threw).
   */
  function ImportOutcome(path: string, isFile: bool, tableName: Option<string>, raw: Option<string>,
                         decode: string -> PVal, toUtc: string -> Option<string>, floatText: real -> string,
                         store: (string, seq<WaveRow>) -> Option<string>): Import
  {
    if !isFile then NotAFile
    else
      var table := if tableName.Some? then Some(tableName.value) else InferTable(Basename(path));
      if table.None? then NoTable
      else if raw.None? then ReadError
      else
        match decode(raw.value)
        case PArr(json) =>
          var rows := NormalizeRowsSpec(json, toUtc, floatText);
          if |rows| == 0 then NoRows
          else
            (match store(table.value, rows)
             case None => Stored(table.value, |rows|)
             case Some(e) => StoreFailed(table.value, e))
        case _ => BadJson
  }

  /** The message `importJson` returns for each way it ends. */
  function ImportMessage(path: string, o: Import): string
  {
    var base := Basename(path);
    match o
    case NotAFile => "SKIP: not a file: " + path
    case NoTable => "SKIP: cannot infer table for " + base
    case ReadError => "SKIP: read error " + path
    case BadJson => "SKIP: bad json " + base
    case NoRows => "SKIP: no usable rows in " + base
    case StoreFailed(t, e) => "ERR " + base + " -> " + t + ": " + e
    case Stored(t, n) => "OK " + base + " -> " + t + " rows=" + NatToString(n)
  }

  /** `importJson`, as the message it returns. */
  function ImportJson(path: string, isFile: bool, tableName: Option<string>, raw: Option<string>,
                      decode: string -> PVal, toUtc: string -> Option<string>, floatText: real -> string,
                      store: (string, seq<WaveRow>) -> Option<string>): (r: string)
    ensures !isFile ==> r == "SKIP: not a file: " + path
    ensures isFile && tableName.None? && InferTable(Basename(path)).None? ==>
      r == "SKIP: cannot infer table for " + Basename(path)
    ensures isFile && (tableName.Some? || InferTable(Basename(path)).Some?) && raw.None? ==>
      r == "SKIP: read error " + path
    ensures isFile && (tableName.Some? || InferTable(Basename(path)).Some?) && raw.Some? && !decode(raw.value).PArr? ==>
      r == "SKIP: bad json " + Basename(path)
  {
    ImportMessage(path, ImportOutcome(path, isFile, tableName, raw, decode, toUtc, floatText, store))
  }

  /** Only a committed import's message starts with `OK `. */
  lemma ImportMessageOk(path: string, o: Import)
    ensures StartsWith(ImportMessage(path, o), "OK ") <==> o.Stored?
  {
    var msg := ImportMessage(path, o);
    if o.Stored? {
      assert msg == "OK " + (Basename(path) + " -> " + o.table + " rows=" + NatToString(o.count));
    } else {
      assert msg[0] in "SE";
    }
  }

  /**
   * An import reports OK exactly when the file exists, a table is given or
   * inferred, the file reads and decodes to an array with usable rows, and
   * the transaction commits; the message then names the row count.
   */
  lemma ImportJsonOk(path: string, isFile: bool, tableName: Option<string>, raw: Option<string>,
                     decode: string -> PVal, toUtc: string -> Option<string>, floatText: real -> string,
                     store: (string, seq<WaveRow>) -> Option<string>)
    ensures var msg := ImportJson(path, isFile, tableName, raw, decode, toUtc, floatText, store);
      var table := if tableName.Some? then Some(tableName.value) else InferTable(Basename(path));
      StartsWith(msg, "OK ") <==>
        (isFile && table.Some? && raw.Some? && decode(raw.value).PArr? &&
         var rows := NormalizeRowsSpec(decode(raw.value).entries, toUtc, floatText);
         |rows| > 0 && store(table.value, rows).None?)
  {
    ImportMessageOk(path, ImportOutcome(path, isFile, tableName, raw, decode, toUtc, floatText, store));
  }

  /** An explicit table name is used as given, even an empty one; it is only inferred when absent. */
  lemma ExplicitTableIsUsed(path: string, table: string, raw: string, decode: string -> PVal,
                            toUtc: string -> Option<string>, floatText: real -> string,
                            store: (string, seq<WaveRow>) -> Option<string>)
    requires decode(raw).PArr?
    requires |NormalizeRowsSpec(decode(raw).entries, toUtc, floatText)| > 0
    requires store(table, NormalizeRowsSpec(decode(raw).entries, toUtc, floatText)).None?
    ensures ImportJson(path, true, Some(table), Some(raw), decode, toUtc, floatText, store) ==
      "OK " + Basename(path) + " -> " + table + " rows=" + NatToString(|NormalizeRowsSpec(decode(raw).entries, toUtc, floatText)|)
  {
  }
}
