/**
 * GFS-Wave run discovery on the NOMADS server (`Forecast/src/nomads.py`):
 * the directory and file naming of a run, the existence probe of a run's
 * `.idx` file across the two candidate directories, and the backward search
 * over (date, cycle) pairs for the newest run whose directory answers.
 *
 * The HTTP GET is the oracle `fetch`: for each URL it answers with a status
 * code or with a raised request exception. Time is counted in whole hours
 * since the Unix epoch and dates in days since the epoch.
 */
module Nomads {
  import opened Common

  /** The `GFSWAVE_PROD` default. */
  const DefaultProd: string := "https://nomads.ncep.noaa.gov/pub/data/nccf/com/gfs/prod"
  /** The `LOOKBACK_HOURS` default. */
  const LookbackHoursDefault: int := 72
  /** Cycles tried for each date, newest first. */
  const Cycles: seq<int> := [18, 12, 6, 0]
  const NoRunMessage: string := "No recent gfswave run found within lookback window."

  /** The outcome of one GET: a status code, or a raised request exception. */
  datatype Response = Raised | Status(code: int)

  /** A (date, cycle) pair; the date is a day number since the epoch. */
  type RunKey = (int, int)

  /** The calendar date of a day number (proleptic Gregorian, day 0 = 1970-01-01). */
  function CivilFromDays(days: int): (int, int, int)
  {
    var z := days + 719468;
    var era := z / 146097;
    var doe := z % 146097;
    var yoe := (doe - doe / 1460 + doe / 36524 - doe / 146096) / 365;
    var y := yoe + era * 400;
    var doy := doe - (365 * yoe + yoe / 4 - yoe / 100);
    var mp := (5 * doy + 2) / 153;
    var d := doy - (153 * mp + 2) / 5 + 1;
    var m := if mp < 10 then mp + 3 else mp - 9;
    (if m <= 2 then y + 1 else y, m, d)
  }

  /** `date.strftime("%Y%m%d")`. */
  function Ymd(day: int): string
  {
    var (y, m, d) := CivilFromDays(day);
    PadInt(y, 4) + PadInt(m, 2) + PadInt(d, 2)
  }

  /** The date of an instant given in whole hours since the epoch. */
  function DayOf(hour: int): int
  {
    hour / 24
  }

  /** `_candidate_dirs`: the `wave/gridded` directory first, then its parent `wave`. */
  function CandidateDirs(prod: string, day: int, cycle: int): (r: seq<string>)
    ensures |r| == 2 && r[0] == r[1] + "/gridded"
    ensures r[1] == prod + "/gfs." + Ymd(day) + "/" + PadInt(cycle, 2) + "/wave"
  {
    var base := prod + "/gfs." + Ymd(day) + "/" + PadInt(cycle, 2) + "/wave";
    [base + "/gridded", base]
  }

  /** `gfswave_file_name`: cycle padded to two digits and forecast hour to three. */
  function FileName(cycle: int, fhr: int, ext: string): string
  {
    "gfswave.t" + PadInt(cycle, 2) + "z.global.0p25.f" + PadInt(fhr, 3) + "." + ext
  }

  /**
   * For a cycle below 100 and an hour below 1000 the name has fixed fields:
   * the cycle in characters 9-10, the hour in 26-28 and the extension from 30.
   */
  lemma FileNameFields(cycle: int, fhr: int, ext: string)
    requires 0 <= cycle < 100 && 0 <= fhr < 1000
    ensures var n := FileName(cycle, fhr, ext);
      |n| == 30 + |ext| && n[..9] == "gfswave.t" &&
      AllDigits(n[9..11]) && DigitsValue(n[9..11]) == cycle &&
      n[11..26] == "z.global.0p25.f" &&
      AllDigits(n[26..29]) && DigitsValue(n[26..29]) == fhr &&
      n[29] == '.' && n[30..] == ext
  {
    assert Pow10(2) == 100 && Pow10(3) == 1000;
    PadNatRoundTrip(cycle, 2);
    PadNatRoundTrip(fhr, 3);
    var c := PadNat(cycle, 2);
    var f := PadNat(fhr, 3);
    assert PadInt(cycle, 2) == c && PadInt(fhr, 3) == f;
    FiveFields("gfswave.t", c, "z.global.0p25.f", f, "." + ext);
    assert "gfswave.t" + c + "z.global.0p25.f" + f + ("." + ext) == FileName(cycle, fhr, ext);
    assert ("." + ext)[0] == '.' && ("." + ext)[1..] == ext;
  }

  lemma FiveFields(a: string, b: string, c: string, d: string, e: string)
    ensures var n := a + b + c + d + e;
      var i1 := |a|; var i2 := i1 + |b|; var i3 := i2 + |c|; var i4 := i3 + |d|;
      |n| == i4 + |e| && n[..i1] == a && n[i1..i2] == b && n[i2..i3] == c && n[i3..i4] == d && n[i4..] == e
  {
  }

  /** No file name with a slash-free extension contains a slash. */
  lemma FileNameHasNoSlash(cycle: int, fhr: int, ext: string)
    requires !HasChar(ext, '/')
    ensures !HasChar(FileName(cycle, fhr, ext), '/')
  {
    PadIntHasNoSlash(cycle, 2);
    PadIntHasNoSlash(fhr, 3);
    LiteralsHaveNoSlash();
    var s1 := "gfswave.t" + PadInt(cycle, 2);
    HasCharConcat("gfswave.t", PadInt(cycle, 2), '/');
    var s2 := s1 + "z.global.0p25.f";
    HasCharConcat(s1, "z.global.0p25.f", '/');
    var s3 := s2 + PadInt(fhr, 3);
    HasCharConcat(s2, PadInt(fhr, 3), '/');
    var s4 := s3 + ".";
    HasCharConcat(s3, ".", '/');
    HasCharConcat(s4, ext, '/');
    assert FileName(cycle, fhr, ext) == s4 + ext;
  }

  lemma LiteralsHaveNoSlash()
    ensures !HasChar("gfswave.t", '/') && !HasChar("z.global.0p25.f", '/') && !HasChar(".", '/')
  {
    assert forall i :: 0 <= i < |"gfswave.t"| ==> "gfswave.t"[i] != '/';
    assert forall i :: 0 <= i < |"z.global.0p25.f"| ==> "z.global.0p25.f"[i] != '/';
  }

  lemma PadIntHasNoSlash(i: int, w: nat)
    ensures !HasChar(PadInt(i, w), '/')
  {
    if i < 0 {
      DigitsHaveNo(PadNat(-i, if w >= 1 then w - 1 else 0), '/');
      HasCharConcat("-", PadNat(-i, if w >= 1 then w - 1 else 0), '/');
    } else {
      DigitsHaveNo(PadNat(i, w), '/');
    }
  }

  /** `http_ok`: true for a 200 answer only, false for any other status and for a raised exception. */
  predicate HttpOk(resp: Response): (ok: bool)
    ensures resp.Raised? ==> !ok
    ensures resp.Status? ==> (ok <==> resp.code == 200)
  {
    resp == Status(200)
  }

  /** The `.idx` URL of hour `fhr` in directory `dir`. */
  function IdxUrl(dir: string, cycle: int, fhr: int): string
  {
    dir + "/" + FileName(cycle, fhr, "grib2.idx")
  }

  /** The first of `urls` that answers 200, if any. */
  function FirstAnswering(urls: seq<string>, fetch: string -> Response): (r: Option<string>)
    ensures r.None? <==> forall k :: 0 <= k < |urls| ==> !HttpOk(fetch(urls[k]))
    ensures r.Some? ==> exists k :: 0 <= k < |urls| && urls[k] == r.value && HttpOk(fetch(r.value)) &&
                                    forall j :: 0 <= j < k ==> !HttpOk(fetch(urls[j]))
  {
    if |urls| == 0 then None
    else if HttpOk(fetch(urls[0])) then Some(urls[0])
    else
      var r := FirstAnswering(urls[1..], fetch);
      assert forall k :: 0 < k < |urls| ==> urls[k] == urls[1..][k - 1];
      if r.Some? then
        var k :| 0 <= k < |urls[1..]| && urls[1..][k] == r.value && HttpOk(fetch(r.value)) &&
                 forall j :: 0 <= j < k ==> !HttpOk(fetch(urls[1..][j]));
        assert urls[k + 1] == r.value;
        r
      else r
  }

  /** The `.idx` URLs of hour `fhr` in the candidate directories, in probing order. */
  function IdxUrls(prod: string, day: int, cycle: int, fhr: int): (r: seq<string>)
    ensures |r| == 2
  {
    var dirs := CandidateDirs(prod, day, cycle);
    [IdxUrl(dirs[0], cycle, fhr), IdxUrl(dirs[1], cycle, fhr)]
  }

  /** `_probe_idx`: tries the candidate directories in order and returns the first `.idx` URL that answers. */
  method ProbeIdx(prod: string, day: int, cycle: int, fhr: int, fetch: string -> Response) returns (r: Option<string>)
    ensures r == FirstAnswering(IdxUrls(prod, day, cycle, fhr), fetch)
  {
    var dirs := CandidateDirs(prod, day, cycle);
    var k := 0;
    while k < |dirs|
      invariant 0 <= k <= |dirs|
      invariant forall j :: 0 <= j < k ==> !HttpOk(fetch(IdxUrl(dirs[j], cycle, fhr)))
    {
      var idx := IdxUrl(dirs[k], cycle, fhr);
      if HttpOk(fetch(idx)) {
        return Some(idx);
      }
      k := k + 1;
    }
    return None;
  }

  /**
   * `pick_base_dir` as a value: the directory of the first answering `.idx`
   * URL for hour 0, else for hour 3.
   */
  function BaseDirOf(prod: string, day: int, cycle: int, fetch: string -> Response): (r: Option<string>)
    ensures r.Some? ==> r.value in CandidateDirs(prod, day, cycle)
    ensures r.None? <==>
      (forall u :: u in IdxUrls(prod, day, cycle, 0) ==> !HttpOk(fetch(u))) &&
      (forall u :: u in IdxUrls(prod, day, cycle, 3) ==> !HttpOk(fetch(u)))
  {
    var idx := OrElse(FirstAnswering(IdxUrls(prod, day, cycle, 0), fetch), FirstAnswering(IdxUrls(prod, day, cycle, 3), fetch));
    if idx.None? then None
    else
      BaseOfIdxUrl(prod, day, cycle, 0, fetch);
      BaseOfIdxUrl(prod, day, cycle, 3, fetch);
      Some(RSplitHead(idx.value, '/'))
  }

  /** The directory part of an answering `.idx` URL is the candidate directory it was built from. */
  lemma BaseOfIdxUrl(prod: string, day: int, cycle: int, fhr: int, fetch: string -> Response)
    ensures var r := FirstAnswering(IdxUrls(prod, day, cycle, fhr), fetch);
      r.Some? ==> RSplitHead(r.value, '/') in CandidateDirs(prod, day, cycle)
  {
    var dirs := CandidateDirs(prod, day, cycle);
    var urls := IdxUrls(prod, day, cycle, fhr);
    var r := FirstAnswering(urls, fetch);
    if r.Some? {
      var k :| 0 <= k < |urls| && urls[k] == r.value;
      IdxUrlHead(dirs[k], cycle, fhr);
    }
  }

  /** Stripping the file name from an `.idx` URL gives back its directory. */
  lemma IdxUrlHead(dir: string, cycle: int, fhr: int)
    ensures RSplitHead(IdxUrl(dir, cycle, fhr), '/') == dir
  {
    assert !HasChar("grib2.idx", '/');
    FileNameHasNoSlash(cycle, fhr, "grib2.idx");
    var name := FileName(cycle, fhr, "grib2.idx");
    RSplitJoin(dir, name, '/');
    assert IdxUrl(dir, cycle, fhr) == dir + ['/'] + name;
  }

  /** `pick_base_dir`: probes hour 0 before hour 3 and strips the file name from the answering URL. */
  method PickBaseDir(prod: string, day: int, cycle: int, fetch: string -> Response) returns (r: Option<string>)
    ensures r == BaseDirOf(prod, day, cycle, fetch)
  {
    var idx := ProbeIdx(prod, day, cycle, 0, fetch);
    if idx.None? {
      idx := ProbeIdx(prod, day, cycle, 3, fetch);
    }
    if idx.None? {
      return None;
    }
    return Some(RSplitHead(idx.value, '/'));
  }

  /** The look-back offsets in hours: `range(0, lookback + 1, 3)`. */
  function LookbackHours(lookback: int): seq<int>
  {
    PyRange(0, lookback + 1, 3)
  }

  function CycleKeys(day: int): (r: seq<RunKey>)
    ensures |r| == |Cycles| && forall c :: 0 <= c < |r| ==> r[c] == (day, Cycles[c])
  {
    [(day, 18), (day, 12), (day, 6), (day, 0)]
  }

  /** The (date, cycle) pairs in the order discovery meets them, repeats included. */
  function KeysFor(nowHour: int, hs: seq<int>): seq<RunKey>
  {
    if |hs| == 0 then []
    else KeysFor(nowHour, hs[..|hs| - 1]) + CycleKeys(DayOf(nowHour - hs[|hs| - 1]))
  }

  lemma {:induction false} KeysForPrefix(nowHour: int, hs: seq<int>, i: nat)
    requires i <= |hs|
    ensures KeysFor(nowHour, hs[..i]) <= KeysFor(nowHour, hs)
    decreases |hs| - i
  {
    if i < |hs| {
      KeysForPrefix(nowHour, hs, i + 1);
      assert hs[..i + 1][..i] == hs[..i];
    } else {
      assert hs[..i] == hs;
    }
  }

  /**
   * What discovery knows after meeting the pairs `done`: `seen` and the probe
   * log `probed` hold exactly those pairs, the log has no repeats, and none of
   * the pairs resolved.
   */
  ghost predicate Tracked(prod: string, fetch: string -> Response, seen: set<RunKey>, probed: seq<RunKey>, done: seq<RunKey>)
  {
    (forall p :: p in seen <==> p in done) &&
    (forall p :: p in probed <==> p in done) &&
    NoDup(probed) &&
    forall j :: 0 <= j < |done| ==> BaseDirOf(prod, done[j].0, done[j].1, fetch).None?
  }

  /**
   * The inner loop of discovery for one date: the cycles newest first,
   * skipping pairs already seen, stopping at the first pair that resolves.
   */
  method ProbeDate(prod: string, d: int, fetch: string -> Response,
                   seen0: set<RunKey>, ghost probed0: seq<RunKey>, ghost done0: seq<RunKey>)
    returns (found: Option<(int, int, string)>, seen: set<RunKey>, ghost probed: seq<RunKey>, ghost done: seq<RunKey>)
    requires Tracked(prod, fetch, seen0, probed0, done0)
    ensures found.None? ==> done == done0 + CycleKeys(d) && Tracked(prod, fetch, seen, probed, done)
    ensures found.None? ==> forall c :: 0 <= c < |Cycles| ==> BaseDirOf(prod, d, Cycles[c], fetch).None? && (d, Cycles[c]) in seen
    ensures found.None? ==> seen0 <= seen
    ensures found.Some? ==>
      (exists c :: 0 <= c < |Cycles| && done == done0 + CycleKeys(d)[..c] && CycleKeys(d)[c] == (found.value.0, found.value.1)) &&
      BaseDirOf(prod, found.value.0, found.value.1, fetch) == Some(found.value.2) &&
      (forall j :: 0 <= j < |done| ==> BaseDirOf(prod, done[j].0, done[j].1, fetch).None?) &&
      NoDup(probed) && (forall p :: p in probed <==> p in done || p == (found.value.0, found.value.1)) &&
      forall p :: p in seen <==> p in probed
  {
    seen, probed, done := seen0, probed0, done0;
    ghost var ck := CycleKeys(d);
    var c := 0;
    while c < |Cycles|
      invariant 0 <= c <= |Cycles|
      invariant done == done0 + ck[..c]
      invariant Tracked(prod, fetch, seen, probed, done)
    {
      var key := (d, Cycles[c]);
      assert ck[..c + 1] == ck[..c] + [key];
      if key !in seen {
        ghost var seenBefore, probedBefore := seen, probed;
        seen := seen + {key};
        probed := probed + [key];
        var base := PickBaseDir(prod, d, Cycles[c], fetch);
        if base.Some? {
          found := Some((d, Cycles[c], base.value));
          TrackedFound(prod, fetch, seenBefore, probedBefore, done, key);
          return;
        }
        TrackedProbe(prod, fetch, seenBefore, probedBefore, done, key);
      } else {
        TrackedSkip(prod, fetch, seen, probed, done, key);
      }
      done := done + [key];
      c := c + 1;
    }
    assert ck[..|Cycles|] == ck;
    found := None;
    forall c | 0 <= c < |Cycles|
      ensures BaseDirOf(prod, d, Cycles[c], fetch).None? && (d, Cycles[c]) in seen
    {
      assert done[|done0| + c] == ck[c];
    }
  }

  /** A pair already seen is passed over: the record stays consistent. */
  lemma TrackedSkip(prod: string, fetch: string -> Response, seen: set<RunKey>, probed: seq<RunKey>,
                    done: seq<RunKey>, key: RunKey)
    requires Tracked(prod, fetch, seen, probed, done) && key in seen
    ensures Tracked(prod, fetch, seen, probed, done + [key])
  {
    assert key in done;
    var j :| 0 <= j < |done| && done[j] == key;
  }

  /** A new pair that does not resolve is recorded as probed and tried. */
  lemma TrackedProbe(prod: string, fetch: string -> Response, seen: set<RunKey>, probed: seq<RunKey>,
                     done: seq<RunKey>, key: RunKey)
    requires Tracked(prod, fetch, seen, probed, done) && key !in seen
    requires BaseDirOf(prod, key.0, key.1, fetch).None?
    ensures Tracked(prod, fetch, seen + {key}, probed + [key], done + [key])
  {
    assert key !in probed;
  }

  /** A new pair that resolves is logged as probed; no earlier one resolved. */
  lemma TrackedFound(prod: string, fetch: string -> Response, seen: set<RunKey>, probed: seq<RunKey>,
                     done: seq<RunKey>, key: RunKey)
    requires Tracked(prod, fetch, seen, probed, done) && key !in seen
    ensures NoDup(probed + [key])
    ensures forall p :: p in probed + [key] <==> p in done || p == key
    ensures forall p :: p in seen + {key} <==> p in probed + [key]
  {
    assert key !in probed;
  }

  /**
   * `latest_available_run_with_base`: steps back from now in 3-hour steps,
   * trying cycles 18, 12, 6, 0 of each date and skipping pairs already
   * tried; returns the first pair whose base directory resolves. `probed`
   * records the pairs actually probed.
   */
  method LatestAvailableRunWithBase(prod: string, lookback: Option<int>, nowHour: int, fetch: string -> Response)
    returns (r: Result<(int, int, string)>, ghost probed: seq<RunKey>)
    ensures r.Ok? ==>
      FirstResolving(prod, fetch, KeysFor(nowHour, LookbackHours(lookback.UnwrapOr(LookbackHoursDefault))), r.value)
    ensures r.Err? ==> (r.msg == NoRunMessage &&
      NoneResolve(prod, fetch, KeysFor(nowHour, LookbackHours(lookback.UnwrapOr(LookbackHoursDefault)))))
    ensures NoDup(probed)
    ensures forall p :: p in probed ==>
      p in KeysFor(nowHour, LookbackHours(lookback.UnwrapOr(LookbackHoursDefault)))
  {
    var lb := lookback.UnwrapOr(LookbackHoursDefault);
    var hours := LookbackHours(lb);
    ghost var keys := KeysFor(nowHour, hours);
    var seen: set<RunKey> := {};
    ghost var done: seq<RunKey> := [];
    probed := [];
    var i := 0;
    while i < |hours|
      invariant 0 <= i <= |hours|
      invariant done == KeysFor(nowHour, hours[..i])
      invariant Tracked(prod, fetch, seen, probed, done)
    {
      var found;
      found, seen, probed, done := ProbeHour(prod, nowHour, hours, i, fetch, seen, probed, done);
      if found.Some? {
        r := Ok(found.value);
        return;
      }
      i := i + 1;
    }
    assert hours[..|hours|] == hours;
    InPrefix(probed, done, keys);
    r := Err(NoRunMessage);
  }

  /** One pass of the look-back loop: the date `hours[i]` hours before now, probed after the dates before it. */
  method ProbeHour(prod: string, nowHour: int, hours: seq<int>, i: nat, fetch: string -> Response,
                   seen0: set<RunKey>, ghost probed0: seq<RunKey>, ghost done0: seq<RunKey>)
    returns (found: Option<(int, int, string)>, seen: set<RunKey>, ghost probed: seq<RunKey>, ghost done: seq<RunKey>)
    requires i < |hours| && done0 == KeysFor(nowHour, hours[..i])
    requires Tracked(prod, fetch, seen0, probed0, done0)
    ensures found.None? ==> done == KeysFor(nowHour, hours[..i + 1]) && Tracked(prod, fetch, seen, probed, done)
    ensures found.Some? ==> FirstResolving(prod, fetch, KeysFor(nowHour, hours), found.value)
    ensures found.Some? ==> NoDup(probed) && forall p :: p in probed ==> p in KeysFor(nowHour, hours)
  {
    var d := DayOf(nowHour - hours[i]);
    KeysStep(nowHour, hours, i);
    found, seen, probed, done := ProbeDate(prod, d, fetch, seen0, probed0, done0);
    if found.Some? {
      FoundInDate(prod, fetch, done0, d, done, found.value, probed, KeysFor(nowHour, hours));
    }
  }

  /** A pair found on date `d` after the pairs `done` is the first resolving pair, and only pairs of the list were probed. */
  lemma FoundInDate(prod: string, fetch: string -> Response, before: seq<RunKey>, d: int, done: seq<RunKey>,
                    found: (int, int, string), probed: seq<RunKey>, keys: seq<RunKey>)
    requires before + CycleKeys(d) <= keys
    requires exists c :: 0 <= c < |Cycles| && done == before + CycleKeys(d)[..c] && CycleKeys(d)[c] == (found.0, found.1)
    requires BaseDirOf(prod, found.0, found.1, fetch) == Some(found.2)
    requires forall j :: 0 <= j < |done| ==> BaseDirOf(prod, done[j].0, done[j].1, fetch).None?
    requires forall p :: p in probed <==> p in done || p == (found.0, found.1)
    ensures FirstResolving(prod, fetch, keys, found)
    ensures forall p :: p in probed ==> p in keys
  {
    var c :| 0 <= c < |Cycles| && done == before + CycleKeys(d)[..c] && CycleKeys(d)[c] == (found.0, found.1);
    PrefixStep(before, CycleKeys(d), c, keys);
    FoundAt(prod, fetch, done, keys, found);
    InPrefix(probed, done + [(found.0, found.1)], keys);
  }

  /** One more look-back offset adds that date's four pairs, and stays a prefix of all the pairs. */
  lemma KeysStep(nowHour: int, hours: seq<int>, i: nat)
    requires i < |hours|
    ensures KeysFor(nowHour, hours[..i + 1]) == KeysFor(nowHour, hours[..i]) + CycleKeys(DayOf(nowHour - hours[i]))
    ensures KeysFor(nowHour, hours[..i + 1]) <= KeysFor(nowHour, hours)
  {
    assert hours[..i + 1][..i] == hours[..i];
    KeysForPrefix(nowHour, hours, i + 1);
  }

  /** `res` names the first pair of `keys` whose base directory resolves, and its base. */
  ghost predicate FirstResolving(prod: string, fetch: string -> Response, keys: seq<RunKey>, res: (int, int, string))
  {
    exists k :: 0 <= k < |keys| && keys[k] == (res.0, res.1) &&
      BaseDirOf(prod, res.0, res.1, fetch) == Some(res.2) &&
      forall j :: 0 <= j < k ==> BaseDirOf(prod, keys[j].0, keys[j].1, fetch).None?
  }

  /** At most one result names the first resolving pair. */
  lemma FirstResolvingUnique(prod: string, fetch: string -> Response, keys: seq<RunKey>,
                             a: (int, int, string), b: (int, int, string))
    requires FirstResolving(prod, fetch, keys, a) && FirstResolving(prod, fetch, keys, b)
    ensures a == b
  {
    var ka :| 0 <= ka < |keys| && keys[ka] == (a.0, a.1) &&
      BaseDirOf(prod, a.0, a.1, fetch) == Some(a.2) &&
      forall j :: 0 <= j < ka ==> BaseDirOf(prod, keys[j].0, keys[j].1, fetch).None?;
    var kb :| 0 <= kb < |keys| && keys[kb] == (b.0, b.1) &&
      BaseDirOf(prod, b.0, b.1, fetch) == Some(b.2) &&
      forall j :: 0 <= j < kb ==> BaseDirOf(prod, keys[j].0, keys[j].1, fetch).None?;
    assert BaseDirOf(prod, keys[ka].0, keys[ka].1, fetch).Some?;
    assert BaseDirOf(prod, keys[kb].0, keys[kb].1, fetch).Some?;
    assert ka == kb;
  }

  /** No pair of `keys` resolves. */
  ghost predicate NoneResolve(prod: string, fetch: string -> Response, keys: seq<RunKey>)
  {
    forall j :: 0 <= j < |keys| ==> BaseDirOf(prod, keys[j].0, keys[j].1, fetch).None?
  }

  lemma InPrefix(probed: seq<RunKey>, done: seq<RunKey>, keys: seq<RunKey>)
    requires done <= keys
    requires forall p :: p in probed ==> p in done
    ensures forall p :: p in probed ==> p in keys
  {
    forall p | p in probed ensures p in keys {
      var j :| 0 <= j < |done| && done[j] == p;
      assert keys[j] == p;
    }
  }

  lemma PrefixStep(before: seq<RunKey>, ck: seq<RunKey>, c: int, keys: seq<RunKey>)
    requires 0 <= c < |ck| && before + ck <= keys
    ensures before + ck[..c + 1] == (before + ck[..c]) + [ck[c]]
    ensures (before + ck[..c]) + [ck[c]] <= keys
    ensures ((before + ck[..c]) + [ck[c]])[..|before| + c] == before + ck[..c]
  {
    assert ck[..c + 1] == ck[..c] + [ck[c]];
    assert (before + ck)[..|before| + c + 1] == before + ck[..c + 1];
  }

  /** The pair found after the unresolved prefix `done` of `keys` is the first resolving one. */
  lemma FoundAt(prod: string, fetch: string -> Response, done: seq<RunKey>, keys: seq<RunKey>, res: (int, int, string))
    requires done + [(res.0, res.1)] <= keys
    requires BaseDirOf(prod, res.0, res.1, fetch) == Some(res.2)
    requires forall j :: 0 <= j < |done| ==> BaseDirOf(prod, done[j].0, done[j].1, fetch).None?
    ensures FirstResolving(prod, fetch, keys, res)
  {
    var k := |done|;
    assert keys[k] == (res.0, res.1);
    assert forall j :: 0 <= j < k ==> keys[j] == done[j];
  }

  /** `build_hour_urls`: one URL per hour, in hour order, inside `baseDir`. */
  function BuildHourUrls(baseDir: string, cycle: int, hours: seq<int>, ext: string): (r: seq<string>)
    ensures |r| == |hours|
  {
    seq(|hours|, i requires 0 <= i < |hours| => baseDir + "/" + FileName(cycle, hours[i], ext))
  }

  /**
   * Each built URL splits at its last slash into the base directory and a
   * file name from which the cycle and the hour read back.
   */
  lemma HourUrlParts(baseDir: string, cycle: int, hours: seq<int>, ext: string, i: int)
    requires 0 <= i < |hours| && !HasChar(ext, '/')
    requires 0 <= cycle < 100 && 0 <= hours[i] < 1000
    ensures var u := BuildHourUrls(baseDir, cycle, hours, ext)[i];
      var name := RSplitTail(u, '/');
      RSplitHead(u, '/') == baseDir && name == FileName(cycle, hours[i], ext) &&
      |name| >= 29 && AllDigits(name[9..11]) && DigitsValue(name[9..11]) == cycle &&
      AllDigits(name[26..29]) && DigitsValue(name[26..29]) == hours[i]
  {
    var name := FileName(cycle, hours[i], ext);
    var u := BuildHourUrls(baseDir, cycle, hours, ext)[i];
    assert u == baseDir + "/" + name;
    assert u == baseDir + ['/'] + name;
    FileNameHasNoSlash(cycle, hours[i], ext);
    RSplitJoin(baseDir, name, '/');
    FileNameFields(cycle, hours[i], ext);
  }
}
