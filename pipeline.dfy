/**
 * The driver of the GFS-Wave fetch (`Forecast/src/main.py`): the hour
 * specification, the download retry loop, the skip-if-cached download of
 * every hour of the resolved run, and `main`, which chains discovery,
 * download and the per-station series.
 *
 * The network and the file system are parameters: `attemptOk(url, k)` says
 * whether attempt `k` of downloading `url` got a 200 and wrote the body,
 * `cached(path)` whether a non-empty file already sits at `path`, and
 * `open(path)` the decoded GRIB file at `path`.
 */
module Pipeline {
  import opened Common
  import Nomads
  import PointSeries

  /** The `HOURS` default: every third hour from 0 to 72. */
  const HoursSpecDefault: string := "0:72:3"
  /** The `OUT_ROOT` default. */
  const OutRootDefault: string := "data/grib/gfswave"
  /** The default number of download attempts. */
  const RetriesDefault: int := 3
  /** The tail of the exit message when no hour of the run could be stored. */
  const NoFilesMessage: string := "downloaded 0 files. Check URL pattern or try again shortly."
  const BadSpecMessage: string := "invalid hours spec"
  const ZeroStepMessage: string := "range() arg 3 must not be zero"

  /** The stations processed, with their latitude and longitude. */
  const Stations: seq<(string, real, real)> := [("41112", 30.709, -81.292), ("41117", 29.999, -81.079)]

  // ---------------------------------------------------------------------
  // parse_hours
  // ---------------------------------------------------------------------

  /** The three integers of `"start:end:step"`, when the text has exactly that shape. */
  function HourFields(spec: string): (r: Option<(int, int, int)>)
    ensures r.Some? ==> |SplitOn(spec, ':')| == 3
  {
    var parts := SplitOn(spec, ':');
    if |parts| != 3 then None
    else
      var a := ParseInt(parts[0]);
      var b := ParseInt(parts[1]);
      var c := ParseInt(parts[2]);
      if a.Some? && b.Some? && c.Some? then Some((a.value, b.value, c.value)) else None
  }

  /**
   * `parse_hours`: `range(start, end + 1, step)`. The end is inclusive: with
   * a positive step the hours climb by `step` from `start`, none passes `end`,
   * and the next one would. A malformed spec or a zero step is an error.
   */
  function ParseHours(spec: string): (r: Result<seq<int>>)
    ensures r.Ok? <==> HourFields(spec).Some? && HourFields(spec).value.2 != 0
    ensures r.Ok? ==> var (a, b, c) := HourFields(spec).value;
      (forall i :: 0 <= i < |r.value| ==> r.value[i] == a + i * c) &&
      (c > 0 ==> (forall i :: 0 <= i < |r.value| ==> r.value[i] <= b) && a + |r.value| * c > b) &&
      (c < 0 ==> (forall i :: 0 <= i < |r.value| ==> r.value[i] > b + 1) && a + |r.value| * c <= b + 1)
  {
    var f := HourFields(spec);
    if f.None? then Err(BadSpecMessage)
    else if f.value.2 == 0 then Err(ZeroStepMessage)
    else
      var (a, b, c) := f.value;
      PyRangeSpec(a, b + 1, c);
      Ok(PyRange(a, b + 1, c))
  }

  /** Writing three integers as `"a:b:c"` and reading them back gives the same integers. */
  lemma HourFieldsRoundTrip(a: int, b: int, c: int)
    ensures HourFields(IntToString(a) + ":" + IntToString(b) + ":" + IntToString(c)) == Some((a, b, c))
  {
    var parts := [IntToString(a), IntToString(b), IntToString(c)];
    IntHasNoColon(a);
    IntHasNoColon(b);
    IntHasNoColon(c);
    assert Join(parts, ':') == IntToString(a) + ":" + IntToString(b) + ":" + IntToString(c) by {
      assert Join(parts[2..], ':') == IntToString(c);
      assert parts[1..][1..] == parts[2..];
    }
    JoinSplitOn(parts, ':');
    IntStringRoundTrip(a);
    IntStringRoundTrip(b);
    IntStringRoundTrip(c);
  }

  lemma IntHasNoColon(i: int)
    ensures !HasChar(IntToString(i), ':')
  {
    if i < 0 {
      DigitsHaveNo(NatToString(-i), ':');
      HasCharConcat("-", NatToString(-i), ':');
    } else {
      DigitsHaveNo(NatToString(i), ':');
    }
  }

  /** The default spec gives the 25 hours 0, 3, ..., 72. */
  lemma DefaultHours()
    ensures ParseHours(HoursSpecDefault).Ok?
    ensures var h := ParseHours(HoursSpecDefault).value;
      |h| == 25 && h[0] == 0 && h[24] == 72
  {
    DefaultFields();
    var h := ParseHours(HoursSpecDefault).value;
    assert |h| >= 25;
    assert h[|h| - 1] == 3 * (|h| - 1) <= 72;
  }

  lemma DefaultFields()
    ensures HourFields(HoursSpecDefault) == Some((0, 72, 3))
  {
    HourFieldsRoundTrip(0, 72, 3);
    assert IntToString(0) + ":" + IntToString(72) + ":" + IntToString(3) == HoursSpecDefault;
  }

  // ---------------------------------------------------------------------
  // download
  // ---------------------------------------------------------------------

  /** Some attempt among the first `retries` succeeds. */
  predicate DownloadOk(url: string, retries: int, attemptOk: (string, int) -> bool)
  {
    exists k :: 1 <= k <= retries && attemptOk(url, k)
  }

  /**
   * `download`: attempts 1 to `retries` in turn. True at the first attempt
   * that succeeds; false only once every attempt failed. After failed
   * attempt `k` it sleeps `2 * k` seconds; `slept` records those pauses and
   * `attempts` the number of requests made.
   */
  method Download(url: string, retries: int, attemptOk: (string, int) -> bool)
    returns (ok: bool, ghost attempts: nat, ghost slept: seq<int>)
    ensures ok <==> DownloadOk(url, retries, attemptOk)
    ensures ok ==> 1 <= attempts <= retries && attemptOk(url, attempts) &&
                   forall k :: 1 <= k < attempts ==> !attemptOk(url, k)
    ensures !ok ==> attempts == Max(retries, 0)
    ensures |slept| == (if ok then attempts - 1 else attempts)
    ensures forall i :: 0 <= i < |slept| ==> slept[i] == 2 * (i + 1)
  {
    attempts := 0;
    slept := [];
    var attempt := 1;
    while attempt <= retries
      invariant 1 <= attempt <= Max(retries, 0) + 1
      invariant attempts == attempt - 1 && |slept| == attempts
      invariant forall k :: 1 <= k < attempt ==> !attemptOk(url, k)
      invariant forall i :: 0 <= i < |slept| ==> slept[i] == 2 * (i + 1)
    {
      attempts := attempts + 1;
      if attemptOk(url, attempt) {
        return true, attempts, slept;
      }
      slept := slept + [2 * attempt];
      attempt := attempt + 1;
    }
    ok := false;
  }

  // ---------------------------------------------------------------------
  // The download step of main
  // ---------------------------------------------------------------------

  /** Where an hour's file is stored: the target directory and the URL's last path segment. */
  function Dest(targetDir: string, url: string): string
  {
    targetDir + "/" + RSplitTail(url, '/')
  }

  /** An hour's file is at hand: already on disk and non-empty, or downloaded now. */
  predicate Obtained(url: string, targetDir: string, cached: string -> bool, retries: int, attemptOk: (string, int) -> bool)
  {
    cached(Dest(targetDir, url)) || DownloadOk(url, retries, attemptOk)
  }

  /** The stored paths of the obtained hours, in URL order. */
  function LocalPaths(urls: seq<string>, targetDir: string, cached: string -> bool, retries: int,
                      attemptOk: (string, int) -> bool): (r: seq<string>)
    ensures |r| <= |urls|
  {
    if |urls| == 0 then []
    else
      var p := LocalPaths(urls[..|urls| - 1], targetDir, cached, retries, attemptOk);
      var u := urls[|urls| - 1];
      if Obtained(u, targetDir, cached, retries, attemptOk) then p + [Dest(targetDir, u)] else p
  }

  /** `p` is the destination of some obtained hour among `urls`. */
  predicate StoredFor(urls: seq<string>, p: string, targetDir: string, cached: string -> bool,
                      retries: int, attemptOk: (string, int) -> bool)
  {
    exists i :: 0 <= i < |urls| && Obtained(urls[i], targetDir, cached, retries, attemptOk) && p == Dest(targetDir, urls[i])
  }

  /** The stored paths are exactly the destinations of the obtained hours. */
  lemma LocalPathsExact(urls: seq<string>, targetDir: string, cached: string -> bool,
                        retries: int, attemptOk: (string, int) -> bool)
    ensures forall p :: p in LocalPaths(urls, targetDir, cached, retries, attemptOk) <==>
      exists i :: 0 <= i < |urls| && Obtained(urls[i], targetDir, cached, retries, attemptOk) && p == Dest(targetDir, urls[i])
  {
    forall p ensures p in LocalPaths(urls, targetDir, cached, retries, attemptOk) <==>
      StoredFor(urls, p, targetDir, cached, retries, attemptOk)
    {
      StoredPathIn(urls, p, targetDir, cached, retries, attemptOk);
    }
  }

  lemma {:induction false} StoredPathIn(urls: seq<string>, p: string, targetDir: string, cached: string -> bool,
                                        retries: int, attemptOk: (string, int) -> bool)
    ensures p in LocalPaths(urls, targetDir, cached, retries, attemptOk) <==>
      StoredFor(urls, p, targetDir, cached, retries, attemptOk)
    decreases |urls|
  {
    if |urls| > 0 {
      StoredPathIn(urls[..|urls| - 1], p, targetDir, cached, retries, attemptOk);
      StoredForStep(urls, p, targetDir, cached, retries, attemptOk);
    }
  }

  /** Stored among `urls` is stored among all but the last, or stored for the last. */
  lemma StoredForStep(urls: seq<string>, p: string, targetDir: string, cached: string -> bool,
                      retries: int, attemptOk: (string, int) -> bool)
    requires |urls| > 0
    ensures var n := |urls|;
      StoredFor(urls, p, targetDir, cached, retries, attemptOk) <==>
        StoredFor(urls[..n - 1], p, targetDir, cached, retries, attemptOk) ||
        (Obtained(urls[n - 1], targetDir, cached, retries, attemptOk) && p == Dest(targetDir, urls[n - 1]))
  {
    var n := |urls|;
    var q := urls[..n - 1];
    if StoredFor(urls, p, targetDir, cached, retries, attemptOk) {
      var i :| 0 <= i < n && Obtained(urls[i], targetDir, cached, retries, attemptOk) && p == Dest(targetDir, urls[i]);
      if i < n - 1 {
        assert q[i] == urls[i];
      }
    }
    if StoredFor(q, p, targetDir, cached, retries, attemptOk) {
      var i :| 0 <= i < |q| && Obtained(q[i], targetDir, cached, retries, attemptOk) && p == Dest(targetDir, q[i]);
      assert urls[i] == q[i];
    }
  }

  /** No stored path unless some hour was obtained, and every obtained hour leaves one. */
  lemma {:induction false} LocalPathsEmpty(urls: seq<string>, targetDir: string, cached: string -> bool,
                                           retries: int, attemptOk: (string, int) -> bool)
    ensures |LocalPaths(urls, targetDir, cached, retries, attemptOk)| == 0 <==>
      forall i :: 0 <= i < |urls| ==> !Obtained(urls[i], targetDir, cached, retries, attemptOk)
  {
    LocalPathsExact(urls, targetDir, cached, retries, attemptOk);
    var r := LocalPaths(urls, targetDir, cached, retries, attemptOk);
    if |r| > 0 {
      assert r[0] in r;
    } else {
      forall i | 0 <= i < |urls| ensures !Obtained(urls[i], targetDir, cached, retries, attemptOk) {
        assert Dest(targetDir, urls[i]) !in r;
      }
    }
  }

  /**
   * The download loop of `main`: a cached file counts without a request,
   * otherwise the hour is downloaded; obtained hours are collected in order
   * and counted. No obtained hour at all is an error.
   */
  method FetchAll(urls: seq<string>, targetDir: string, cached: string -> bool, retries: int,
                  attemptOk: (string, int) -> bool) returns (r: Result<seq<string>>)
    ensures r.Ok? <==> exists i :: 0 <= i < |urls| && Obtained(urls[i], targetDir, cached, retries, attemptOk)
    ensures r.Ok? ==> r.value == LocalPaths(urls, targetDir, cached, retries, attemptOk)
    ensures r.Err? ==> r.msg == NoFilesMessage
  {
    var okCount := 0;
    var localPaths: seq<string> := [];
    var i := 0;
    while i < |urls|
      invariant 0 <= i <= |urls|
      invariant localPaths == LocalPaths(urls[..i], targetDir, cached, retries, attemptOk)
      invariant okCount == |localPaths|
    {
      var u := urls[i];
      var dest := Dest(targetDir, u);
      var ok;
      if cached(dest) {
        ok := true;
      } else {
        ghost var tries, pauses;
        ok, tries, pauses := Download(u, retries, attemptOk);
      }
      assert urls[..i + 1][..i] == urls[..i];
      if ok {
        okCount := okCount + 1;
        localPaths := localPaths + [dest];
      }
      i := i + 1;
    }
    assert urls[..|urls|] == urls;
    LocalPathsEmpty(urls, targetDir, cached, retries, attemptOk);
    if okCount == 0 {
      return Err(NoFilesMessage);
    }
    r := Ok(localPaths);
  }

  /** The stored path of an hour of the run is the target directory and the hour's file name. */
  lemma DestOfHourUrl(baseDir: string, targetDir: string, cycle: int, hours: seq<int>, i: int)
    requires 0 <= i < |hours| && 0 <= cycle < 100 && 0 <= hours[i] < 1000
    ensures Dest(targetDir, Nomads.BuildHourUrls(baseDir, cycle, hours, "grib2")[i]) ==
            targetDir + "/" + Nomads.FileName(cycle, hours[i], "grib2")
  {
    assert !HasChar("grib2", '/');
    Nomads.HourUrlParts(baseDir, cycle, hours, "grib2", i);
  }

  // ---------------------------------------------------------------------
  // main
  // ---------------------------------------------------------------------

  /** How a run ends: nothing to do, or the series of every station. */
  datatype Outcome =
    | NoWork
    | Series(day: int, cycle: int, baseDir: string, paths: seq<string>, series: seq<(string, seq<PointSeries.Rec>)>)

  /** The directory the run's files go to: `OUT_ROOT/<yyyymmdd>/<cc>`. */
  function TargetDir(outRoot: string, day: int, cycle: int): string
  {
    outRoot + "/" + Nomads.Ymd(day) + "/" + PadInt(cycle, 2)
  }

  /** The run time used when a file carries no time: midnight of the run date plus the cycle hours. */
  function RunTime(day: int, cycle: int): int
  {
    day * 86400 + cycle * 3600
  }

  /** Every station's series over the same files, in station order. */
  function StationSeries(files: seq<PointSeries.GribFile>, runTime: int): Result<seq<(string, seq<PointSeries.Rec>)>>
  {
    AllSeries(files, runTime, |Stations|)
  }

  function AllSeries(files: seq<PointSeries.GribFile>, runTime: int, n: nat): (r: Result<seq<(string, seq<PointSeries.Rec>)>>)
    requires n <= |Stations|
    ensures r.Ok? ==> |r.value| == n
  {
    if n == 0 then Ok([])
    else
      var p := AllSeries(files, runTime, n - 1);
      if p.Err? then p
      else
        var (id, lat, lon) := Stations[n - 1];
        var one := PointSeries.SeriesOf(files, id, lat, lon, runTime);
        if one.Err? then Err(one.msg) else Ok(p.value + [(id, one.value)])
  }

  /** A successful pass over the stations gives each station its own series. */
  lemma {:induction false} AllSeriesEach(files: seq<PointSeries.GribFile>, runTime: int, n: nat)
    requires n <= |Stations| && AllSeries(files, runTime, n).Ok?
    ensures var r := AllSeries(files, runTime, n).value;
      forall s :: 0 <= s < n ==>
        (r[s].0 == Stations[s].0 &&
         Ok(r[s].1) == PointSeries.SeriesOf(files, Stations[s].0, Stations[s].1, Stations[s].2, runTime))
  {
    if n > 0 {
      AllSeriesEach(files, runTime, n - 1);
    }
  }

  /** The per-station loop of `main`: the first failing station aborts the run. */
  method ProcessStations(files: seq<PointSeries.GribFile>, runTime: int)
    returns (r: Result<seq<(string, seq<PointSeries.Rec>)>>)
    ensures r == StationSeries(files, runTime)
  {
    var series: seq<(string, seq<PointSeries.Rec>)> := [];
    var s := 0;
    while s < |Stations|
      invariant 0 <= s <= |Stations|
      invariant AllSeries(files, runTime, s) == Ok(series)
    {
      var (id, lat, lon) := Stations[s];
      var one := PointSeries.ProcessPointSeries(files, id, lat, lon, runTime);
      if one.Err? {
        AllSeriesErr(files, runTime, s + 1);
        return Err(one.msg);
      }
      series := series + [(id, one.value)];
      s := s + 1;
    }
    r := Ok(series);
  }

  lemma {:induction false} AllSeriesErr(files: seq<PointSeries.GribFile>, runTime: int, n: nat)
    requires n <= |Stations| && AllSeries(files, runTime, n).Err?
    ensures StationSeries(files, runTime) == AllSeries(files, runTime, n)
    decreases |Stations| - n
  {
    if n < |Stations| {
      AllSeriesErr(files, runTime, n + 1);
    }
  }

  /** One station's series over the files (`process_point_series` for station `s`). */
  function StationRun(files: seq<PointSeries.GribFile>, runTime: int, s: nat): Result<seq<PointSeries.Rec>>
    requires s < |Stations|
  {
    PointSeries.SeriesOf(files, Stations[s].0, Stations[s].1, Stations[s].2, runTime)
  }

  /** Station `s` fails and every station before it succeeds. */
  predicate FirstFailure(files: seq<PointSeries.GribFile>, runTime: int, s: nat)
  {
    s < |Stations| && StationRun(files, runTime, s).Err? &&
    forall t :: 0 <= t < s ==> StationRun(files, runTime, t).Ok?
  }

  /**
   * The pass over the first `n` stations fails exactly when one of them
   * fails, and then with the message of the first that does.
   */
  lemma {:induction false} AllSeriesFirstFailure(files: seq<PointSeries.GribFile>, runTime: int, n: nat)
    requires n <= |Stations|
    ensures AllSeries(files, runTime, n).Err? <==> exists s :: 0 <= s < n && StationRun(files, runTime, s).Err?
    ensures AllSeries(files, runTime, n).Err? ==>
      exists s: nat :: s < n && FirstFailure(files, runTime, s) && AllSeries(files, runTime, n).msg == StationRun(files, runTime, s).msg
  {
    if n > 0 {
      AllSeriesFirstFailure(files, runTime, n - 1);
      if AllSeries(files, runTime, n - 1).Ok? && StationRun(files, runTime, n - 1).Err? {
        assert FirstFailure(files, runTime, n - 1);
      }
    }
  }

  /** The URLs of the run's hours, all from its resolved base directory. */
  function HourUrls(baseDir: string, cycle: int, hours: seq<int>): seq<string>
  {
    Nomads.BuildHourUrls(baseDir, cycle, hours, "grib2")
  }

  /** No hour of the run could be obtained, from the cache or by download. */
  predicate NoneObtained(urls: seq<string>, targetDir: string, cached: string -> bool, attemptOk: (string, int) -> bool)
  {
    forall i :: 0 <= i < |urls| ==> !Obtained(urls[i], targetDir, cached, RetriesDefault, attemptOk)
  }

  /** The paths a resolved run stores: the destinations of the hours obtained. */
  function RunPaths(day: int, cycle: int, baseDir: string, hours: seq<int>, outRoot: string,
                    cached: string -> bool, attemptOk: (string, int) -> bool): seq<string>
  {
    LocalPaths(HourUrls(baseDir, cycle, hours), TargetDir(outRoot, day, cycle), cached, RetriesDefault, attemptOk)
  }

  /** The decoded files at the stored paths. */
  function OpenAll(paths: seq<string>, open: string -> PointSeries.GribFile): (files: seq<PointSeries.GribFile>)
    ensures |files| == |paths| && forall k :: 0 <= k < |paths| ==> files[k] == open(paths[k])
  {
    seq(|paths|, k requires 0 <= k < |paths| => open(paths[k]))
  }

  /** The exit message when nothing of the resolved run could be stored. */
  function NoFilesText(day: int, cycle: int, baseDir: string): string
  {
    "Resolved run " + Nomads.Ymd(day) + " " + PadInt(cycle, 2) + "Z @ " + baseDir + ", but " + NoFilesMessage
  }

  /**
   * What `main` does once a run is resolved. It fails with the hour
   * specification's error, or with the exit message when no hour was
   * obtained, and otherwise gives every station's series over the stored
   * files, unless a station fails.
   */
  function ResolvedRun(day: int, cycle: int, baseDir: string, hoursSpec: string, outRoot: string,
                       cached: string -> bool, attemptOk: (string, int) -> bool,
                       open: string -> PointSeries.GribFile): (r: Result<Outcome>)
    ensures ParseHours(hoursSpec).Err? ==> r == Err(ParseHours(hoursSpec).msg)
    ensures ParseHours(hoursSpec).Ok? &&
            NoneObtained(HourUrls(baseDir, cycle, ParseHours(hoursSpec).value), TargetDir(outRoot, day, cycle), cached, attemptOk) ==>
            r == Err(NoFilesText(day, cycle, baseDir))
    ensures r.Ok? ==>
      r.value.Series? && r.value.day == day && r.value.cycle == cycle && r.value.baseDir == baseDir &&
      ParseHours(hoursSpec).Ok? && |r.value.paths| > 0 &&
      r.value.paths == RunPaths(day, cycle, baseDir, ParseHours(hoursSpec).value, outRoot, cached, attemptOk) &&
      |r.value.series| == |Stations| &&
      forall s :: 0 <= s < |Stations| ==>
        r.value.series[s].0 == Stations[s].0 && Ok(r.value.series[s].1) == StationRun(OpenAll(r.value.paths, open), RunTime(day, cycle), s)
  {
    var hours := ParseHours(hoursSpec);
    if hours.Err? then Err(hours.msg)
    else
      var paths := RunPaths(day, cycle, baseDir, hours.value, outRoot, cached, attemptOk);
      LocalPathsEmpty(HourUrls(baseDir, cycle, hours.value), TargetDir(outRoot, day, cycle), cached, RetriesDefault, attemptOk);
      if |paths| == 0 then Err(NoFilesText(day, cycle, baseDir))
      else
        var series := StationSeries(OpenAll(paths, open), RunTime(day, cycle));
        if series.Err? then Err(series.msg)
        else
          AllSeriesEach(OpenAll(paths, open), RunTime(day, cycle), |Stations|);
          Ok(Series(day, cycle, baseDir, paths, series.value))
  }

  /**
   * Once some hour is stored, a resolved run fails exactly when a station
   * fails, and then with the error of the first failing station.
   */
  lemma ResolvedRunStationFailure(day: int, cycle: int, baseDir: string, hoursSpec: string, outRoot: string,
                                  cached: string -> bool, attemptOk: (string, int) -> bool,
                                  open: string -> PointSeries.GribFile)
    requires ParseHours(hoursSpec).Ok?
    requires !NoneObtained(HourUrls(baseDir, cycle, ParseHours(hoursSpec).value), TargetDir(outRoot, day, cycle), cached, attemptOk)
    ensures var r := ResolvedRun(day, cycle, baseDir, hoursSpec, outRoot, cached, attemptOk, open);
      var files := OpenAll(RunPaths(day, cycle, baseDir, ParseHours(hoursSpec).value, outRoot, cached, attemptOk), open);
      (r.Err? <==> exists s :: 0 <= s < |Stations| && StationRun(files, RunTime(day, cycle), s).Err?) &&
      (r.Err? ==> exists s: nat :: FirstFailure(files, RunTime(day, cycle), s) && r.msg == StationRun(files, RunTime(day, cycle), s).msg)
  {
    var hours := ParseHours(hoursSpec).value;
    LocalPathsEmpty(HourUrls(baseDir, cycle, hours), TargetDir(outRoot, day, cycle), cached, RetriesDefault, attemptOk);
    var paths := RunPaths(day, cycle, baseDir, hours, outRoot, cached, attemptOk);
    assert |paths| > 0;
    var files := OpenAll(paths, open);
    var series := StationSeries(files, RunTime(day, cycle));
    var r := ResolvedRun(day, cycle, baseDir, hoursSpec, outRoot, cached, attemptOk, open);
    assert r == if series.Err? then Err(series.msg) else Ok(Series(day, cycle, baseDir, paths, series.value));
    AllSeriesFirstFailure(files, RunTime(day, cycle), |Stations|);
  }

  /**
   * `main` once a run is resolved: the hours of the run from its base
   * directory, the downloads, and one series per station over the same
   * files. A bad hour spec, zero downloads and a failing station abort it.
   */
  method RunResolved(day: int, cycle: int, baseDir: string, hoursSpec: string, outRoot: string,
                     cached: string -> bool, attemptOk: (string, int) -> bool, open: string -> PointSeries.GribFile)
    returns (r: Result<Outcome>)
    ensures r == ResolvedRun(day, cycle, baseDir, hoursSpec, outRoot, cached, attemptOk, open)
  {
    var hours := ParseHours(hoursSpec);
    if hours.Err? {
      return Err(hours.msg);
    }
    var urls := Nomads.BuildHourUrls(baseDir, cycle, hours.value, "grib2");
    var targetDir := TargetDir(outRoot, day, cycle);
    var paths := FetchAll(urls, targetDir, cached, RetriesDefault, attemptOk);
    if paths.Err? {
      return Err("Resolved run " + Nomads.Ymd(day) + " " + PadInt(cycle, 2) + "Z @ " + baseDir + ", but " + paths.msg);
    }
    LocalPathsEmpty(urls, targetDir, cached, RetriesDefault, attemptOk);
    var files := seq(|paths.value|, k requires 0 <= k < |paths.value| => open(paths.value[k]));
    var series := ProcessStations(files, RunTime(day, cycle));
    if series.Err? {
      return Err(series.msg);
    }
    r := Ok(Series(day, cycle, baseDir, paths.value, series.value));
  }

  /**
   * `main`: discovery, then the resolved run. A failed discovery ends the
   * run with no work.
   */
  method Run(prod: string, lookback: Option<int>, nowHour: int, fetch: string -> Nomads.Response,
             hoursSpec: string, outRoot: string, cached: string -> bool,
             attemptOk: (string, int) -> bool, open: string -> PointSeries.GribFile)
    returns (r: Result<Outcome>)
    ensures var keys := Nomads.KeysFor(nowHour, Nomads.LookbackHours(lookback.UnwrapOr(Nomads.LookbackHoursDefault)));
      Nomads.NoneResolve(prod, fetch, keys) ==> r == Ok(NoWork)
    ensures var keys := Nomads.KeysFor(nowHour, Nomads.LookbackHours(lookback.UnwrapOr(Nomads.LookbackHoursDefault)));
      forall v :: Nomads.FirstResolving(prod, fetch, keys, v) ==>
        r == ResolvedRun(v.0, v.1, v.2, hoursSpec, outRoot, cached, attemptOk, open)
    ensures r.Ok? && r.value.NoWork? ==>
      var keys := Nomads.KeysFor(nowHour, Nomads.LookbackHours(lookback.UnwrapOr(Nomads.LookbackHoursDefault)));
      forall k :: 0 <= k < |keys| ==> Nomads.BaseDirOf(prod, keys[k].0, keys[k].1, fetch).None?
  {
    var found, _ := Nomads.LatestAvailableRunWithBase(prod, lookback, nowHour, fetch);
    if found.Err? {
      return Ok(NoWork);
    }
    var (day, cycle, baseDir) := found.value;
    r := RunResolved(day, cycle, baseDir, hoursSpec, outRoot, cached, attemptOk, open);
    ghost var keys := Nomads.KeysFor(nowHour, Nomads.LookbackHours(lookback.UnwrapOr(Nomads.LookbackHoursDefault)));
    forall v | Nomads.FirstResolving(prod, fetch, keys, v)
      ensures r == ResolvedRun(v.0, v.1, v.2, hoursSpec, outRoot, cached, attemptOk, open)
    {
      Nomads.FirstResolvingUnique(prod, fetch, keys, found.value, v);
    }
  }
}
