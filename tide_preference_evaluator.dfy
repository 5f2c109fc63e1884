/**
 * `Services\TidePreferenceEvaluator::tidePrefMatch`: the same tide
 * preference match as `TidePreference`, wired to this repository's own
 * services: the window is `TidePhaseService.tideWindowForStation` on the
 * nearest station's table and the upcoming rows are
 * `NoaaTideRepository.getNextHL`. It returns local-time strings only; here
 * every reported time is the instant it shows.
 *
 * The database is a function from table name to the table's rows in
 * `t_utc` order.
 */
module TidePreferenceEvaluator {
  import opened Common
  import opened Php
  import opened NoaaTideRepository
  import opened TidePhaseService
  import opened TidePreference

  /** The rows of a station's table. */
  function StationTable(db: string -> seq<TideRow>, id: string): seq<TideRow>
  {
    db(TableFor(id))
  }

  /** `tidePrefMatch` on a freshly computed window of the station's table. */
  function EvaluateSpec(spot: Row, table: seq<TideRow>, now: int, windowMin: int): PrefMatch
  {
    MatchWindow(Prefs(spot), TideWindowSpec(table, now, windowMin), GetNextHL(table, now, AheadRows), now)
  }

  /** The evaluator with its per-station, per-hour memo of tide windows. */
  class Evaluator {
    var cache: map<(string, int), TideWindow>

    constructor()
      ensures cache == map[]
    {
      cache := map[];
    }

    /** `tidePrefMatch`; `distKm` stands for the haversine distance. */
    method TidePrefMatch(spot: Row, now: int, windowMin: int,
                         distKm: (real, real, real, real) -> real,
                         db: string -> seq<TideRow>) returns (r: PrefMatch)
      modifies this
      ensures !HasCoords(spot) ==> r == Skipped(Prefs(spot).Any(), "no coords") && cache == old(cache)
      ensures HasCoords(spot) ==>
        var id := NearestId(FloatCast(spot["region_lat"]), FloatCast(spot["region_lon"]), distKm);
        var key := CacheKey(id, now);
        var table := StationTable(db, id);
        cache == (if key in old(cache) then old(cache) else old(cache)[key := TideWindowSpec(table, now, windowMin)]) &&
        r == MatchWindow(Prefs(spot), cache[key], GetNextHL(table, now, AheadRows), now)
    {
      var prefs := Prefs(spot);
      if !HasCoords(spot) {
        return Skipped(prefs.Any(), "no coords");
      }
      var lat := FloatCast(spot["region_lat"]);
      var lon := FloatCast(spot["region_lon"]);
      var id := NearestStation(lat, lon, distKm);
      var key := CacheKey(id, now);
      var table := StationTable(db, id);
      if key !in cache {
        var w := TideWindowForStation(table, now, windowMin);
        cache := cache[key := w];
      }
      var tide := cache[key];
      r := EvaluateWindow(prefs, tide, GetNextHL(table, now, AheadRows), now);
    }
  }

  /**
   * A match on high (or low) tide means the spot prefers it and the next
   * high (low) of the table is no more than the window (plus the half
   * minute `round` adds) ahead; the reported time is that event's.
   */
  lemma MatchedHighOrLowIsNear(spot: Row, table: seq<TideRow>, now: int, windowMin: int)
    ensures var r := EvaluateSpec(spot, table, now, windowMin);
      r.reason == Some("H") || r.reason == Some("L") ==>
        PrefFor(Prefs(spot), r.reason.value) && r.reasonT.Some? &&
        (exists x :: x in table && x.hlType == r.reason.value && x.when == r.reasonT.value) &&
        now <= r.reasonT.value < now + 60 * windowMin + 30
  {
    var w := TideWindowSpec(table, now, windowMin);
    var r := EvaluateSpec(spot, table, now, windowMin);
    if r.reason == Some("H") || r.reason == Some("L") {
      assert w.Window?;
      var x := w.next.value;
      assert x in table && x.hlType == r.reason.value && x.when == r.reasonT.value;
    }
  }

  /**
   * A match on a mid-tide means the spot prefers it, the window's mid-tide
   * runs the matching way (`L→H` for `M+`, `H→L` for `M-`), and it is
   * reported at its minute.
   */
  lemma MatchedMidIsNear(spot: Row, table: seq<TideRow>, now: int, windowMin: int)
    ensures var r := EvaluateSpec(spot, table, now, windowMin);
      var w := TideWindowSpec(table, now, windowMin);
      r.reason == Some("M+") || r.reason == Some("M-") ==>
        PrefFor(Prefs(spot), r.reason.value) && w.Window? && w.mid.Some? &&
        r.reasonT == Some(w.mid.value.t) &&
        (r.reason == Some("M+") <==> w.mid.value.between == LowToHigh) &&
        w.mid.value.t - 60 * windowMin - 30 < now < w.mid.value.t + 60 * windowMin + 90
  {
  }

  /** A table with no high or low on either side is reported as a match with the tide error. */
  lemma NoEventsIsReportedAsMatch(spot: Row, table: seq<TideRow>, now: int, windowMin: int)
    requires PrevForWindow(table, now).None?
    requires forall x :: x in GetNextHL(table, now, WindowLookAhead) ==> !IsHL(x.hlType)
    ensures var r := EvaluateSpec(spot, table, now, windowMin);
      r.ok && r.tide.None? && r.debug == "tide error: no_hl_events"
  {
  }
}
