/** The plugin's GRIB download control: which forecast file a request
    names, how a requested date is turned into a historic date, which old
    files are removed, the retry loop, and the flag that tracks the
    background download.  The clock, the file system, the network and the
    background task are inputs. */
module GribDownload {
  import opened Numeric
  import opened Options
  import opened Cycles
  import opened Text

  // ---------------------------------------------------------------------
  // Download URL

  /** What the URL names: the run, the forecast hour, and whether it is the
      NOAA filter service (otherwise the GitHub daily release). */
  datatype UrlPlan = UrlPlan(cycle: int, forecast: int, fromNoaa: bool)

  /** `GetDownloadUrl` for a provided time `hour:minute` UTC. */
  method GetDownloadUrl(sysTime: bool, hour: int, minute: int) returns (plan: UrlPlan)
    requires 0 <= hour < 24 && 0 <= minute < 60
    ensures plan.cycle == CycleFor(Adjusted(hour, minute).0) == CycleAndForecast(hour, minute).0
    ensures plan.fromNoaa == sysTime
    ensures sysTime ==> plan.forecast == CycleAndForecast(hour, minute).1 && plan.forecast in {3, 6, 9}
    ensures !sysTime ==> plan.forecast == 6
  {
    var (cHour, dayChanged) := Adjusted(hour, minute);
    var cycle := LatestCycle(cHour);
    var adjs := 0;
    if dayChanged {
      adjs := 24;
    }
    var forecast := CDiv(adjs + hour - cycle, 3) * 3;
    ForecastReachesRequest(hour, minute);
    if sysTime {
      plan := UrlPlan(cycle, forecast, true);
    } else {
      forecast := 6;
      plan := UrlPlan(cycle, forecast, false);
    }
  }

  // ---------------------------------------------------------------------
  // Requested time

  /** A local date and hour. */
  datatype Stamp = Stamp(year: int, month: int, day: int, hour: int)

  /** (month, day, hour) of the first comes after that of the second. */
  predicate LaterInYear(m1: int, d1: int, h1: int, m2: int, d2: int, h2: int)
  {
    m1 > m2 || (m1 == m2 && d1 > d2) || (m1 == m2 && d1 == d2 && h1 > h2)
  }

  predicate After(a: Stamp, b: Stamp)
  {
    a.year > b.year || (a.year == b.year && LaterInYear(a.month, a.day, a.hour, b.month, b.day, b.hour))
  }

  /** The year of a historic request: this year, unless (month, day, hour)
      is still to come this year. */
  function HistoricYear(now: Stamp, month: int, day: int, hour: int): int
  {
    if LaterInYear(month, day, hour, now.month, now.day, now.hour) then now.year - 1 else now.year
  }

  /** The historic year is the latest year in which the requested month,
      day and hour are not in the future. */
  lemma HistoricYearLatest(now: Stamp, month: int, day: int, hour: int)
    ensures var y := HistoricYear(now, month, day, hour);
            !After(Stamp(y, month, day, hour), now) && After(Stamp(y + 1, month, day, hour), now)
    ensures HistoricYear(now, month, day, hour) == now.year - 1 <==> LaterInYear(month, day, hour, now.month, now.day, now.hour)
  {
  }

  const SecondsPerDay := 24 * 60 * 60

  /** A provided time in `(now - 24h, now]`. */
  predicate WithinLastDay(provided: int, now: int)
  {
    now - SecondsPerDay < provided <= now
  }

  datatype TimeChoice = SystemTime | Historic(year: int)

  /** The time rule of `DownloadGribFile`: the system clock when asked for,
      and also when the provided time lies in the last 24 hours; otherwise
      the provided month, day and hour in the historic year.  `provided`
      and `nowSeconds` are the clock's readings. */
  function ChooseTime(sysTime: bool, day: int, month: int, hour: int, now: Stamp, provided: int, nowSeconds: int): (c: TimeChoice)
    ensures c == SystemTime <==> sysTime || WithinLastDay(provided, nowSeconds)
    ensures c.Historic? ==> !After(Stamp(c.year, month, day, hour), now)
  {
    if sysTime then SystemTime
    else if provided <= nowSeconds - SecondsPerDay || provided > nowSeconds then
      HistoricYearLatest(now, month, day, hour);
      Historic(HistoricYear(now, month, day, hour))
    else SystemTime
  }

  /** Only a historic request reaches the GitHub archive, and then with the
      fixed forecast hour 6. */
  lemma ArchiveOnlyForHistoric(sysTime: bool, day: int, month: int, hour: int, now: Stamp, provided: int, nowSeconds: int)
    requires !sysTime && !WithinLastDay(provided, nowSeconds)
    ensures ChooseTime(sysTime, day, month, hour, now, provided, nowSeconds).Historic?
  {
  }

  // ---------------------------------------------------------------------
  // Old files

  const GribSuffix := "_noaa.grib2"

  /** A path `RemoveOldGribFiles` deletes: a downloaded GRIB file that is not
      the one to keep. */
  predicate Removable(path: string, keep: string)
  {
    Contains(path, GribSuffix) && !Contains(path, keep)
  }

  /** The entries that match, in directory order. */
  function MatchingPaths(paths: seq<string>, keep: string): (r: seq<string>)
    ensures |r| <= |paths|
  {
    if paths == [] then []
    else (if Removable(paths[0], keep) then [paths[0]] else []) + MatchingPaths(paths[1..], keep)
  }

  lemma {:induction false} MatchingPathsIff(paths: seq<string>, keep: string, p: string)
    ensures p in MatchingPaths(paths, keep) <==> p in paths && Removable(p, keep)
  {
    if paths != [] {
      MatchingPathsIff(paths[1..], keep, p);
      assert paths == [paths[0]] + paths[1..];
    }
  }

  lemma {:induction false} MatchingPathsSnoc(paths: seq<string>, p: string, keep: string)
    ensures MatchingPaths(paths + [p], keep) == MatchingPaths(paths, keep) + (if Removable(p, keep) then [p] else [])
  {
    if paths == [] {
      assert [] + [p] == [p];
    } else {
      assert (paths + [p])[1..] == paths[1..] + [p];
      MatchingPathsSnoc(paths[1..], p, keep);
    }
  }

  /** The directory entries as compared: on Windows every backslash is a
      slash first. */
  function Compared(s: string, windows: bool): string
  {
    if windows then Posix(s) else s
  }

  /** `RemoveOldGribFiles`: the paths removed, in directory order. */
  method RemoveOldGribFiles(entries: seq<string>, fileToKeep: string, windows: bool) returns (removed: seq<string>)
    ensures removed == MatchingPaths(seq(|entries|, i requires 0 <= i < |entries| => Compared(entries[i], windows)), Compared(fileToKeep, windows))
  {
    ghost var paths := seq(|entries|, i requires 0 <= i < |entries| => Compared(entries[i], windows));
    var keep := fileToKeep;
    if windows {
      keep := Posix(keep);
    }
    removed := [];
    var k := 0;
    while k < |entries|
      invariant 0 <= k <= |entries|
      invariant removed == MatchingPaths(paths[..k], keep)
    {
      var path := entries[k];
      if windows {
        path := Posix(path);
      }
      assert paths[..k + 1] == paths[..k] + [path];
      MatchingPathsSnoc(paths[..k], path, keep);
      if Contains(path, GribSuffix) && !Contains(path, keep) {
        removed := removed + [path];
      }
      k := k + 1;
    }
    assert paths[..k] == paths;
  }

  /** The file just downloaded is never among the removed ones, and an
      empty name to keep removes nothing. */
  lemma KeptFileSurvives(paths: seq<string>, keep: string)
    ensures keep !in MatchingPaths(paths, keep)
    ensures MatchingPaths(paths, "") == []
  {
    MatchingPathsIff(paths, keep, keep);
    ContainsSelf(keep);
    if MatchingPaths(paths, "") != [] {
      var p := MatchingPaths(paths, "")[0];
      MatchingPathsIff(paths, "", p);
      ContainsEmpty(p);
    }
  }

  // ---------------------------------------------------------------------
  // Retries

  /** The arguments of a download request. */
  datatype Request = Request(sysTime: bool, day: int, month: int, hour: int)

  const MaxTries := 3

  /** The arguments with day and month exchanged. */
  function Swapped(r: Request): (s: Request)
    ensures s.day == r.month && s.month == r.day && s.sysTime == r.sysTime && s.hour == r.hour
  {
    Request(r.sysTime, r.month, r.day, r.hour)
  }

  /** Attempt `t` with request `r` until one succeeds, at most `MaxTries`
      times; `attempt(t, r)` is the outcome of the `t`-th try. */
  method Retry(r: Request, attempt: (nat, Request) -> bool) returns (ok: bool, tries: nat)
    ensures 1 <= tries <= MaxTries
    ensures ok <==> exists t :: 0 <= t < MaxTries && attempt(t, r)
    ensures ok ==> attempt(tries - 1, r)
    ensures forall t :: 0 <= t < tries - 1 ==> !attempt(t, r)
    ensures !ok ==> tries == MaxTries
  {
    var i := 0;
    while i < MaxTries
      invariant 0 <= i <= MaxTries
      invariant forall t :: 0 <= t < i ==> !attempt(t, r)
    {
      var res := attempt(i, r);
      if res {
        return true, i + 1;
      }
      i := i + 1;
    }
    return false, MaxTries;
  }

  /** `DownloadAndProcess` as written: every try receives the month as the
      day and the day as the month. */
  method DownloadAndProcess(req: Request, attempt: (nat, Request) -> bool) returns (ok: bool, tries: nat)
    ensures 1 <= tries <= MaxTries
    ensures ok <==> exists t :: 0 <= t < MaxTries && attempt(t, Swapped(req))
    ensures ok ==> attempt(tries - 1, Swapped(req))
    ensures forall t :: 0 <= t < tries - 1 ==> !attempt(t, Swapped(req))
  {
    ok, tries := Retry(Swapped(req), attempt);
  }

  /** The retry loop passing the request through unchanged. */
  method DownloadAndProcessCorrected(req: Request, attempt: (nat, Request) -> bool) returns (ok: bool, tries: nat)
    ensures 1 <= tries <= MaxTries
    ensures ok <==> exists t :: 0 <= t < MaxTries && attempt(t, req)
    ensures ok ==> attempt(tries - 1, req)
    ensures forall t :: 0 <= t < tries - 1 ==> !attempt(t, req)
  {
    ok, tries := Retry(req, attempt);
  }

  /** The request for 10 February, 21h (as the test driver issues it)
      reaches the download as day 2 of month 10; only requests whose day
      equals their month are passed on unchanged. */
  lemma SwapChangesRequest(r: Request)
    ensures Swapped(Request(false, 10, 2, 21)) == Request(false, 2, 10, 21)
    ensures Swapped(r) == r <==> r.day == r.month
  {
  }

  // ---------------------------------------------------------------------
  // Download status flag

  /** Whether `CheckAsyncDownload` reports completion. */
  function Reports(active: bool, ready: bool): bool
  {
    active && ready
  }

  /** The flag after `CheckAsyncDownload`. */
  function ActiveAfterCheck(active: bool, ready: bool): bool
  {
    active && !ready
  }

  /** A completion is reported once: the check after a reporting check
      reports nothing, whatever the download's state; a check that does not
      report leaves the flag as it was. */
  lemma ReportsOnce(ready1: bool, ready2: bool, active: bool)
    ensures Reports(true, ready1) ==> !Reports(ActiveAfterCheck(true, ready1), ready2)
    ensures !Reports(active, ready1) ==> ActiveAfterCheck(active, ready1) == active
    ensures Reports(active, ready1) <==> active && !ActiveAfterCheck(active, ready1)
  {
  }

  /** The two globals `download_active` and `download_future`; the future
      is represented by the request it runs, its readiness is an input. */
  class Downloader {
    var active: bool
    var running: Option<Request>

    constructor ()
      ensures !active && running == None
    {
      active := false;
      running := None;
    }

    /** Launches the request, whether or not one is already running. */
    method StartAsyncDownload(sysTime: bool, day: int, month: int, hour: int)
      modifies this
      ensures active && running == Some(Request(sysTime, day, month, hour))
    {
      running := Some(Request(sysTime, day, month, hour));
      active := true;
    }

    /** True exactly on the transition from active to inactive. */
    method CheckAsyncDownload(ready: bool) returns (done: bool)
      modifies this
      ensures done == Reports(old(active), ready)
      ensures active == ActiveAfterCheck(old(active), ready)
      ensures running == old(running)
    {
      if !active {
        return false;
      }
      if !ready {
        return false;
      }
      active := false;
      return true;
    }
  }
}
