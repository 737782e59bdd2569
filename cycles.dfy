/** The forecast-cycle arithmetic shared by the GRIB downloaders: the
    publication delay, the latest of the four daily model runs, and the
    forecast hour that reaches the requested time.  Calendar normalisation
    is reduced to the time of day: the adjusted time is earlier by less
    than a day, so the day changes exactly when the subtraction wraps past
    midnight. */
module Cycles {
  import opened Numeric

  /** The hours of the four daily model runs. */
  const CycleHours: seq<int> := [0, 6, 12, 18]

  /** Minutes a run takes before its files are published (4 h 25 min). */
  const PublishDelay := 4 * 60 + 25

  const MinutesPerDay := 24 * 60

  ghost predicate IsLatestCycle(hour: int, c: int)
  {
    c in CycleHours && c <= hour && forall c' :: c' in CycleHours && c' <= hour ==> c' <= c
  }

  /** The latest run at or before an hour of the day. */
  function CycleFor(hour: int): (c: int)
    requires 0 <= hour < 24
    ensures IsLatestCycle(hour, c)
    ensures hour - 6 < c
  {
    hour / 6 * 6
  }

  /** The scan over the run hours that keeps the last one not after `hour`;
      0 when none is. */
  method LatestCycle(hour: int) returns (cycle: int)
    ensures hour >= 0 ==> IsLatestCycle(hour, cycle)
    ensures hour < 0 ==> cycle == 0
    ensures 0 <= hour < 24 ==> cycle == CycleFor(hour)
  {
    cycle := 0;
    var k := 0;
    while k < |CycleHours|
      invariant 0 <= k <= |CycleHours|
      invariant cycle == 0 || (cycle in CycleHours[..k] && cycle <= hour)
      invariant forall t :: 0 <= t < k && CycleHours[t] <= hour ==> CycleHours[t] <= cycle
    {
      if hour >= CycleHours[k] {
        cycle := CycleHours[k];
      }
      k := k + 1;
    }
    if hour >= 0 {
      assert CycleHours[0] <= hour;
    }
  }

  /** The time of day `PublishDelay` earlier: its hour, and whether it lies
      on the previous day. */
  function Adjusted(hour: int, minute: int): (r: (int, bool))
    requires 0 <= hour < 24 && 0 <= minute < 60
    ensures 0 <= r.0 < 24
    ensures r.1 <==> hour * 60 + minute < PublishDelay
    ensures !r.1 ==> r.0 * 60 <= hour * 60 + minute - PublishDelay < r.0 * 60 + 60
    ensures r.1 ==> r.0 * 60 <= hour * 60 + minute - PublishDelay + MinutesPerDay < r.0 * 60 + 60
  {
    var m := hour * 60 + minute - PublishDelay;
    if m < 0 then ((m + MinutesPerDay) / 60, true) else (m / 60, false)
  }

  /** `(adjs + hour - cycle) / 3 * 3`, where `adjs` is 24 when the cycle
      lies on the previous day. */
  function Forecast(hour: int, cycle: int, dayChanged: bool): int
  {
    CDiv((if dayChanged then 24 else 0) + hour - cycle, 3) * 3
  }

  /** The cycle and forecast hour picked for a request at `hour:minute`. */
  function CycleAndForecast(hour: int, minute: int): (int, int)
    requires 0 <= hour < 24 && 0 <= minute < 60
  {
    var (cHour, dayChanged) := Adjusted(hour, minute);
    var cycle := CycleFor(cHour);
    (cycle, Forecast(hour, cycle, dayChanged))
  }

  /** The forecast hour is 3, 6 or 9, and the run plus the forecast lands on
      the last three-hour step at or before the requested hour. */
  lemma {:induction false} ForecastReachesRequest(hour: int, minute: int)
    requires 0 <= hour < 24 && 0 <= minute < 60
    ensures var (cycle, forecast) := CycleAndForecast(hour, minute);
            var adjs := if Adjusted(hour, minute).1 then 24 else 0;
            forecast in {3, 6, 9} &&
            0 <= adjs + hour - (cycle + forecast) < 3
  {
    var (cHour, dayChanged) := Adjusted(hour, minute);
    var cycle := CycleFor(cHour);
    var adjs := if dayChanged then 24 else 0;
    var span := adjs + hour - cycle;
    assert 4 <= span <= 10;
    assert CDiv(span, 3) == span / 3;
  }
}
