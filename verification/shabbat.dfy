/** `getShabbatDetails` of shabbat.js: the sunset-based Shabbat window.

    The program keeps the sunsets of yesterday, today and tomorrow in a
    module-level cache, refreshed when there has been no update yet, when more
    than five minutes have passed, or when the day of the month has changed.
    On a Friday the window opens 18 minutes before today's sunset; on a
    Saturday it closes 40 minutes after today's sunset; on other days there is
    no window.

    The sunsets come from an external solar library; here they are the
    parameter `computed`, the values that library would give for the current
    call, as integer milliseconds.
 */
module Shabbat {
  import opened Dates

  /** Shabbat starts 18 minutes before sunset. */
  const StartOffsetMs: int := 18 * 60000
  /** Shabbat ends 40 minutes after sunset. */
  const EndOffsetMs: int := 40 * 60000
  /** Five minutes, in milliseconds. */
  const SunCacheDurationMs: int := 5 * 60 * 1000

  /** The sunsets of the day before, the day itself and the day after. */
  datatype SunTimes = SunTimes(yesterdaySunset: int, todaySunset: int, tomorrowSunset: int)

  /** `lastSunCalcUpdate`: the time value and the day of the month of the
      last refresh, both null at start-up. */
  datatype LastUpdate = LastUpdate(ms: Option<int>, date: Option<int>)

  /** `sunCalcCache` (empty at start-up) and `lastSunCalcUpdate`. */
  datatype SunState = SunState(cache: Option<SunTimes>, last: LastUpdate)

  const InitialSunState: SunState := SunState(None, LastUpdate(None, None))

  /** A state the program can reach: once an update time other than 0 is
      recorded, the sunsets are in the cache. */
  predicate Consistent(state: SunState)
  {
    state.last.ms.Some? && state.last.ms.value != 0 ==> state.cache.Some?
  }

  /** `!lastSunCalcUpdate.ms`: JavaScript treats both null and 0 as false. */
  predicate NoPriorUpdate(last: LastUpdate)
  {
    last.ms.None? || last.ms.value == 0
  }

  /** `isCacheInvalid`. */
  predicate SunCacheInvalid(last: LastUpdate, nowMs: int, currentDate: int)
  {
    || NoPriorUpdate(last)
    || nowMs - last.ms.value > SunCacheDurationMs
    || last.date != Some(currentDate)
  }

  /** The three reasons spelled out: the cache is invalid exactly when no
      update time other than 0 is recorded, more than 300000 ms have passed
      since it, or the recorded day of the month differs. Equivalently it is
      valid exactly when a non-zero update time is recorded, the current time
      is at most 300000 ms after it, and the day of the month matches. */
  lemma SunCacheInvalidReasons(last: LastUpdate, nowMs: int, currentDate: int)
    ensures SunCacheInvalid(last, nowMs, currentDate) <==>
      || last.ms == None
      || last.ms == Some(0)
      || (last.ms.Some? && nowMs - last.ms.value > 300000)
      || last.date != Some(currentDate)
    ensures !SunCacheInvalid(last, nowMs, currentDate) <==>
      && last.ms.Some?
      && last.ms.value != 0
      && nowMs <= last.ms.value + 300000
      && last.date == Some(currentDate)
  {
  }

  /** The refresh step: on an invalid cache, store the computed sunsets and
      record this call's time and day of the month; otherwise keep both. */
  function RefreshSunCache(state: SunState, now: Moment, computed: SunTimes): (next: SunState)
    requires Consistent(state)
    ensures Consistent(next)
    ensures next.cache.Some?
    ensures SunCacheInvalid(state.last, now.ms, now.day) ==>
      next == SunState(Some(computed), LastUpdate(Some(now.ms), Some(now.day)))
    ensures !SunCacheInvalid(state.last, now.ms, now.day) ==> next == state
  {
    if SunCacheInvalid(state.last, now.ms, now.day) then
      SunState(Some(computed), LastUpdate(Some(now.ms), Some(now.day)))
    else
      state
  }

  /** The fields returned by `getShabbatDetails`; start and end are
      undefined (None) on days other than Friday and Saturday. */
  datatype ShabbatDetails = ShabbatDetails(isShabbat: bool, start: Option<int>, end: Option<int>)

  /** The Friday/Saturday/other-day branching, on given sunsets. */
  function Window(weekday: Weekday, nowMs: int, sun: SunTimes): (d: ShabbatDetails)
    ensures weekday == Friday ==>
      && d.start == Some(sun.todaySunset - 1080000)
      && d.end == Some(sun.tomorrowSunset + 2400000)
      && (d.isShabbat <==> nowMs >= d.start.value)
    ensures weekday == Saturday ==>
      && d.start == Some(sun.yesterdaySunset - 1080000)
      && d.end == Some(sun.todaySunset + 2400000)
      && (d.isShabbat <==> nowMs < d.end.value)
    ensures weekday != Friday && weekday != Saturday ==>
      d == ShabbatDetails(false, None, None)
  {
    if weekday == Friday then
      var start := sun.todaySunset - StartOffsetMs;
      var end := sun.tomorrowSunset + EndOffsetMs;
      ShabbatDetails(nowMs >= start, Some(start), Some(end))
    else if weekday == Saturday then
      var start := sun.yesterdaySunset - StartOffsetMs;
      var end := sun.todaySunset + EndOffsetMs;
      ShabbatDetails(nowMs < end, Some(start), Some(end))
    else
      ShabbatDetails(false, None, None)
  }

  /** `getShabbatDetails(date)`: the details and the module state after the
      call. */
  function GetShabbatDetails(state: SunState, now: Moment, computed: SunTimes): (out: (ShabbatDetails, SunState))
    requires Consistent(state)
    ensures Consistent(out.1)
    ensures out.1 == RefreshSunCache(state, now, computed)
    ensures SunCacheInvalid(state.last, now.ms, now.day) ==> out.0 == Window(now.weekday, now.ms, computed)
    ensures !SunCacheInvalid(state.last, now.ms, now.day) ==>
      out.1 == state && out.0 == Window(now.weekday, now.ms, state.cache.value)
  {
    var next := RefreshSunCache(state, now, computed);
    (Window(now.weekday, now.ms, next.cache.value), next)
  }

  /** The state at start-up is consistent, and its first call always
      refreshes. */
  lemma InitialStateRefreshes(now: Moment, computed: SunTimes)
    ensures Consistent(InitialSunState)
    ensures GetShabbatDetails(InitialSunState, now, computed).1
      == SunState(Some(computed), LastUpdate(Some(now.ms), Some(now.day)))
  {
  }

  /** Exactly five minutes after a refresh, on the same day of the month, the
      cache is still valid: the test is "more than", not "at least". */
  lemma FiveMinutesStillValid(last: LastUpdate, nowMs: int, currentDate: int)
    requires last.ms.Some? && last.ms.value != 0 && last.date == Some(currentDate)
    requires nowMs == last.ms.value + SunCacheDurationMs
    ensures !SunCacheInvalid(last, nowMs, currentDate)
  {
  }

  /** One millisecond later the cache is invalid. */
  lemma JustOverFiveMinutesInvalid(last: LastUpdate, nowMs: int, currentDate: int)
    requires last.ms.Some? && nowMs == last.ms.value + SunCacheDurationMs + 1
    ensures SunCacheInvalid(last, nowMs, currentDate)
  {
  }

  /** A refresh recorded at time value 0 (the epoch) counts as no refresh, so
      the next call refreshes again even within five minutes. */
  lemma EpochUpdateCountsAsNone(state: SunState, now: Moment, computed: SunTimes)
    requires Consistent(state)
    requires state.last.ms == Some(0)
    ensures GetShabbatDetails(state, now, computed).1.cache == Some(computed)
  {
  }

  /** Moving the clock backwards within the same day of the month keeps the
      cache however far back it goes, because only positive elapsed times
      are compared with five minutes. */
  lemma BackwardsClockKeepsCache(state: SunState, now: Moment, computed: SunTimes)
    requires Consistent(state)
    requires state.last.ms.Some? && state.last.ms.value != 0
    requires state.last.date == Some(now.day)
    requires now.ms <= state.last.ms.value
    ensures GetShabbatDetails(state, now, computed).1 == state
  {
  }

  /** On a Friday, once Shabbat has begun it stays begun for the rest of the
      day (the sunsets held fixed). */
  lemma FridayMonotone(sun: SunTimes, t: int, t': int)
    requires t <= t'
    requires Window(Friday, t, sun).isShabbat
    ensures Window(Friday, t', sun).isShabbat
  {
  }

  /** On a Saturday, if it is still Shabbat at some time it was Shabbat at
      every earlier time of the day. */
  lemma SaturdayMonotone(sun: SunTimes, t: int, t': int)
    requires t' <= t
    requires Window(Saturday, t, sun).isShabbat
    ensures Window(Saturday, t', sun).isShabbat
  {
  }

  /** The window as an interval: Shabbat from 18 minutes before Friday's
      sunset until 40 minutes after Saturday's. */
  predicate InShabbatInterval(t: int, fridaySunset: int, saturdaySunset: int)
  {
    fridaySunset - StartOffsetMs <= t < saturdaySunset + EndOffsetMs
  }

  /** On a Friday the one-sided test agrees with the interval whenever the
      current time is before the following evening's end of Shabbat, which
      holds for every moment of a Friday. */
  lemma FridayMatchesInterval(sun: SunTimes, t: int)
    requires t < sun.tomorrowSunset + EndOffsetMs
    ensures Window(Friday, t, sun).isShabbat <==> InShabbatInterval(t, sun.todaySunset, sun.tomorrowSunset)
  {
  }

  /** On a Saturday the one-sided test agrees with the interval whenever the
      current time is after the previous evening's start of Shabbat, which
      holds for every moment of a Saturday. */
  lemma SaturdayMatchesInterval(sun: SunTimes, t: int)
    requires sun.yesterdaySunset - StartOffsetMs <= t
    ensures Window(Saturday, t, sun).isShabbat <==> InShabbatInterval(t, sun.yesterdaySunset, sun.todaySunset)
  {
  }

  /** The window reported on Friday and on Saturday is the same interval
      when both days use the same two sunsets. */
  lemma FridayAndSaturdayAgree(friday: SunTimes, saturday: SunTimes, t1: int, t2: int)
    requires saturday.yesterdaySunset == friday.todaySunset
    requires saturday.todaySunset == friday.tomorrowSunset
    ensures Window(Friday, t1, friday).start == Window(Saturday, t2, saturday).start
    ensures Window(Friday, t1, friday).end == Window(Saturday, t2, saturday).end
  {
  }

  /** Any sequence of calls from start-up keeps the state consistent, so the
      cached sunsets are always present when the window reads them. */
  lemma {:induction false} CallsKeepConsistency(calls: seq<(Moment, SunTimes)>)
    ensures Consistent(Run(InitialSunState, calls))
  {
    RunPreservesConsistency(InitialSunState, calls);
  }

  /** The state after a sequence of calls. */
  function Run(state: SunState, calls: seq<(Moment, SunTimes)>): (final: SunState)
    requires Consistent(state)
    decreases |calls|
  {
    if |calls| == 0 then state
    else Run(GetShabbatDetails(state, calls[0].0, calls[0].1).1, calls[1..])
  }

  lemma {:induction false} RunPreservesConsistency(state: SunState, calls: seq<(Moment, SunTimes)>)
    requires Consistent(state)
    ensures Consistent(Run(state, calls))
    decreases |calls|
  {
    if |calls| > 0 {
      RunPreservesConsistency(GetShabbatDetails(state, calls[0].0, calls[0].1).1, calls[1..]);
    }
  }
}
