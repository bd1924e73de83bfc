# Front-door clock display: the pure logic, in Dafny

The front-door display is a browser clock. It shows the time, the weather,
and whether it is Shabbat. Around the page code sit four small pieces of logic,
and this project models and proves them:

- **Calendar event engine** (`calendar.js`, module `Calendar`). `parseDate`
  normalises a date-only string by appending `T00:00:01`. The mapping inside
  `fetchCalendarEvents` adds the flags `isHoliday`, `isShabbat`, `isYomTov`
  and `isCandleLighting` to each feed item. A five-minute cache wraps the
  month-window request. The filter in `getCalendarEvents` keeps the events on
  the current calendar day.
- **Sunset-based Shabbat window** (`shabbat.js`, module `Shabbat`).
  `getShabbatDetails` has a sunset cache with three invalidation reasons. Its
  window opens 18 minutes before Friday's sunset and closes 40 minutes after
  Saturday's sunset.
- **Time formatting** (`utils.js`, module `Utils`). `padZero` pads a number
  with a leading zero. `formatTime` renders a time in the 12-hour `h:mm AM`
  form.
- **Weather icon choice** (`weather.js`, module `Weather`). `getWeatherIcon`
  maps a WMO weather interpretation code (WMO code table 4677) to one of five
  icon kinds.

A JavaScript `Date` is an abstract record, `Dates.Moment`. It holds the
millisecond time value and the local-calendar getter readings. An unparseable
date is `Dates.InvalidDate`. All outside inputs are parameters:

- What `new Date(string)` makes of a string is the parameter `parse`.
- The network's answer is the parameter `response`.
- The readings of `Date.now()` are the parameter `wall`.
- The sunsets from the solar library are the parameter `computed`.

Module state is passed in and handed back as an immutable record. This
covers `fetchCalendarEventsCache`, `getCalendarEventsCache`, `sunCalcCache` and
`lastSunCalcUpdate`. The sunset cache starts empty, and `getShabbatDetails`
reads it only after a refresh has filled it. `Shabbat.Consistent` states this
reachable-state invariant, and `Shabbat.GetShabbatDetails` requires it.
`Shabbat.CallsKeepConsistency` proves that every sequence of calls from
start-up keeps it.

Behaviour modelled as the code has it:

- `fetchCalendarEvents` tests its cache against the wall clock, not against
  the offset `now` it is given. It stamps the cache after the response has
  arrived, not when the request is sent.
- A JSON body without `items` still gets its timestamp written before the
  `.map` throws. The old events are then served for five more minutes
  (`Calendar.MissingItemsServesStaleEvents`).
- The cache test in `getCalendarEvents` is commented out. Its cache is
  written on every successful call but never read, so the filter runs on every
  call.
- Classification recognises exactly the categories `holiday`, `shabbat` and
  `candles`. It has no havdalah flag and does not treat `parashat` as an alias
  for `shabbat`. Neither the calendar code nor the sunset code resolves a day
  rollover or ranks Yom Tov, Shabbat and holiday against each other.
- In `shabbat.js`, `!lastSunCalcUpdate.ms` is true both for `null` and for 0.
  So an update recorded at the epoch counts as no update
  (`Shabbat.EpochUpdateCountsAsNone`).
- Only elapsed times greater than five minutes invalidate the sun cache. A
  clock moved backwards within the same day of the month therefore keeps the
  cache (`Shabbat.BackwardsClockKeepsCache`).

Each operation has a partner, and lemmas connect the two:

| operation | partner |
|---|---|
| `FormatTime` | the reader `ParseTime` (round trip) |
| `PadZero`, `IntToString` and `NatToString` | `ParseNat` |
| `WeatherIcon` | a first-match lookup in a range table, proved independent of the order of the ranges |
| `EventsOnDay` | concatenation and idempotence laws |
| `ClassifyAll` | the projection `Raws` back to the feed items |
| `Window` | an interval predicate `InShabbatInterval` |

## Model

| member | source | states |
|---|---|---|
| Utils.NatToString | utils.js:2 | `String(n)` of a non-negative integer is a non-empty string of decimal digits. It is one character long exactly when n < 10 and has no leading zero unless n is 0. |
| Utils.IntToString | utils.js:2 | `String(n)` of an integer is non-empty and starts with '-' exactly when n is negative. A non-negative n prints as decimal digits that read back as n; a negative n prints as '-' followed by decimal digits that read back as -n. Like `String(n)`, it never prints a leading zero. |
| Utils.ParseNatToString | utils.js:2 | Reading the decimal text of n back gives n. |
| Utils.PadZero | utils.js:1-3 | For 0..9 the result is "0" followed by the single digit. For 10 and up it is the plain decimal text. For 0..99 it is exactly two digits. A negative number gets "0-" in front of decimal digits that read back as its magnitude, with no leading zero among them ("0-7" for -7). |
| Utils.PadZeroRoundTrip | utils.js:1-3 | The padded text of any n ≥ 0 is all digits and reads back as n. |
| Utils.DisplayHour | utils.js:10-11 | The displayed hour lies in 1..12 and equals the hour modulo 12 (0→12, 12→12, 13→1). |
| Utils.Meridiem | utils.js:9 | The marker is "AM" exactly when the hour is below 12, and "PM" otherwise. |
| Utils.DisplayDeterminesHour | utils.js:9-11 | The displayed hour and the marker give back the 24-hour hour. |
| Utils.DisplayInjective | utils.js:9-11 | Two hours with the same displayed hour and marker are equal. |
| Utils.FormatTime | utils.js:5-13 | The result is "" exactly for a missing or invalid date. Otherwise it is the hour as digits without a leading zero, ':', two minute digits, a space and the marker; it is 7 characters long exactly when the displayed hour is below 10, and 8 otherwise. |
| Utils.FormatTimeRoundTrip | utils.js:7-12 | Parsing the `h:mm AM/PM` text back yields the date's 24-hour hour and minute. |
| Utils.FormatTimeInjective | utils.js:7-12 | Two times that render to the same text have the same hour and minute. |
| Weather.WeatherIcon | weather.js:12-25 | Sun exactly for code 0. Cloud for 1..3. Rain exactly for 51..67 and 80..82. Snow exactly for 71..77 and 85..86. Thunderstorm exactly for 95..99. Cloud for every other integer (fog 45/48, negatives, gaps), so the function is total. |
| Weather.LookupFindsHoldingRange | weather.js:14-24 | In a table of pairwise disjoint ranges, a code held by any range gets that range's icon, whatever its position. |
| Weather.LookupIgnoresOrder | weather.js:18-23 | Two disjoint tables with the same ranges in a different order give the same icon for every code. |
| Weather.WmoTableDisjoint | weather.js:14-23 | The program's seven code ranges are pairwise disjoint. |
| Weather.WeatherIconIsTableLookup | weather.js:14-24 | The chain of tests equals a first-match lookup in the range table with Cloud as default, for every integer. |
| Weather.ReversedTableDisjoint | weather.js:18-23 | The ranges in reverse test order are pairwise disjoint. |
| Weather.WeatherIconReorderedTests | weather.js:18-23 | Testing thunderstorm, snow and rain in the reverse order gives the same icon for every code. |
| Calendar.NormaliseDateString | calendar.js:14-18 | A string with neither 'T' nor ':' becomes itself followed by "T00:00:01". Any other string is unchanged. The result always has a time and extends the input. |
| Calendar.NormaliseIdempotent | calendar.js:15-18 | Normalising a normalised string changes nothing. |
| Calendar.NormaliseDateOnly | calendar.js:16-18 | A date-only string keeps its text as a prefix, followed by exactly the 9 characters "T00:00:01". |
| Calendar.NormaliseExamples | calendar.js:14-18 | The bare date "2024-06-21" has no time and becomes "2024-06-21T00:00:01"; the timestamp "2024-06-21T20:47:00-04:00" has one and is unchanged. |
| Calendar.ParseDate | calendar.js:14-20 | A string with neither 'T' nor ':' is read by `new Date` as itself followed by "T00:00:01"; any other string is read as it stands. |
| Calendar.ParseDateOfNormalised | calendar.js:14-20 | Parsing an already normalised string gives the same date as parsing the original string. |
| Calendar.Classify | calendar.js:49-57 | The classified event keeps the original item. `isHoliday`, `isShabbat` and `isCandleLighting` hold exactly when the category equals "holiday", "shabbat" and "candles". `isYomTov` holds exactly when `yomtov` is the boolean true. The date is parsed from the normalised string. |
| Calendar.CategoryFlagsExclusive | calendar.js:52-55 | At most one of `isHoliday`, `isShabbat` and `isCandleLighting` is true. |
| Calendar.UnrecognisedCategorySetsNoFlag | calendar.js:52-55 | A missing or unrecognised category (e.g. "havdalah", "parashat") sets none of the three category flags. |
| Calendar.YomTovIgnoresCategory | calendar.js:54 | `isYomTov` depends only on the `yomtov` field, not on the category. |
| Calendar.ClassifyAll | calendar.js:49-58 | Exactly one classified event per feed item, in feed order. |
| Calendar.ClassifyAllKeepsItems | calendar.js:49-51 | Removing the added flags from the classified events gives back the feed items exactly. |
| Calendar.FreshExactlyUnderFiveMinutes | calendar.js:23 | The fetch cache is fresh exactly while the wall clock reads less than 300000 ms past the timestamp (earlier readings included): fresh at 299999 ms, stale at 300000 ms. |
| Calendar.FetchCalendarEvents | calendar.js:22-66 | Fewer than 300000 ms since the timestamp (wall clock): the cached events come back, the cache is unchanged and nothing is requested. Otherwise a request is made. A failed request leaves the cache alone and rejects. A body without items stamps the response time, keeps the old events and rejects. Items give a cache of exactly the classified items, in order, stamped with the response time, and those events are returned. |
| Calendar.RefreshThenHit | calendar.js:23-48 | A call within five minutes of a successful refresh makes no request and returns the refreshed events, whatever the network would answer. |
| Calendar.MissingItemsServesStaleEvents | calendar.js:47-49 | After a body without items, the next call within five minutes makes no request and returns the events from before. |
| Calendar.UnreachableRetries | calendar.js:23-48 | After a failed request, the next call requests again. |
| Calendar.InitialCacheIsStale | calendar.js:5-26 | With the start-up timestamp 0, the first call requests whenever the wall clock reads at least 300000 ms. |
| Calendar.EventsOnDay | calendar.js:81-85 | Every kept event has a valid parsed date with `now`'s year, month and day. Every event of the input on that day is kept. The result is no longer than the input. |
| Calendar.EventsOnDayAppend | calendar.js:81-85 | Filtering a concatenation is concatenating the filtered parts, so kept events keep their feed order. |
| Calendar.EventsOnDaySingle | calendar.js:81-85 | A single event is kept exactly when it is on `now`'s day. |
| Calendar.EventsOnDayKeepsMatching | calendar.js:81-85 | A sequence whose events are all on the day passes through unchanged. |
| Calendar.EventsOnDayIdempotent | calendar.js:81-85 | Filtering the filter's output again with the same `now` gives the same sequence. |
| Calendar.InvalidDateNeverKept | calendar.js:82-84 | An event whose date string did not parse is never kept. |
| Calendar.GetCalendarEvents | calendar.js:71-93 | The fetch cache moves as in `FetchCalendarEvents`. A rejected fetch rejects and leaves the day cache alone. Otherwise the result, and the day cache stamped with the filter-time wall clock, are the fetched window filtered to `now`'s day. Every returned event is on that day. |
| Calendar.GetCalendarEventsRepeatable | calendar.js:71-93 | Two calls with the same `now`, the second within five minutes of a successful first, return the same events. |
| Shabbat.SunCacheInvalidReasons | shabbat.js:11-23 | The sun cache is invalid exactly when the recorded update time is null or 0, the current time is more than 300000 ms after it, or the recorded day of the month differs; it is valid exactly when a non-zero time is recorded, now is at most 300000 ms after it, and the day matches. |
| Shabbat.RefreshSunCache | shabbat.js:20-39 | Invalid cache: the state becomes the computed sunsets with record (nowMs, day of month). Valid cache: the state is unchanged. Either way the sunsets are present afterwards. |
| Shabbat.Window | shabbat.js:41-66 | Friday: start = today's sunset − 1080000, end = tomorrow's sunset + 2400000, and `isShabbat` ⇔ now ≥ start. Saturday: start = yesterday's sunset − 1080000, end = today's sunset + 2400000, and `isShabbat` ⇔ now < end. Any other day: not Shabbat, and start and end are absent. |
| Shabbat.GetShabbatDetails | shabbat.js:16-67 | The state after the call is the refreshed one. On an invalid cache the window uses the computed sunsets. On a valid cache the state is unchanged and the window uses the cached sunsets. |
| Shabbat.InitialStateRefreshes | shabbat.js:9-25 | The start-up state is consistent, and its first call stores the computed sunsets with record (nowMs, day). |
| Shabbat.FiveMinutesStillValid | shabbat.js:11-23 | Exactly 300000 ms after a refresh, on the same day of the month, the cache is still valid. |
| Shabbat.JustOverFiveMinutesInvalid | shabbat.js:11-23 | 300001 ms after a refresh, the cache is invalid. |
| Shabbat.EpochUpdateCountsAsNone | shabbat.js:20-21 | An update recorded at time value 0 is treated as no update, and the next call refreshes. |
| Shabbat.BackwardsClockKeepsCache | shabbat.js:20-23 | On the same day of the month, a time at or before the last update keeps the cache. |
| Shabbat.FridayMonotone | shabbat.js:46-54 | With fixed sunsets, if it is Shabbat at t on a Friday then it is Shabbat at every later t′. |
| Shabbat.SaturdayMonotone | shabbat.js:55-63 | With fixed sunsets, if it is Shabbat at t on a Saturday then it is Shabbat at every earlier t′. |
| Shabbat.FridayMatchesInterval | shabbat.js:46-54 | On a Friday before Saturday's end time, the one-sided test equals membership in [Friday sunset − 18 min, Saturday sunset + 40 min). |
| Shabbat.SaturdayMatchesInterval | shabbat.js:55-63 | On a Saturday after Friday's start time, the one-sided test equals membership in the same interval. |
| Shabbat.FridayAndSaturdayAgree | shabbat.js:46-63 | With the same two sunsets, Friday and Saturday report the same start and end. |
| Shabbat.RunPreservesConsistency | shabbat.js:20-39 | Any sequence of calls keeps the state consistent: once an update is recorded, the sunsets are cached. |
| Shabbat.CallsKeepConsistency | shabbat.js:9-39 | From start-up, every sequence of calls reaches a consistent state, so the window never reads a missing cache. |

## Left out

- Network and serialisation:
  - the calendar request and its URL and query parameters (calendar.js:28-46), including the month window computed from `now`;
  - the weather request (weather.js:30-56);
  - JSON decoding;
  - `console.log`.

  The answer to a request is an input.
- JavaScript `Date` semantics: string parsing, the local timezone, the getters, `setMonth` and `setDate` overflow, and `toISOString`. A date is an abstract record, and `new Date(string)` is the function parameter `parse`.
- `SunCalc.getTimes` (shabbat.js:34-36), an external library doing floating-point solar geometry. The three sunsets it would compute are the integer-millisecond input `computed`. NaN sunsets (possible only at polar latitudes) are not modelled.
- Weather.WeatherIcon: codes are modelled as integers, and other values are not represented. The first test is the strict `code === 0`, which only the number 0 passes; the range tests convert their operand to a number. So a non-integer inside a range takes that range's icon (60.5 gives Rain, 75.5 Snow, 97.5 Thunderstorm), a numeric string inside a range does too ("61" gives Rain), the string "0" gives Cloud rather than Sun, and a missing, null or NaN code gives Cloud.
- Calendar.RawEvent: the program reads only `category`, `yomtov` and `date`. The record also keeps `title`, which the program never reads; it stands for all the fields the `...event` spread copies unread. The classified event keeps the whole item. An item with no `date` string, where `parseDate` would throw, is not modelled.
- Concurrency: two overlapping asynchronous calls, with both requests in flight before either stamps the cache, are not modelled. Each call is one atomic step.
- Utils.PadZero: numbers are modelled as integers of magnitude below 10^21. From 10^21 on, `String(n)` prints exponent form (`padZero(1e21)` is "1e+21"), which the model does not represent; the program only passes minutes and seconds (0..59).
- Utils.NatToString: decimal text without exponent form, so it matches `String(n)` only for n below 10^21.
- The temperature rounding and the SVG/HTML markup of weather.js:37-54. The icon is an enumeration.
- ui.js: DOM class toggling, the offset buttons and `Intl.DateTimeFormat`. Its 12-hour conversion (ui.js:54-59) is the same arithmetic as `formatTime`, covered by `Utils.DisplayHour` and `Utils.Meridiem`.
- app.js: the one-second `setInterval` driver, the fire-and-forget weather fetch with its 15-minute gate, and the global time offset.
