/** The calendar event engine of calendar.js.

    - `NormaliseDateString` is the string step of `parseDate`: a date without
      a time gets `T00:00:01` appended before it is handed to `new Date`.
      `new Date(string)` itself (format parsing, the local timezone) is the
      parameter `parse`.
    - `Classify` is the mapping inside `fetchCalendarEvents` that copies each
      feed item and adds the flags `isHoliday`, `isShabbat`, `isYomTov`,
      `isCandleLighting` and the parsed date.
    - `FetchCalendarEvents` is the five-minute cache around the month-window
      request. The network answer is the parameter `response` and the three
      readings of the wall clock (`Date.now()`) are the parameter `wall`.
    - `EventsOnDay` is the filter of `getCalendarEvents`, and
      `GetCalendarEvents` composes the two. The second cache of that function
      is written on every successful call but never read, because its check is
      commented out; the model keeps the writes.
 */
module Calendar {
  import opened Dates

  // ---------------------------------------------------------------- parseDate

  /** The time appended to a date that has none: one second past midnight. */
  const DefaultTime: string := "T00:00:01"

  /** A date string "has a time" when it contains a `T` or a `:`. */
  predicate HasTime(s: string)
  {
    'T' in s || ':' in s
  }

  /** The string `parseDate` passes to `new Date`. */
  function NormaliseDateString(s: string): (r: string)
    ensures !HasTime(s) ==> r == s + DefaultTime
    ensures HasTime(s) ==> r == s
    ensures HasTime(r)
    ensures s <= r
  {
    if HasTime(s) then s else s + DefaultTime
  }

  /** Normalising twice is normalising once: the result always has a time. */
  lemma NormaliseIdempotent(s: string)
    ensures NormaliseDateString(NormaliseDateString(s)) == NormaliseDateString(s)
  {
  }

  /** A date-only string ends, after normalisation, with exactly the
      one-second-past-midnight time and nothing else was changed. */
  lemma NormaliseDateOnly(s: string)
    requires !HasTime(s)
    ensures var r := NormaliseDateString(s);
      |r| == |s| + 9 && r[..|s|] == s && r[|s|..] == "T00:00:01"
  {
    var r := NormaliseDateString(s);
    assert r[..|s|] == s;
    assert r[|s|..] == DefaultTime;
  }

  /** The two shapes of date string the feed sends: a bare date, and a full
      timestamp with a time and an offset. */
  lemma NormaliseExamples()
    ensures !HasTime("2024-06-21")
    ensures NormaliseDateString("2024-06-21") == "2024-06-21T00:00:01"
    ensures HasTime("2024-06-21T20:47:00-04:00")
    ensures NormaliseDateString("2024-06-21T20:47:00-04:00") == "2024-06-21T20:47:00-04:00"
  {
    assert "2024-06-21T20:47:00-04:00"[10] == 'T';
  }

  /** `parseDate(dateString)`, given the behaviour of `new Date(string)`: a
      date-only string is read as one second past midnight of that date, any
      other string is read as it stands. */
  function ParseDate(s: string, parse: string -> DateValue): (d: DateValue)
    ensures !HasTime(s) ==> d == parse(s + "T00:00:01")
    ensures HasTime(s) ==> d == parse(s)
  {
    parse(NormaliseDateString(s))
  }

  /** Handing `parseDate` an already normalised string reads the same date as
      handing it the original one. */
  lemma ParseDateOfNormalised(s: string, parse: string -> DateValue)
    ensures ParseDate(NormaliseDateString(s), parse) == ParseDate(s, parse)
  {
    NormaliseIdempotent(s);
  }

  // ---------------------------------------------------- feed items and flags

  /** The value of an item's `yomtov` field as it arrives in the JSON. */
  datatype JsonScalar = JsonBool(b: bool) | JsonNumber(n: int) | JsonString(s: string)

  /** One item of the calendar feed's `items` array. The program reads
      `category`, `yomtov` and `date`; `title` is never read and stands for
      the fields the spread copies unread. A missing field is None. */
  datatype RawEvent = RawEvent(
    title: string,
    category: Option<string>,
    yomtov: Option<JsonScalar>,
    date: string)

  /** An item after `fetchCalendarEvents` has spread it and added its flags
      and parsed date. */
  datatype CalendarEvent = CalendarEvent(
    raw: RawEvent,
    isHoliday: bool,
    isShabbat: bool,
    isYomTov: bool,
    isCandleLighting: bool,
    parsedDate: DateValue)

  /** Strict equality of an optional category with a string literal. */
  predicate CategoryIs(category: Option<string>, tag: string)
  {
    category == Some(tag)
  }

  /** The mapping applied to each feed item. */
  function Classify(raw: RawEvent, parse: string -> DateValue): (e: CalendarEvent)
    ensures e.raw == raw
    ensures e.isHoliday <==> raw.category == Some("holiday")
    ensures e.isShabbat <==> raw.category == Some("shabbat")
    ensures e.isCandleLighting <==> raw.category == Some("candles")
    ensures e.isYomTov <==> raw.yomtov == Some(JsonBool(true))
    ensures e.parsedDate == ParseDate(raw.date, parse)
  {
    CalendarEvent(
      raw,
      isHoliday := CategoryIs(raw.category, "holiday"),
      isShabbat := CategoryIs(raw.category, "shabbat"),
      isYomTov := raw.yomtov == Some(JsonBool(true)),
      isCandleLighting := CategoryIs(raw.category, "candles"),
      parsedDate := ParseDate(raw.date, parse))
  }

  /** The three category flags exclude one another. */
  lemma CategoryFlagsExclusive(raw: RawEvent, parse: string -> DateValue)
    ensures var e := Classify(raw, parse);
      && !(e.isHoliday && e.isShabbat)
      && !(e.isHoliday && e.isCandleLighting)
      && !(e.isShabbat && e.isCandleLighting)
  {
  }

  /** Any category other than the three recognised tags (including a
      missing one, and the tags "havdalah" and "parashat") sets no category
      flag. */
  lemma UnrecognisedCategorySetsNoFlag(raw: RawEvent, parse: string -> DateValue)
    requires raw.category != Some("holiday") && raw.category != Some("shabbat")
    requires raw.category != Some("candles")
    ensures var e := Classify(raw, parse);
      !e.isHoliday && !e.isShabbat && !e.isCandleLighting
  {
  }

  /** `isYomTov` depends on the `yomtov` field alone: two items that differ
      only in category, title or date get the same flag. */
  lemma YomTovIgnoresCategory(a: RawEvent, b: RawEvent, parse: string -> DateValue)
    requires a.yomtov == b.yomtov
    ensures Classify(a, parse).isYomTov == Classify(b, parse).isYomTov
  {
  }

  /** `response.items.map(...)`: one classified event per item, in feed order. */
  function ClassifyAll(items: seq<RawEvent>, parse: string -> DateValue): (events: seq<CalendarEvent>)
    ensures |events| == |items|
    ensures forall i :: 0 <= i < |items| ==> events[i] == Classify(items[i], parse)
  {
    seq(|items|, i requires 0 <= i < |items| => Classify(items[i], parse))
  }

  /** The original fields of each item, in order. */
  function Raws(events: seq<CalendarEvent>): (items: seq<RawEvent>)
    ensures |items| == |events|
    ensures forall i :: 0 <= i < |events| ==> items[i] == events[i].raw
  {
    seq(|events|, i requires 0 <= i < |events| => events[i].raw)
  }

  /** Classification keeps every original field: dropping the added flags
      gives back the feed's items exactly. */
  lemma ClassifyAllKeepsItems(items: seq<RawEvent>, parse: string -> DateValue)
    ensures Raws(ClassifyAll(items, parse)) == items
  {
  }

  // -------------------------------------------------------- the fetch cache

  /** Five minutes, in milliseconds. */
  const CacheDurationMs: int := 5 * 60 * 1000

  /** `fetchCalendarEventsCache`. */
  datatype FetchCache = FetchCache(timestamp: int, events: seq<CalendarEvent>)

  /** The cache as the program starts: timestamp 0, no events. */
  const InitialFetchCache: FetchCache := FetchCache(0, [])

  /** The cache test: strictly less than five minutes since the timestamp. */
  predicate IsFresh(cache: FetchCache, wallNow: int)
  {
    wallNow - cache.timestamp < CacheDurationMs
  }

  /** The cache is fresh from its timestamp (and at any earlier reading of the
      clock) up to, but not including, 300000 ms after it. */
  lemma FreshExactlyUnderFiveMinutes(cache: FetchCache, elapsed: int)
    ensures IsFresh(cache, cache.timestamp + elapsed) <==> elapsed < 300000
    ensures IsFresh(cache, cache.timestamp + 299999)
    ensures !IsFresh(cache, cache.timestamp + 300000)
  {
  }

  /** What the request to the calendar service produced.
      - Unreachable: `fetch` or `response.json()` rejected; the timestamp
        line is never reached.
      - MissingItems: a JSON body without an `items` array; the timestamp is
        written, then `response.items.map` throws.
      - Items: the `items` array. */
  datatype FeedResponse = Unreachable | MissingItems | Items(items: seq<RawEvent>)

  /** The separate readings of `Date.now()` during one call: in the cache
      test, in the timestamp write after the response has arrived, and in the
      stamp of the day cache before the filter. The offset `now` the caller
      passes plays no part in them. */
  datatype WallClock = WallClock(atCheck: int, atResponse: int, atFilter: int)

  /** How a promise returned by the program settles. */
  datatype Settled<T> = Resolved(value: T) | Rejected

  /** The cache after a call, what the call settled with, and whether the
      network was asked. */
  datatype FetchStep = FetchStep(cache: FetchCache, result: Settled<seq<CalendarEvent>>, requested: bool)

  /** `fetchCalendarEvents(now)`. The month window sent with the request
      depends on `now` but the cache does not, so `now` is not a parameter. */
  function FetchCalendarEvents(
    cache: FetchCache, wall: WallClock, response: FeedResponse, parse: string -> DateValue): (step: FetchStep)
    ensures IsFresh(cache, wall.atCheck) ==>
      step == FetchStep(cache, Resolved(cache.events), false)
    ensures !IsFresh(cache, wall.atCheck) ==> step.requested
    ensures !IsFresh(cache, wall.atCheck) && response.Unreachable? ==>
      step.cache == cache && step.result.Rejected?
    ensures !IsFresh(cache, wall.atCheck) && response.MissingItems? ==>
      step.cache == FetchCache(wall.atResponse, cache.events) && step.result.Rejected?
    ensures !IsFresh(cache, wall.atCheck) && response.Items? ==>
      && step.cache.timestamp == wall.atResponse
      && |step.cache.events| == |response.items|
      && (forall i :: 0 <= i < |response.items| ==>
            step.cache.events[i] == Classify(response.items[i], parse))
      && step.result == Resolved(step.cache.events)
    ensures step.result.Resolved? ==> step.result.value == step.cache.events
  {
    if IsFresh(cache, wall.atCheck) then
      FetchStep(cache, Resolved(cache.events), false)
    else
      match response
      case Unreachable => FetchStep(cache, Rejected, true)
      case MissingItems => FetchStep(cache.(timestamp := wall.atResponse), Rejected, true)
      case Items(items) =>
        var events := ClassifyAll(items, parse);
        FetchStep(FetchCache(wall.atResponse, events), Resolved(events), true)
  }

  /** A second call within five minutes of a successful refresh asks nothing
      of the network and gets the refreshed events back unchanged, whatever
      the network would have said. */
  lemma RefreshThenHit(
    cache: FetchCache, wall1: WallClock, items: seq<RawEvent>, wall2: WallClock,
    response2: FeedResponse, parse: string -> DateValue)
    requires !IsFresh(cache, wall1.atCheck)
    requires wall2.atCheck - wall1.atResponse < CacheDurationMs
    ensures var step1 := FetchCalendarEvents(cache, wall1, Items(items), parse);
      var step2 := FetchCalendarEvents(step1.cache, wall2, response2, parse);
      && !step2.requested
      && step2.cache == step1.cache
      && step2.result == Resolved(ClassifyAll(items, parse))
  {
  }

  /** A body without `items` still stamps the cache, so for the next five
      minutes the old events are served without asking the network again. */
  lemma MissingItemsServesStaleEvents(
    cache: FetchCache, wall1: WallClock, wall2: WallClock,
    response2: FeedResponse, parse: string -> DateValue)
    requires !IsFresh(cache, wall1.atCheck)
    requires wall2.atCheck - wall1.atResponse < CacheDurationMs
    ensures var step1 := FetchCalendarEvents(cache, wall1, MissingItems, parse);
      var step2 := FetchCalendarEvents(step1.cache, wall2, response2, parse);
      && step1.result.Rejected?
      && !step2.requested
      && step2.result == Resolved(cache.events)
  {
  }

  /** A failed request leaves the cache as it was, so the next call (still
      stale) asks the network again. */
  lemma UnreachableRetries(
    cache: FetchCache, wall1: WallClock, wall2: WallClock,
    response2: FeedResponse, parse: string -> DateValue)
    requires !IsFresh(cache, wall1.atCheck)
    requires wall1.atCheck <= wall2.atCheck
    ensures var step1 := FetchCalendarEvents(cache, wall1, Unreachable, parse);
      FetchCalendarEvents(step1.cache, wall2, response2, parse).requested
  {
  }

  /** The first call after start-up goes to the network whenever the wall
      clock reads five minutes or more past the epoch. */
  lemma InitialCacheIsStale(wall: WallClock, response: FeedResponse, parse: string -> DateValue)
    requires wall.atCheck >= CacheDurationMs
    ensures FetchCalendarEvents(InitialFetchCache, wall, response, parse).requested
  {
  }

  // ----------------------------------------------------------- the day filter

  /** The filter's test: the event's parsed date has `now`'s year, month and
      day of the month. */
  predicate OnDay(e: CalendarEvent, now: Moment)
  {
    OnSameDay(e.parsedDate, now)
  }

  /** `allEvents.filter(...)` in `getCalendarEvents`. */
  function EventsOnDay(events: seq<CalendarEvent>, now: Moment): (r: seq<CalendarEvent>)
    ensures |r| <= |events|
    ensures forall e :: e in r ==> e in events && OnDay(e, now)
    ensures forall e :: e in events && OnDay(e, now) ==> e in r
    decreases |events|
  {
    if |events| == 0 then []
    else if OnDay(events[0], now) then [events[0]] + EventsOnDay(events[1..], now)
    else EventsOnDay(events[1..], now)
  }

  /** The filter works piece by piece: filtering a concatenation is
      concatenating the filtered pieces, so kept events stay in feed order. */
  lemma {:induction false} EventsOnDayAppend(a: seq<CalendarEvent>, b: seq<CalendarEvent>, now: Moment)
    ensures EventsOnDay(a + b, now) == EventsOnDay(a, now) + EventsOnDay(b, now)
    decreases |a|
  {
    if |a| == 0 {
      assert a + b == b;
    } else {
      assert (a + b)[1..] == a[1..] + b;
      EventsOnDayAppend(a[1..], b, now);
    }
  }

  /** A single event is kept exactly when it is on the day. */
  lemma EventsOnDaySingle(e: CalendarEvent, now: Moment)
    ensures EventsOnDay([e], now) == if OnDay(e, now) then [e] else []
  {
    assert [e][1..] == [];
  }

  /** A sequence whose events are all on the day passes through unchanged. */
  lemma {:induction false} EventsOnDayKeepsMatching(events: seq<CalendarEvent>, now: Moment)
    requires forall i :: 0 <= i < |events| ==> OnDay(events[i], now)
    ensures EventsOnDay(events, now) == events
    decreases |events|
  {
    if |events| > 0 {
      EventsOnDayKeepsMatching(events[1..], now);
    }
  }

  /** Filtering the filtered events again with the same `now` changes
      nothing. */
  lemma EventsOnDayIdempotent(events: seq<CalendarEvent>, now: Moment)
    ensures EventsOnDay(EventsOnDay(events, now), now) == EventsOnDay(events, now)
  {
    var r := EventsOnDay(events, now);
    assert forall i :: 0 <= i < |r| ==> OnDay(r[i], now) by {
      forall i | 0 <= i < |r|
        ensures OnDay(r[i], now)
      {
        assert r[i] in r;
      }
    }
    EventsOnDayKeepsMatching(r, now);
  }

  /** An event whose date could not be parsed is on no day. */
  lemma InvalidDateNeverKept(events: seq<CalendarEvent>, now: Moment, e: CalendarEvent)
    requires e.parsedDate.InvalidDate?
    ensures e !in EventsOnDay(events, now)
  {
  }

  // ------------------------------------------------------ getCalendarEvents

  /** `getCalendarEventsCache`: written by every successful call, never read. */
  datatype DayCache = DayCache(timestamp: int, events: seq<CalendarEvent>)

  /** The engine's two module-level caches. */
  datatype CalendarState = CalendarState(fetchCache: FetchCache, dayCache: DayCache)

  const InitialCalendarState: CalendarState := CalendarState(InitialFetchCache, DayCache(0, []))

  /** `getCalendarEvents(now)`: fetch (or take from the cache) the month
      window, then keep the events on `now`'s day. A rejected fetch rejects
      the call and leaves the day cache untouched. */
  function GetCalendarEvents(
    state: CalendarState, now: Moment, wall: WallClock, response: FeedResponse,
    parse: string -> DateValue): (out: (CalendarState, Settled<seq<CalendarEvent>>))
    ensures var step := FetchCalendarEvents(state.fetchCache, wall, response, parse);
      && out.0.fetchCache == step.cache
      && (step.result.Rejected? ==> out.1.Rejected? && out.0.dayCache == state.dayCache)
      && (step.result.Resolved? ==>
            && out.1 == Resolved(EventsOnDay(step.result.value, now))
            && out.0.dayCache == DayCache(wall.atFilter, EventsOnDay(step.result.value, now)))
    ensures out.1.Resolved? ==> forall e :: e in out.1.value ==> OnDay(e, now)
  {
    var step := FetchCalendarEvents(state.fetchCache, wall, response, parse);
    match step.result
    case Rejected => (state.(fetchCache := step.cache), Rejected)
    case Resolved(all) =>
      var today := EventsOnDay(all, now);
      (CalendarState(step.cache, DayCache(wall.atFilter, today)), Resolved(today))
  }

  /** Two calls with the same `now`, the second within five minutes of a
      successful first one, give the same events. The day cache plays no
      part: the filter simply runs again on the cached window. */
  lemma GetCalendarEventsRepeatable(
    state: CalendarState, now: Moment, wall1: WallClock, items: seq<RawEvent>,
    wall2: WallClock, response2: FeedResponse, parse: string -> DateValue)
    requires !IsFresh(state.fetchCache, wall1.atCheck)
    requires wall2.atCheck - wall1.atResponse < CacheDurationMs
    ensures var first := GetCalendarEvents(state, now, wall1, Items(items), parse);
      var second := GetCalendarEvents(first.0, now, wall2, response2, parse);
      && first.1.Resolved?
      && second.1 == first.1
  {
  }
}
