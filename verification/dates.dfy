/** Shared vocabulary for the clock display: an optional value and an abstract
    stand-in for a JavaScript `Date`.

    A `Date` in the program is read only through its millisecond time value and
    its local-calendar getters (`getFullYear`, `getMonth`, `getDate`, `getDay`,
    `getHours`, `getMinutes`). The model keeps exactly those readings as fields;
    how the browser derives them from the time value and the local timezone is
    not modelled. The subset types record the ranges the getters are documented
    to return for a valid date.
 */
module Dates {

  datatype Option<+T> = None | Some(value: T)

  /** `getMonth()`: 0 is January, 11 is December. */
  type Month = m: int | 0 <= m < 12
  /** `getDate()`: day of the month. */
  type DayOfMonth = d: int | 1 <= d <= 31 witness 1
  /** `getDay()`: 0 is Sunday, 5 is Friday, 6 is Saturday. */
  type Weekday = d: int | 0 <= d < 7
  /** `getHours()` on the 24-hour clock. */
  type Hour = h: int | 0 <= h < 24
  /** `getMinutes()`. */
  type Minute = m: int | 0 <= m < 60

  const Friday: Weekday := 5
  const Saturday: Weekday := 6

  /** The readings of a valid `Date`. */
  datatype Moment = Moment(
    ms: int,
    year: int,
    month: Month,
    day: DayOfMonth,
    weekday: Weekday,
    hours: Hour,
    minutes: Minute)

  /** The result of `new Date(...)`: either a valid date or the "Invalid Date"
      whose getters all return NaN (so no comparison with it is ever true). */
  datatype DateValue = InvalidDate | ValidDate(moment: Moment)

  /** True when both dates fall on the same local calendar day, compared the
      way the program compares them: year, month and day-of-month. An invalid
      date is never on any day, because NaN equals nothing. */
  predicate OnSameDay(d: DateValue, now: Moment)
  {
    && d.ValidDate?
    && d.moment.year == now.year
    && d.moment.month == now.month
    && d.moment.day == now.day
  }
}
