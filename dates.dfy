/**
 * The calendar and the date filter shared by posts and stories. JavaScript `Date`, the local
 * time zone and `toDateString` are abstracted as a calendar over epoch milliseconds; the
 * date inputs of the filter panel are the millisecond values they parse to, `None` for an
 * empty input.
 */
module Dates {
  import opened Wrappers

  /** `year(t)` is `new Date(t).getFullYear()`; `day(t)` identifies `new Date(t).toDateString()`. */
  datatype Calendar = Calendar(year: int -> int, day: int -> int)

  datatype DateMode = AllDates | Specific | Range

  /** `{ type, startDate, endDate, specificDate }`. */
  datatype DateFilter = DateFilter(
    mode: DateMode,
    startDate: Option<int>,
    endDate: Option<int>,
    specificDate: Option<int>)

  /** The filter the hooks start with and reset to. */
  const NoDateFilter := DateFilter(AllDates, None, None, None)

  /** The date step is applied only in specific mode with a date, or range mode with both ends. */
  predicate DateActive(f: DateFilter) {
    (f.mode == Specific && f.specificDate.Some?) ||
    (f.mode == Range && f.startDate.Some? && f.endDate.Some?)
  }

  /**
   * Whether a record with `timestamp` (seconds) passes the date step: the same calendar day in
   * specific mode, inside the closed interval `[start, end]` in range mode.
   */
  predicate DateMatches(cal: Calendar, f: DateFilter, timestamp: int) {
    var t := timestamp * 1000;
    if f.mode == Specific && f.specificDate.Some? then cal.day(t) == cal.day(f.specificDate.value)
    else if f.mode == Range && f.startDate.Some? && f.endDate.Some? then
      f.startDate.value <= t <= f.endDate.value
    else true
  }

  /** Incomplete or `all` settings make the date step the identity. */
  lemma DateInactive(cal: Calendar, f: DateFilter, timestamp: int)
    requires !DateActive(f)
    ensures DateMatches(cal, f, timestamp)
  {
  }

  /** Range mode includes both ends of the interval. */
  lemma RangeInclusive(cal: Calendar, start: int, end: int, timestamp: int)
    requires start <= end && (timestamp * 1000 == start || timestamp * 1000 == end)
    ensures DateMatches(cal, DateFilter(Range, Some(start), Some(end), None), timestamp)
  {
  }
}
