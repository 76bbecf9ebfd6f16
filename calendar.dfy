/**
 * Calendar dates and UTC timestamps as the script compares them. A timestamp
 * is a calendar date plus a time of day in microseconds; Python orders aware
 * `datetime` values in UTC, which for valid dates is the lexicographic order
 * on (year, month, day, time of day).
 */
module Calendar {

  type Month = m: int | 1 <= m <= 12 witness 1

  type Day = d: int | 1 <= d <= 31 witness 1

  const MicrosPerDay: int := 86_400_000_000

  /** Microseconds since midnight. */
  type TimeOfDay = t: int | 0 <= t < MicrosPerDay

  datatype Date = Date(year: int, month: Month, day: Day)

  datatype Moment = Moment(date: Date, time: TimeOfDay)

  /** 00:00:00.000000 */
  const Midnight: TimeOfDay := 0

  /** 23:59:59.999999, the time `replace(hour=23, minute=59, second=59, microsecond=999999)` sets. */
  const EndOfDay: TimeOfDay := MicrosPerDay - 1

  predicate DateBefore(a: Date, b: Date) {
    || a.year < b.year
    || (a.year == b.year && a.month < b.month)
    || (a.year == b.year && a.month == b.month && a.day < b.day)
  }

  /** `a < b` on timestamps. */
  predicate Before(a: Moment, b: Moment) {
    DateBefore(a.date, b.date) || (a.date == b.date && a.time < b.time)
  }

  /** `a <= b` on timestamps. */
  predicate NotAfter(a: Moment, b: Moment) {
    !Before(b, a)
  }

  /** The order is total and strict, so `<=` is its reflexive closure. */
  lemma BeforeIsStrictTotal(a: Moment, b: Moment, c: Moment)
    ensures !Before(a, a)
    ensures Before(a, b) && Before(b, c) ==> Before(a, c)
    ensures a == b || Before(a, b) || Before(b, a)
    ensures NotAfter(a, b) <==> a == b || Before(a, b)
    ensures NotAfter(a, b) && NotAfter(b, c) ==> NotAfter(a, c)
    ensures NotAfter(a, b) && Before(b, c) ==> Before(a, c)
  {
  }
}
