/**
 * `get_previous_week_range`: a reporting window of seven whole days,
 * computed from the current day. Days are numbered as `date.toordinal()`
 * numbers them, day 1 being Monday 1 January of year 1, so the weekday of
 * day `d` is `(d - 1) mod 7` with Monday 0 and Sunday 6. The current time
 * is a parameter. Nothing else in the script calls this function.
 */
module WeekRange {
  import opened Calendar

  /** `date.weekday()` of the day numbered `d`. */
  function Weekday(d: int): (w: int)
    ensures 0 <= w < 7
  {
    (d + 6) % 7
  }

  const Monday: int := 0
  const Saturday: int := 5
  const Sunday: int := 6

  datatype Stamp = Stamp(day: int, time: TimeOfDay)

  datatype Window = Window(start: Stamp, end: Stamp)

  /**
   * The function as written: on a Sunday the window is the six days before
   * and the day itself; on any other day it starts `weekday() + 1` days back
   * and runs for seven days.
   */
  function PreviousWeekRangeAsWritten(today: int): Window {
    var wd := Weekday(today);
    var first := if wd == Sunday then today - 6 else today - (wd + 1);
    var last := if wd == Sunday then today else first + 6;
    Window(Stamp(first, Midnight), Stamp(last, EndOfDay))
  }

  /** Shifting a day by a whole number of weeks and some days moves its weekday by those days. */
  lemma WeekdayShift(d: int, k: int)
    ensures Weekday(d - k) == (Weekday(d) - k) % 7
  {
  }

  /** In every case the window spans seven days, from midnight to the last microsecond. */
  lemma AsWrittenSpansSevenDays(today: int)
    ensures var w := PreviousWeekRangeAsWritten(today);
      w.end.day == w.start.day + 6 && w.start.time == Midnight && w.end.time == EndOfDay
  {
  }

  /** On a Sunday the window is the week from Monday to that Sunday. */
  lemma AsWrittenOnSunday(today: int)
    requires Weekday(today) == Sunday
    ensures var w := PreviousWeekRangeAsWritten(today);
      w.end.day == today && Weekday(w.start.day) == Monday
  {
    WeekdayShift(today, 6);
  }

  /**
   * On any other day the window starts on a Sunday, ends on a Saturday, and
   * does not end before today: it is not a past week.
   */
  lemma AsWrittenOnOtherDays(today: int)
    requires Weekday(today) != Sunday
    ensures var w := PreviousWeekRangeAsWritten(today);
      && Weekday(w.start.day) == Sunday && Weekday(w.end.day) == Saturday
      && w.end.day >= today
      && (Weekday(today) < Saturday ==> w.end.day > today)
  {
    var wd := Weekday(today);
    WeekdayShift(today, wd + 1);
    WeekdayShift(today, wd + 1 - 6);
  }

  /** Wednesday 17 July 2024 gives Sunday 14 July to Saturday 20 July, three days ahead. */
  lemma AsWrittenOnAWednesday()
    ensures Weekday(739084) == 2
    ensures PreviousWeekRangeAsWritten(739084) == Window(Stamp(739081, Midnight), Stamp(739087, EndOfDay))
  {
  }

  /**
   * The last Monday-to-Sunday week that has ended by the end of today: the
   * window ends on the latest Sunday not after today.
   */
  function PreviousWeekRange(today: int): Window {
    var last := today - (Weekday(today) + 1) % 7;
    Window(Stamp(last - 6, Midnight), Stamp(last, EndOfDay))
  }

  lemma PreviousWeekRangeSpec(today: int)
    ensures var w := PreviousWeekRange(today);
      && w.end.day == w.start.day + 6 && w.start.time == Midnight && w.end.time == EndOfDay
      && Weekday(w.start.day) == Monday && Weekday(w.end.day) == Sunday
      && w.end.day <= today < w.end.day + 7
  {
    var k := (Weekday(today) + 1) % 7;
    WeekdayShift(today, k);
    WeekdayShift(today, k + 6);
  }

  /** No later Monday-to-Sunday week has ended by today. */
  lemma PreviousWeekRangeIsLatest(today: int, m: int)
    requires Weekday(m) == Monday && m + 6 <= today
    ensures m + 6 <= PreviousWeekRange(today).end.day
  {
    PreviousWeekRangeSpec(today);
    var e := PreviousWeekRange(today).end.day;
    if m + 6 > e {
      WeekdayShift(m + 6, m + 6 - e);
    }
  }

  /** On a Sunday the corrected window is the one the function computes. */
  lemma SameOnSunday(today: int)
    requires Weekday(today) == Sunday
    ensures PreviousWeekRange(today) == PreviousWeekRangeAsWritten(today)
  {
  }
}
