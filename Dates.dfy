/** The calendar values of the date-time library the app uses: local dates as
    (year, month, day), times as whole seconds of the day, and date-times as
    a date with a time. */
module Dates {

  type Month = m: int | 1 <= m <= 12 witness 1
  type DayOfMonth = d: int | 1 <= d <= 31 witness 1
  type SecondOfDay = t: int | 0 <= t < 86400

  datatype Date = Date(year: int, month: Month, day: DayOfMonth)

  /** `LocalDateTime`, at a precision of one second. */
  datatype DateTime = DateTime(date: Date, time: SecondOfDay)

  /** The sentinel that marks a missing date-time in the session feed:
      the last second of year -100001. */
  const DistantPast: DateTime := DateTime(Date(-100001, 12, 31), 86399)

  predicate DateLess(a: Date, b: Date) {
    || a.year < b.year
    || (a.year == b.year && a.month < b.month)
    || (a.year == b.year && a.month == b.month && a.day < b.day)
  }

  predicate DateLessEq(a: Date, b: Date) {
    a == b || DateLess(a, b)
  }

  predicate DateTimeLessEq(a: DateTime, b: DateTime) {
    DateLess(a.date, b.date) || (a.date == b.date && a.time <= b.time)
  }

  /** An order-preserving number for a date: dates compare as their keys. */
  function DateKey(d: Date): int {
    (d.year * 12 + (d.month - 1)) * 31 + (d.day - 1)
  }

  lemma DateKeyOrder(a: Date, b: Date)
    ensures DateLess(a, b) <==> DateKey(a) < DateKey(b)
    ensures a == b <==> DateKey(a) == DateKey(b)
  {
  }

  /** An order-preserving number for a date-time. */
  function DateTimeKey(t: DateTime): int {
    DateKey(t.date) * 86400 + t.time
  }

  /** A date-time orders by its key as the library compares date-times. */
  lemma DateTimeKeyOrder(a: DateTime, b: DateTime)
    ensures DateTimeLessEq(a, b) <==> DateTimeKey(a) <= DateTimeKey(b)
  {
    DateKeyOrder(a.date, b.date);
    if DateKey(a.date) < DateKey(b.date) {
      assert DateKey(a.date) * 86400 + 86400 <= DateKey(b.date) * 86400;
    } else if DateKey(b.date) < DateKey(a.date) {
      assert DateKey(b.date) * 86400 + 86400 <= DateKey(a.date) * 86400;
    }
  }

  datatype DayOfWeek = Monday | Tuesday | Wednesday | Thursday | Friday | Saturday | Sunday

  /** `DayOfWeek.name`: the enum constant's name. */
  function DayOfWeekName(d: DayOfWeek): string {
    match d
    case Monday => "MONDAY"
    case Tuesday => "TUESDAY"
    case Wednesday => "WEDNESDAY"
    case Thursday => "THURSDAY"
    case Friday => "FRIDAY"
    case Saturday => "SATURDAY"
    case Sunday => "SUNDAY"
  }

  /** `Month.name`: the enum constant's name. */
  function MonthName(m: Month): string {
    if m == 1 then "JANUARY"
    else if m == 2 then "FEBRUARY"
    else if m == 3 then "MARCH"
    else if m == 4 then "APRIL"
    else if m == 5 then "MAY"
    else if m == 6 then "JUNE"
    else if m == 7 then "JULY"
    else if m == 8 then "AUGUST"
    else if m == 9 then "SEPTEMBER"
    else if m == 10 then "OCTOBER"
    else if m == 11 then "NOVEMBER"
    else "DECEMBER"
  }

  /** `MonthNames.ENGLISH_FULL`. */
  function MonthEnglishFull(m: Month): string {
    if m == 1 then "January"
    else if m == 2 then "February"
    else if m == 3 then "March"
    else if m == 4 then "April"
    else if m == 5 then "May"
    else if m == 6 then "June"
    else if m == 7 then "July"
    else if m == 8 then "August"
    else if m == 9 then "September"
    else if m == 10 then "October"
    else if m == 11 then "November"
    else "December"
  }
}
