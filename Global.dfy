/** App-wide constants and the short day label of the schedule's day tabs. */
module Global {
  import opened Common
  import opened Strings
  import opened Dates

  /** The window width, in dp, from which the desktop dialog is used. */
  const WideSize: int := 800

  /** `name.lowercase().take(3).replaceFirstChar { it.uppercase() }`. */
  function Abbreviation(name: string): (r: string)
    ensures |r| == if |name| < 3 then |name| else 3
  {
    var lower := Lowercase(name);
    CapitalizeFirst(if |lower| < 3 then lower else lower[..3])
  }

  function DayAbbreviation(d: DayOfWeek): (r: string)
    ensures |r| == 3 && 'A' <= r[0] <= 'Z' && 'a' <= r[1] <= 'z' && 'a' <= r[2] <= 'z'
  {
    Abbreviation(DayOfWeekName(d))
  }

  function MonthAbbreviation(m: Month): (r: string)
    ensures |r| == 3 && 'A' <= r[0] <= 'Z' && 'a' <= r[1] <= 'z' && 'a' <= r[2] <= 'z'
  {
    Abbreviation(MonthName(m))
  }

  /** `LocalDate.dayShortString()`, as "Mon, Jan 5"; the day of the week is
      the calendar's and is passed in. */
  function DayShortString(date: Date, dayOfWeek: DayOfWeek): (r: string)
    ensures |r| >= 10
    ensures r[..3] == DayAbbreviation(dayOfWeek) && r[3..5] == ", "
    ensures r[5..8] == MonthAbbreviation(date.month) && r[8] == ' '
    ensures r[9..] == NatToDecimal(date.day)
  {
    DayAbbreviation(dayOfWeek) + ", " + MonthAbbreviation(date.month) + " " + NatToDecimal(date.day)
  }

  /** Reads a day-of-week abbreviation back. */
  function DayOfAbbreviation(s: string): Option<DayOfWeek> {
    if s == "Mon" then Some(Monday)
    else if s == "Tue" then Some(Tuesday)
    else if s == "Wed" then Some(Wednesday)
    else if s == "Thu" then Some(Thursday)
    else if s == "Fri" then Some(Friday)
    else if s == "Sat" then Some(Saturday)
    else if s == "Sun" then Some(Sunday)
    else None
  }

  lemma AbbreviationChars(name: string)
    requires |name| >= 3
    ensures Abbreviation(name) == [UpperChar(LowerChar(name[0])), LowerChar(name[1]), LowerChar(name[2])]
  {
    assert Lowercase(name)[..3] == [LowerChar(name[0]), LowerChar(name[1]), LowerChar(name[2])];
  }

  lemma DayAbbreviationRoundTrip(d: DayOfWeek)
    ensures DayOfAbbreviation(DayAbbreviation(d)) == Some(d)
  {
    AbbreviationChars(DayOfWeekName(d));
  }

  /** Reads a month abbreviation back. */
  function MonthOfAbbreviation(s: string): Option<Month> {
    if s == "Jan" then Some(1)
    else if s == "Feb" then Some(2)
    else if s == "Mar" then Some(3)
    else if s == "Apr" then Some(4)
    else if s == "May" then Some(5)
    else if s == "Jun" then Some(6)
    else if s == "Jul" then Some(7)
    else if s == "Aug" then Some(8)
    else if s == "Sep" then Some(9)
    else if s == "Oct" then Some(10)
    else if s == "Nov" then Some(11)
    else if s == "Dec" then Some(12)
    else None
  }

  lemma MonthAbbreviationRoundTrip(m: Month)
    ensures MonthOfAbbreviation(MonthAbbreviation(m)) == Some(m)
  {
    AbbreviationChars(MonthName(m));
    if m <= 4 {
      EarlyMonths(m);
    } else if m <= 8 {
      MiddleMonths(m);
    } else {
      LateMonths(m);
    }
  }

  lemma EarlyMonths(m: Month)
    requires m <= 4
    ensures MonthOfAbbreviation(MonthAbbreviation(m)) == Some(m)
  {
    AbbreviationChars(MonthName(m));
  }

  lemma MiddleMonths(m: Month)
    requires 5 <= m <= 8
    ensures MonthOfAbbreviation(MonthAbbreviation(m)) == Some(m)
  {
    AbbreviationChars(MonthName(m));
  }

  lemma LateMonths(m: Month)
    requires 9 <= m
    ensures MonthOfAbbreviation(MonthAbbreviation(m)) == Some(m)
  {
    AbbreviationChars(MonthName(m));
  }

  /** The label tells the day of the week, the month and the day apart: two
      days with the same label agree on all three. */
  lemma {:induction false} DayShortStringInjective(d1: Date, w1: DayOfWeek, d2: Date, w2: DayOfWeek)
    requires DayShortString(d1, w1) == DayShortString(d2, w2)
    ensures w1 == w2 && d1.month == d2.month && d1.day == d2.day
  {
    var s := DayShortString(d1, w1);
    DayAbbreviationRoundTrip(w1);
    DayAbbreviationRoundTrip(w2);
    MonthAbbreviationRoundTrip(d1.month);
    MonthAbbreviationRoundTrip(d2.month);
    assert NatToDecimal(d1.day) == s[9..] == NatToDecimal(d2.day);
    DecimalInjective(d1.day, d2.day);
  }
}
