/** The list of events: a year header above the first event of each year,
    and on each card the date range and the start time. The date and time
    formats are the app's and are parameters. */
module EventsListPage {
  import opened Common
  import opened Strings
  import opened Dates
  import opened Entities
  import opened DataService

  function Year(e: EventInfo): int { e.startDate.date.year }

  /** A header with the year goes above the first event and above every
      event whose year differs from the one before it. */
  predicate ShowsYearHeader(items: seq<EventInfo>, i: int)
    requires 0 <= i < |items|
  {
    i == 0 || Year(items[i]) != Year(items[i - 1])
  }

  /** Some event of year `y` is shown under a header. */
  predicate HasHeaderFor(items: seq<EventInfo>, y: int) {
    exists k | 0 <= k < |items| :: ShowsYearHeader(items, k) && Year(items[k]) == y
  }

  /** Every event has a header for its year at or above it. */
  lemma {:induction false} HeaderAtOrAbove(items: seq<EventInfo>, i: int)
    requires 0 <= i < |items|
    ensures HasHeaderFor(items, Year(items[i]))
  {
    if ShowsYearHeader(items, i) {
      assert ShowsYearHeader(items, i) && Year(items[i]) == Year(items[i]);
    } else {
      HeaderAtOrAbove(items, i - 1);
    }
  }

  lemma YearsNonIncreasing(items: seq<EventInfo>, i: int, j: int)
    requires NewestFirst(items) && 0 <= i <= j < |items|
    ensures Year(items[j]) <= Year(items[i])
  {
    if i < j {
      assert DateTimeLessEq(items[j].startDate, items[i].startDate);
    }
  }

  /** Over the newest-first list, each year that occurs gets exactly one
      header. */
  lemma OneHeaderPerYear(items: seq<EventInfo>)
    requires NewestFirst(items)
    ensures forall i | 0 <= i < |items| :: HasHeaderFor(items, Year(items[i]))
    ensures forall i, j | 0 <= i < j < |items| && ShowsYearHeader(items, i) && ShowsYearHeader(items, j) ::
      Year(items[i]) != Year(items[j])
  {
    forall i | 0 <= i < |items| ensures HasHeaderFor(items, Year(items[i])) {
      HeaderAtOrAbove(items, i);
    }
    forall i, j | 0 <= i < j < |items| && ShowsYearHeader(items, i) && ShowsYearHeader(items, j)
      ensures Year(items[i]) != Year(items[j])
    {
      HeadersOfDifferentYears(items, i, j);
    }
  }

  lemma HeadersOfDifferentYears(items: seq<EventInfo>, i: int, j: int)
    requires NewestFirst(items) && 0 <= i < j < |items|
    requires ShowsYearHeader(items, i) && ShowsYearHeader(items, j)
    ensures Year(items[i]) != Year(items[j])
  {
    YearsNonIncreasing(items, i, j - 1);
    YearsNonIncreasing(items, j - 1, j);
  }

  /** The date range of a card: one date, or the start and either the whole
      end date (another month) or only its day (the same month; the years
      are not compared). */
  function DateText(start: Date, end: Date, format: Date -> string): (r: string)
    ensures |r| >= |format(start)| && r[..|format(start)|] == format(start)
    ensures r == format(start) <==> start == end
    ensures start != end ==> |r| >= |format(start)| + 3 && r[|format(start)|..|format(start)| + 3] == " - "
  {
    if start != end then
      if start.month != end.month then format(start) + " - " + format(end)
      else format(start) + " - " + NatToDecimal(end.day)
    else format(start)
  }

  /** Dates in different months are both shown whole. */
  lemma MonthsDifferShowBoth(start: Date, end: Date, format: Date -> string)
    requires start.month != end.month
    ensures DateText(start, end, format) == format(start) + " - " + format(end)
  {
  }

  /** Two different dates in the same month show the whole start and only
      the end's day. */
  lemma SameMonthShowsEndDay(start: Date, end: Date, format: Date -> string)
    requires start != end && start.month == end.month
    ensures DateText(start, end, format) == format(start) + " - " + NatToDecimal(end.day)
  {
  }

  /** Only the month is compared: two dates in the same month of different
      years show only the end's day, and the end's year is lost. */
  lemma MonthOnlyCompared(start: Date, end: Date, format: Date -> string)
    requires start.month == end.month && start.year != end.year
    ensures DateText(start, end, format) == format(start) + " - " + NatToDecimal(end.day)
  {
    SameMonthShowsEndDay(start, end, format);
  }

  const Bullet: string := " • "

  /** The card's line: the date range, a bullet, the start time. */
  function CardLine(dateText: string, timeText: string): string {
    dateText + Bullet + timeText
  }

  /** The line splits back into the date range and the time at its first
      bullet. */
  lemma {:induction false} CardLineReadBack(dateText: string, timeText: string)
    requires '•' !in dateText
    ensures SubstringBefore(CardLine(dateText, timeText), Bullet) == dateText
    ensures SubstringAfter(CardLine(dateText, timeText), Bullet, "") == timeText
  {
    var line := CardLine(dateText, timeText);
    var n := |dateText|;
    assert OccursAt(line, Bullet, n) by {
      assert line[n..n + 3] == Bullet;
    }
    forall j | 0 <= j < n ensures !OccursAt(line, Bullet, j) {
      if j + 1 < n {
        assert line[j + 1] == dateText[j + 1];
      } else {
        assert line[j + 1] == ' ';
      }
    }
    assert IndexOf(line, Bullet) == Some(n);
    assert line[..n] == dateText;
    var after := SubstringAfter(line, Bullet, "");
    assert line == dateText + Bullet + after;
    assert line[n + 3..] == after;
  }

  /** What the card of an event shows under its name. */
  function CardText(info: EventInfo, format: Date -> string, timeFormat: int -> string): string {
    CardLine(DateText(info.startDate.date, info.endDate.date, format), timeFormat(info.startDate.time))
  }
}
