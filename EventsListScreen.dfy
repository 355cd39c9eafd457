/** The earlier list of events: cards coloured by the event id, with the
    title, and a date line in the screen's own format ending in the year. */
module EventsListScreen {
  import opened Common
  import opened Strings
  import opened Dates
  import opened Entities
  import opened AppColors
  import DataService
  import EventInfoPage

  /** The screen's date format: the day without padding, a space, the full
      English month name, as "5 March". */
  function LocalFormat(d: Date): (r: string)
    ensures |r| >= 3 && r[..|NatToDecimal(d.day)|] == NatToDecimal(d.day)
  {
    NatToDecimal(d.day) + " " + MonthEnglishFull(d.month)
  }

  /** Reads a full English month name back. */
  function MonthFromEnglish(s: string): Option<Month> {
    if s == "January" then Some(1)
    else if s == "February" then Some(2)
    else if s == "March" then Some(3)
    else if s == "April" then Some(4)
    else if s == "May" then Some(5)
    else if s == "June" then Some(6)
    else if s == "July" then Some(7)
    else if s == "August" then Some(8)
    else if s == "September" then Some(9)
    else if s == "October" then Some(10)
    else if s == "November" then Some(11)
    else if s == "December" then Some(12)
    else None
  }

  /** Reads a date in the screen's format back as its day and month. */
  function ParseLocalFormat(s: string): Option<(nat, Month)> {
    var day := SubstringBefore(s, " ");
    if !Contains(s, " ") || day == [] || !AllDigits(day) then None
    else
      match MonthFromEnglish(SubstringAfter(s, " ", ""))
      case None => None
      case Some(m) => Some((DecimalValue(day), m))
  }

  lemma MonthFromEnglishRoundTrip(m: Month)
    ensures MonthFromEnglish(MonthEnglishFull(m)) == Some(m)
  {
  }

  /** The format loses nothing but the year. */
  lemma {:induction false} LocalFormatRoundTrip(d: Date)
    ensures ParseLocalFormat(LocalFormat(d)) == Some((d.day, d.month))
  {
    var dec := NatToDecimal(d.day);
    var name := MonthEnglishFull(d.month);
    assert ' ' !in dec by {
      forall i | 0 <= i < |dec| ensures dec[i] != ' ' {
        assert IsDigit(dec[i]);
      }
    }
    MissingFirstChar(dec, " ");
    FirstOccurrence(dec, " ", name);
    var s := LocalFormat(d);
    assert s == dec + " " + name;
    assert s[..|dec|] == dec;
    assert SubstringAfter(s, " ", "") == name by {
      var after := SubstringAfter(s, " ", "");
      assert s == dec + " " + after;
    }
    MonthFromEnglishRoundTrip(d.month);
    DecimalRoundTrip(d.day);
  }

  /** The screen's date range: one date; the start's day then the whole end
      date (same month); or both dates whole. */
  function DateText(start: Date, end: Date): (r: string)
  {
    if start != end then
      if start.month != end.month then LocalFormat(start) + " - " + LocalFormat(end)
      else NatToDecimal(start.day) + " - " + LocalFormat(end)
    else LocalFormat(start)
  }

  /** Dates in different months are both shown whole. */
  lemma ScreenMonthsDiffer(start: Date, end: Date)
    requires start.month != end.month
    ensures DateText(start, end) == LocalFormat(start) + " - " + LocalFormat(end)
  {
  }

  /** Two different dates in the same month show the start's day and the
      whole end date. */
  lemma ScreenSameMonth(start: Date, end: Date)
    requires start != end && start.month == end.month
    ensures DateText(start, end) == NatToDecimal(start.day) + " - " + LocalFormat(end)
  {
  }

  /** The range collapses to a single date exactly when the two dates are
      the same. */
  lemma SingleDateIffSameDay(start: Date, end: Date)
    ensures DateText(start, end) == LocalFormat(start) <==> start == end
  {
    var h := NatToDecimal(start.day);
    var t := DateText(start, end);
    if start != end && start.month == end.month {
      assert t[|h| + 1] == '-';
      assert LocalFormat(start)[|h| + 1] == MonthEnglishFull(start.month)[0];
    }
  }

  /** The card's date line: the range, a space, and the end's year. */
  function DateLine(start: Date, end: Date): string {
    DateText(start, end) + " " + IntToDecimal(end.year)
  }

  /** Whatever the case, the date line opens with the start's day and
      closes with the whole end date and its year. */
  lemma DateLineShape(start: Date, end: Date)
    ensures var r := DateLine(start, end); var tail := LocalFormat(end) + " " + IntToDecimal(end.year);
      |r| >= |tail| && r[|r| - |tail|..] == tail
    ensures var r := DateLine(start, end); var head := NatToDecimal(start.day);
      |r| >= |head| && r[..|head|] == head
  {
    var t := DateText(start, end);
    DateTextEnds(start, end);
    assert DateLine(start, end) == t + (" " + IntToDecimal(end.year));
  }

  lemma DateTextEnds(start: Date, end: Date)
    ensures var t := DateText(start, end); var e := LocalFormat(end); var h := NatToDecimal(start.day);
      && |t| >= |e| && t[|t| - |e|..] == e
      && |t| >= |h| && t[..|h|] == h
  {
    var t := DateText(start, end);
    var e := LocalFormat(end);
    var h := NatToDecimal(start.day);
    if start == end {
      assert t == e;
    } else if start.month != end.month {
      assert t == LocalFormat(start) + " - " + e;
      assert t[..|h|] == LocalFormat(start)[..|h|];
    } else {
      assert t == h + " - " + e;
    }
  }

  /** For an event that spans a new year, the information page names the
      start's year and this screen the end's. */
  lemma YearsDifferAcrossPages(start: Date, end: Date, format: Date -> string)
    requires start.year != end.year
    ensures var info := EventInfoPage.DateLine(start, end, format);
      var list := DateLine(start, end);
      && info[|info| - |IntToDecimal(start.year)|..] == IntToDecimal(start.year)
      && list[|list| - |IntToDecimal(end.year)|..] == IntToDecimal(end.year)
      && IntToDecimal(start.year) != IntToDecimal(end.year)
  {
    EndsWithEndYear(start, end);
    YearTextsDiffer(start.year, end.year);
  }

  lemma EndsWithEndYear(start: Date, end: Date)
    ensures var list := DateLine(start, end); var y := IntToDecimal(end.year);
      |list| >= |y| && list[|list| - |y|..] == y
  {
    var y := IntToDecimal(end.year);
    assert DateLine(start, end) == (DateText(start, end) + " ") + y;
  }

  lemma YearTextsDiffer(a: int, b: int)
    requires a != b
    ensures IntToDecimal(a) != IntToDecimal(b)
  {
    if IntToDecimal(a) == IntToDecimal(b) {
      if a >= 0 {
        DecimalInjective(a, b);
      } else {
        DecimalInjective(-a, -b);
      }
    }
  }

  /** The title as the card shows it: first character title-cased. */
  function DisplayTitle(title: string): (r: string)
    ensures |r| == |title|
    ensures r != [] ==> r[0] == UpperChar(title[0]) && r[1..] == title[1..]
  {
    CapitalizeFirst(title)
  }

  /** Titles that came through the data service are shown unchanged. */
  lemma LoadedTitleShownAsIs(e: DataService.RawEvent)
    ensures DisplayTitle(DataService.Normalize(e).title) == DataService.Normalize(e).title
  {
    var t := DataService.Normalize(e).title;
    if t != [] {
      DataService.UpperCharIdempotent(Trim(e.title)[0]);
      assert t == [t[0]] + t[1..];
    }
  }

  /** The card background: the colour for the event's id. */
  function CardBackground(info: EventInfo): CardColor {
    ColorFor(info.id)
  }
}
