/** The event information page: what it waits for before showing the event,
    the date line and the link to the venue on a map. */
module EventInfoPage {
  import opened Common
  import opened Strings
  import opened Dates
  import opened Entities
  import EventsListPage

  /** The event whose details are shown: none while loading, after an
      error, or before the event has arrived. */
  function ShownEvent(loading: bool, error: Option<string>, event: Option<EventInfo>): (r: Option<EventInfo>)
    ensures r.Some? <==> !loading && error.None? && event.Some?
    ensures r.Some? ==> r == event
  {
    if loading || error.Some? then None else event
  }

  /** The date line: the date range (as the list of events shows it), a
      comma, and the start's year. */
  function DateLine(start: Date, end: Date, format: Date -> string): (r: string)
    ensures var y := IntToDecimal(start.year); var t := EventsListPage.DateText(start, end, format);
      |r| == |t| + 2 + |y| && r[..|t|] == t && r[|t|..|t| + 2] == ", " && r[|t| + 2..] == y
    ensures |r| >= |format(start)| && r[..|format(start)|] == format(start)
  {
    EventsListPage.DateText(start, end, format) + ", " + IntToDecimal(start.year)
  }

  const MapsPrefix: string := "https://maps.google.com/?q="

  /** The map link: the address with every space turned into a plus sign. */
  function MapsUrl(address: string): (url: string)
    ensures |url| == |MapsPrefix| + |address| && url[..|MapsPrefix|] == MapsPrefix
    ensures forall i | 0 <= i < |address| ::
      url[|MapsPrefix| + i] == if address[i] == ' ' then '+' else address[i]
    ensures ' ' !in url[|MapsPrefix|..]
  {
    ReplaceCharSameLength(address, ' ', '+');
    MapsPrefix + ReplaceChar(address, ' ', "+")
  }

  /** The query of the link gives the address back once plus signs are read
      as spaces, when the address had none of its own. */
  lemma {:induction false} MapsUrlReadBack(address: string)
    requires '+' !in address
    ensures ReplaceChar(MapsUrl(address)[|MapsPrefix|..], '+', " ") == address
  {
    var q := MapsUrl(address)[|MapsPrefix|..];
    ReplaceCharSameLength(q, '+', ' ');
    assert forall i | 0 <= i < |q| :: q[i] == (if address[i] == ' ' then '+' else address[i]);
  }
}
