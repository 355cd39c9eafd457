/** The deep-link codec: a URL's hash fragment names a navigation stack of
    screens, and the screen on top of the stack names a fragment. */
module Deeplink {
  import opened Common
  import opened Strings

  /** The screens of the app's navigation (the union of the screens of its
      revisions: the info screen is only reachable through a deep link). */
  datatype AppScreen =
    | EventsListScreen
    | EventScreen(id: string)
    | EventInfoScreen(id: string)
    | SessionScreen(eventId: string, id: string)
    | SpeakerScreen(eventId: string, id: string)

  const EventMarker: string := "#/event/"
  const SessionMarker: string := "?session="
  const InfoMarker: string := "/info"
  const SpeakerMarker: string := "?speaker="

  /** The event a screen belongs to; the list of events belongs to none. */
  function EventOf(s: AppScreen): Option<string> {
    match s
    case EventsListScreen => None
    case EventScreen(id) => Some(id)
    case EventInfoScreen(id) => Some(id)
    case SessionScreen(eventId, _) => Some(eventId)
    case SpeakerScreen(eventId, _) => Some(eventId)
  }

  /** `screenToUrl`: the fragment of a screen; none for the list of events. */
  function ScreenToUrl(s: AppScreen): (url: Option<string>)
    ensures url.None? <==> s.EventsListScreen?
    ensures url.Some? ==> |url.value| >= |EventMarker| && url.value[..|EventMarker|] == EventMarker
  {
    match s
    case EventsListScreen => None
    case EventScreen(id) => Some(EventMarker + id)
    case EventInfoScreen(id) => Some(EventMarker + id + InfoMarker)
    case SessionScreen(eventId, id) => Some(EventMarker + eventId + SessionMarker + id)
    case SpeakerScreen(eventId, id) => Some(EventMarker + eventId + SpeakerMarker + id)
  }

  /** The shape of every decoded stack: the list alone, an event alone, or an
      event with one screen of that same event on top. */
  predicate DecodedShape(stack: seq<AppScreen>) {
    || stack == [EventsListScreen]
    || (|stack| == 1 && stack[0].EventScreen?)
    || (&& |stack| == 2
        && stack[0].EventScreen?
        && !stack[1].EventsListScreen? && !stack[1].EventScreen?
        && EventOf(stack[1]) == Some(stack[0].id))
  }

  /** The text after the first `#/event/`, or empty when there is none. */
  function Location(url: string): (loc: string)
    ensures !Contains(url, EventMarker) ==> loc == ""
    ensures Contains(url, EventMarker) ==> url == SubstringBefore(url, EventMarker) + EventMarker + loc
  {
    SubstringAfter(url, EventMarker, "")
  }

  /** The stack a location names; the markers are tried in a fixed order. */
  function LocationToStack(loc: string): (stack: seq<AppScreen>)
    ensures DecodedShape(stack)
    ensures stack == [EventsListScreen] <==> IsBlank(loc)
  {
    if IsBlank(loc) then
      [EventsListScreen]
    else if Contains(loc, SessionMarker) then
      var parts := Split(loc, SessionMarker);
      [EventScreen(parts[0]), SessionScreen(parts[0], parts[1])]
    else if Contains(loc, InfoMarker) then
      var eventId := SubstringBefore(loc, InfoMarker);
      [EventScreen(eventId), EventInfoScreen(eventId)]
    else if Contains(loc, SpeakerMarker) then
      var parts := Split(loc, SpeakerMarker);
      [EventScreen(parts[0]), SpeakerScreen(parts[0], parts[1])]
    else
      [EventScreen(loc)]
  }

  /** `urlToStack`. */
  function UrlToStack(url: string): (stack: seq<AppScreen>)
    ensures 1 <= |stack| <= 2
    ensures DecodedShape(stack)
  {
    LocationToStack(Location(url))
  }

  // ----- Properties of the decoder -----

  /** A URL without `#/event/` opens the list of events. */
  lemma NoEventMarkerOpensList(url: string)
    requires !Contains(url, EventMarker)
    ensures UrlToStack(url) == [EventsListScreen]
  {
  }

  /** The list alone is decoded exactly when the text after the first
      `#/event/` is blank (or missing). */
  lemma ListOnlyIffBlank(url: string)
    ensures UrlToStack(url) == [EventsListScreen] <==> IsBlank(Location(url))
  {
  }

  /** Whatever precedes the first `#/event/` does not matter. */
  lemma PrefixIgnored(prefix: string, loc: string)
    requires !Contains(prefix, EventMarker)
    ensures UrlToStack(prefix + EventMarker + loc) == LocationToStack(loc)
  {
    FirstOccurrence(prefix, EventMarker, loc);
    var url := prefix + EventMarker + loc;
    assert url[|prefix| + |EventMarker|..] == loc;
  }

  /** A location holding none of the markers names an event by its whole
      text. */
  lemma BareEventId(loc: string)
    requires !IsBlank(loc)
    requires !Contains(loc, SessionMarker) && !Contains(loc, InfoMarker) && !Contains(loc, SpeakerMarker)
    ensures LocationToStack(loc) == [EventScreen(loc)]
  {
  }

  /** `?session=` wins over `/info`, which wins over `?speaker=`: a speaker id
      that contains `/info` opens the event's info screen instead. */
  lemma InfoBeatsSpeaker(eventId: string, speakerId: string)
    requires !Contains(eventId + SpeakerMarker + speakerId, SessionMarker)
    requires Contains(speakerId, InfoMarker)
    ensures var stack := LocationToStack(eventId + SpeakerMarker + speakerId);
      |stack| == 2 && stack[1].EventInfoScreen?
  {
    var loc := eventId + SpeakerMarker + speakerId;
    ContainsInRight(eventId + SpeakerMarker, speakerId, InfoMarker);
    assert !IsBlank(loc) by {
      assert loc[|eventId|] == '?';
    }
  }

  lemma SessionBeatsInfo(loc: string)
    requires Contains(loc, SessionMarker)
    ensures |LocationToStack(loc)| == 2 && LocationToStack(loc)[1].SessionScreen?
  {
    var i := IndexOf(loc, SessionMarker).value;
    assert loc[i..i + |SessionMarker|][0] == '?';
    assert loc[i] == '?';
  }

  /** A second `?session=` cuts the session id short: what follows it is
      dropped. */
  lemma SecondSessionMarkerDropped(eventId: string, sessionId: string, tail: string)
    requires !Contains(eventId, SessionMarker) && !Contains(sessionId, SessionMarker)
    ensures LocationToStack(eventId + SessionMarker + (sessionId + SessionMarker + tail))
         == [EventScreen(eventId), SessionScreen(eventId, sessionId)]
  {
    var loc := eventId + SessionMarker + (sessionId + SessionMarker + tail);
    SplitTwice(eventId, SessionMarker, sessionId, tail);
    assert loc[|eventId|..|eventId| + |SessionMarker|] == SessionMarker;
    SessionBeatsInfo(loc);
  }

  /** The same for a second `?speaker=`, when no earlier marker applies. */
  lemma SecondSpeakerMarkerDropped(eventId: string, speakerId: string, tail: string)
    requires !Contains(eventId, SpeakerMarker) && !Contains(speakerId, SpeakerMarker)
    requires var loc := eventId + SpeakerMarker + (speakerId + SpeakerMarker + tail);
      !Contains(loc, SessionMarker) && !Contains(loc, InfoMarker)
    ensures LocationToStack(eventId + SpeakerMarker + (speakerId + SpeakerMarker + tail))
         == [EventScreen(eventId), SpeakerScreen(eventId, speakerId)]
  {
    var loc := eventId + SpeakerMarker + (speakerId + SpeakerMarker + tail);
    SplitTwice(eventId, SpeakerMarker, speakerId, tail);
    assert loc[|eventId|] == '?';
    assert OccursAt(loc, SpeakerMarker, |eventId|);
  }

  // ----- Round trip -----

  /** An id the fragment can carry unambiguously: none of the markers. */
  predicate PlainId(id: string) {
    !Contains(id, SessionMarker) && !Contains(id, InfoMarker) && !Contains(id, SpeakerMarker)
  }

  /** The stack a screen's fragment is meant to reopen: the screen itself
      for an event, otherwise the screen above its event. */
  function ExpectedStack(s: AppScreen): seq<AppScreen>
    requires !s.EventsListScreen?
  {
    if s.EventScreen? then [s] else [EventScreen(EventOf(s).value), s]
  }

  lemma UrlOfLocation(loc: string)
    ensures Location(EventMarker + loc) == loc
  {
    FirstOccurrence("", EventMarker, loc);
    assert "" + EventMarker + loc == EventMarker + loc;
    assert (EventMarker + loc)[|EventMarker|..] == loc;
  }

  lemma RoundTripEvent(id: string)
    requires !IsBlank(id) && PlainId(id)
    ensures UrlToStack(EventMarker + id) == [EventScreen(id)]
  {
    UrlOfLocation(id);
  }

  lemma RoundTripInfo(id: string)
    requires PlainId(id)
    ensures UrlToStack(EventMarker + id + InfoMarker) == [EventScreen(id), EventInfoScreen(id)]
  {
    var loc := id + InfoMarker;
    assert EventMarker + id + InfoMarker == EventMarker + loc;
    UrlOfLocation(loc);
    MissingFirstChar(InfoMarker, SessionMarker);
    NotContainsConcat(id, InfoMarker, SessionMarker);
    assert loc[|id|] == '/';
    FirstOccurrence(id, InfoMarker, "");
    assert id + InfoMarker + "" == loc;
    assert loc[..|id|] == id;
  }

  lemma RoundTripSession(eventId: string, id: string)
    requires PlainId(eventId) && PlainId(id)
    ensures UrlToStack(EventMarker + eventId + SessionMarker + id)
         == [EventScreen(eventId), SessionScreen(eventId, id)]
  {
    var loc := eventId + SessionMarker + id;
    assert EventMarker + eventId + SessionMarker + id == EventMarker + loc;
    UrlOfLocation(loc);
    SessionLocation(eventId, id);
  }

  lemma SessionLocation(eventId: string, id: string)
    requires PlainId(eventId) && PlainId(id)
    ensures LocationToStack(eventId + SessionMarker + id)
         == [EventScreen(eventId), SessionScreen(eventId, id)]
  {
    var loc := eventId + SessionMarker + id;
    assert !IsBlank(loc) by {
      assert loc[|eventId|] == '?';
    }
    assert Contains(loc, SessionMarker) by {
      assert OccursAt(loc, SessionMarker, |eventId|);
    }
    SplitAround(eventId, SessionMarker, id);
  }

  lemma NoSessionOrInfoAround(eventId: string, id: string)
    requires PlainId(eventId) && PlainId(id)
    ensures !Contains(eventId + SpeakerMarker + id, SessionMarker)
    ensures !Contains(eventId + SpeakerMarker + id, InfoMarker)
  {
    assert eventId + SpeakerMarker + id == eventId + (SpeakerMarker + id);
    assert !Contains(SpeakerMarker, SessionMarker) by {
      assert SpeakerMarker != SessionMarker;
    }
    NotContainsConcat(SpeakerMarker, id, SessionMarker);
    NotContainsConcat(eventId, SpeakerMarker + id, SessionMarker);
    MissingFirstChar(SpeakerMarker, InfoMarker);
    NotContainsConcat(SpeakerMarker, id, InfoMarker);
    NotContainsConcat(eventId, SpeakerMarker + id, InfoMarker);
  }

  lemma RoundTripSpeaker(eventId: string, id: string)
    requires PlainId(eventId) && PlainId(id)
    ensures UrlToStack(EventMarker + eventId + SpeakerMarker + id)
         == [EventScreen(eventId), SpeakerScreen(eventId, id)]
  {
    var loc := eventId + SpeakerMarker + id;
    assert EventMarker + eventId + SpeakerMarker + id == EventMarker + loc;
    UrlOfLocation(loc);
    SpeakerLocation(eventId, id);
  }

  lemma SpeakerLocation(eventId: string, id: string)
    requires PlainId(eventId) && PlainId(id)
    ensures LocationToStack(eventId + SpeakerMarker + id)
         == [EventScreen(eventId), SpeakerScreen(eventId, id)]
  {
    var loc := eventId + SpeakerMarker + id;
    assert !IsBlank(loc) by {
      assert loc[|eventId|] == '?';
    }
    NoSessionOrInfoAround(eventId, id);
    assert Contains(loc, SpeakerMarker) by {
      assert OccursAt(loc, SpeakerMarker, |eventId|);
    }
    SplitAround(eventId, SpeakerMarker, id);
  }

  /** Decoding the fragment of any screen but the list gives back the screen
      on top of its event, for plain ids (and a non-blank event id when the
      event itself is encoded). */
  lemma RoundTrip(s: AppScreen)
    requires !s.EventsListScreen?
    requires s.EventScreen? ==> !IsBlank(s.id)
    requires s.EventScreen? || s.EventInfoScreen? ==> PlainId(s.id)
    requires s.SessionScreen? || s.SpeakerScreen? ==> PlainId(s.eventId) && PlainId(s.id)
    ensures UrlToStack(ScreenToUrl(s).value) == ExpectedStack(s)
  {
    match s
    case EventScreen(id) => RoundTripEvent(id);
    case EventInfoScreen(id) => RoundTripInfo(id);
    case SessionScreen(eventId, id) => RoundTripSession(eventId, id);
    case SpeakerScreen(eventId, id) => RoundTripSpeaker(eventId, id);
  }
}
