/** The root view model: it turns every incoming deep link into the stack the
    navigation starts from, remembers the last event the user opened and
    falls back to it when the link names no event. */
module RootViewModel {
  import opened Common
  import opened Strings
  import opened Deeplink

  /** The settings key under which the last opened event is kept. */
  const LastEventIdKey: string := "lastEventId"

  /** A decoded stack that holds nothing but the list of events. */
  predicate IsListOnly(stack: seq<AppScreen>) {
    |stack| == 1 && stack[0] == EventsListScreen
  }

  /** The id of the first event screen of a stack, if there is one. */
  function FirstEventId(stack: seq<AppScreen>): (r: Option<string>)
    ensures r.None? <==> forall i | 0 <= i < |stack| :: !stack[i].EventScreen?
    ensures r.Some? ==> exists i | 0 <= i < |stack| ::
      (stack[i] == EventScreen(r.value) && forall j | 0 <= j < i :: !stack[j].EventScreen?)
  {
    if stack == [] then None
    else if stack[0].EventScreen? then
      assert stack[0] == EventScreen(stack[0].id);
      Some(stack[0].id)
    else
      var r := FirstEventId(stack[1..]);
      assert forall i | 1 <= i < |stack| :: stack[i] == stack[1..][i - 1];
      r
  }

  /** What a deep link leads to: the stack to start from and the settings
      afterwards. */
  datatype Start = Start(stack: seq<AppScreen>, settings: map<string, string>)

  /** Every stack the navigation can start from begins with the list of
      events or with an event. */
  predicate StartsWell(stack: seq<AppScreen>) {
    |stack| >= 1 && (stack[0].EventsListScreen? || stack[0].EventScreen?)
  }

  /** The stack and settings a deep link leads to (`urlToStack`). */
  function StartFor(url: string, settings: map<string, string>): (r: Start)
    ensures StartsWell(r.stack)
    ensures forall k | k != LastEventIdKey :: (k in r.settings <==> k in settings)
    ensures forall k | k != LastEventIdKey && k in settings :: r.settings[k] == settings[k]
  {
    var stack := UrlToStack(url);
    if IsListOnly(stack) then
      if LastEventIdKey in settings then Start([EventScreen(settings[LastEventIdKey])], settings)
      else Start(stack, settings)
    else
      match FirstEventId(stack)
      case Some(id) => Start(stack, settings[LastEventIdKey := id])
      case None => Start(stack, settings)
  }

  /** A link that names an event remembers it and is followed as decoded. */
  lemma LinkToEventRemembered(url: string, settings: map<string, string>)
    requires !IsBlank(Location(url))
    ensures StartFor(url, settings).stack == UrlToStack(url)
    ensures var e := UrlToStack(url)[0];
      e.EventScreen? && StartFor(url, settings).settings == settings[LastEventIdKey := e.id]
  {
    ListOnlyIffBlank(url);
  }

  /** A link that names no event reopens the remembered event, if any, and
      changes no setting. */
  lemma BlankLinkReopensLastEvent(url: string, settings: map<string, string>)
    requires IsBlank(Location(url))
    ensures StartFor(url, settings).settings == settings
    ensures StartFor(url, settings).stack ==
      if LastEventIdKey in settings then [EventScreen(settings[LastEventIdKey])] else [EventsListScreen]
  {
    ListOnlyIffBlank(url);
  }

  /** After a link to an event, a later link to nothing comes back to that
      event. */
  lemma LastEventSurvives(url1: string, url2: string, settings: map<string, string>)
    requires !IsBlank(Location(url1)) && IsBlank(Location(url2))
    ensures StartFor(url2, StartFor(url1, settings).settings).stack
         == [UrlToStack(url1)[0]]
  {
    LinkToEventRemembered(url1, settings);
    BlankLinkReopensLastEvent(url2, StartFor(url1, settings).settings);
  }

  /** The view model; `settings` is the app's persistent key-value store. */
  class RootViewModel {
    var settings: map<string, string>
    var initialStack: seq<AppScreen>

    constructor(settings: map<string, string>)
      ensures this.settings == settings && initialStack == []
    {
      this.settings := settings;
      initialStack := [];
    }

    method SaveSelectedEvent(eventId: string)
      modifies this
      ensures settings == old(settings)[LastEventIdKey := eventId]
      ensures initialStack == old(initialStack)
    {
      settings := settings[LastEventIdKey := eventId];
    }

    /** Decodes a link, reading or writing the remembered event. */
    method UrlToStack(url: string) returns (stack: seq<AppScreen>)
      modifies this
      ensures stack == StartFor(url, old(settings)).stack
      ensures settings == StartFor(url, old(settings)).settings
      ensures initialStack == old(initialStack)
    {
      var decoded := Deeplink.UrlToStack(url);
      if IsListOnly(decoded) {
        if LastEventIdKey in settings {
          stack := [EventScreen(settings[LastEventIdKey])];
        } else {
          stack := decoded;
        }
      } else {
        var eventId := FirstEventId(decoded);
        if eventId.Some? {
          SaveSelectedEvent(eventId.value);
        }
        stack := decoded;
      }
    }

    /** A deep link arrives: the initial stack is replaced by its decoding. */
    method OnDeepLink(url: string)
      modifies this
      ensures initialStack == StartFor(url, old(settings)).stack
      ensures settings == StartFor(url, old(settings)).settings
      ensures StartsWell(initialStack)
    {
      initialStack := [];
      var stack := UrlToStack(url);
      initialStack := initialStack + stack;
    }
  }
}
