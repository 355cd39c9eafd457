/** The app's navigation: a back stack of screens that starts from the view
    model's initial stack and that the pages' callbacks push onto and pop. */
module RootContent {
  import opened Common
  import opened Deeplink
  import opened RootViewModel

  /** The shape every back stack keeps: never empty; an event only at the
      bottom; the list of events or an event at the bottom; and every
      session, speaker or info screen sits on a screen of the same event. */
  predicate WellFormed(stack: seq<AppScreen>) {
    && |stack| >= 1
    && (stack[0].EventsListScreen? || stack[0].EventScreen?)
    && (forall i | 1 <= i < |stack| :: !stack[i].EventScreen?)
    && (forall i | 1 <= i < |stack| :: !stack[i].EventsListScreen? ==>
          !stack[i - 1].EventsListScreen? && EventOf(stack[i]) == EventOf(stack[i - 1]))
  }

  /** In a well-formed stack every screen above the bottom that is not the
      list of events belongs to the bottom's event, and only lists of events
      lie above a list of events. */
  lemma {:induction false} SameEventThroughout(stack: seq<AppScreen>, i: int)
    requires WellFormed(stack)
    requires 0 <= i < |stack|
    ensures !stack[i].EventsListScreen? ==>
      stack[0].EventScreen? && EventOf(stack[i]) == Some(stack[0].id)
    ensures !stack[i].EventsListScreen? ==> forall j | 0 <= j <= i :: !stack[j].EventsListScreen?
  {
    if i > 0 {
      SameEventThroughout(stack, i - 1);
    }
  }

  /** A stack decoded from a deep link (or restored by the view model) is
      well formed. */
  lemma StartIsWellFormed(url: string, settings: map<string, string>)
    ensures WellFormed(StartFor(url, settings).stack)
  {
    var stack := UrlToStack(url);
    assert DecodedShape(stack);
  }

  class Navigation {
    const vm: RootViewModel
    var backStack: seq<AppScreen>

    ghost predicate Valid()
      reads this
    {
      WellFormed(backStack)
    }

    function Top(): AppScreen
      reads this
      requires Valid()
    {
      backStack[|backStack| - 1]
    }

    /** The navigation is only shown once the initial stack holds
        something: it starts from that stack. */
    constructor(vm: RootViewModel)
      requires WellFormed(vm.initialStack)
      ensures this.vm == vm && backStack == vm.initialStack
      ensures Valid()
    {
      this.vm := vm;
      backStack := vm.initialStack;
    }

    /** The system back action: pops unless only one screen is left. */
    method OnBack()
      requires Valid()
      modifies this
      ensures Valid()
      ensures |old(backStack)| > 1 ==> backStack == old(backStack)[..|old(backStack)| - 1]
      ensures |old(backStack)| == 1 ==> backStack == old(backStack)
    {
      if |backStack| > 1 {
        backStack := backStack[..|backStack| - 1];
      }
    }

    /** An event is picked on the list of events: it is remembered and
        becomes the only screen. */
    method OnEventClick(eventId: string)
      requires Valid() && Top().EventsListScreen?
      modifies this, vm
      ensures Valid()
      ensures backStack == [EventScreen(eventId)]
      ensures vm.settings == old(vm.settings)[LastEventIdKey := eventId]
      ensures vm.initialStack == old(vm.initialStack)
    {
      vm.SaveSelectedEvent(eventId);
      backStack := [];
      backStack := backStack + [EventScreen(eventId)];
    }

    /** "Select conference" on an event page opens the list above it. */
    method OnSelectConferenceClick()
      requires Valid() && Top().EventScreen?
      modifies this
      ensures Valid()
      ensures backStack == old(backStack) + [EventsListScreen]
    {
      backStack := backStack + [EventsListScreen];
    }

    /** A session is picked on an event page. */
    method OnSessionClick(sessionId: string)
      requires Valid() && Top().EventScreen?
      modifies this
      ensures Valid()
      ensures backStack == old(backStack) + [SessionScreen(old(Top()).id, sessionId)]
    {
      var key := Top();
      backStack := backStack + [SessionScreen(key.id, sessionId)];
    }

    /** A speaker is picked on a session page. */
    method OnSpeakerClickFromSession(speakerId: string)
      requires Valid() && Top().SessionScreen?
      modifies this
      ensures Valid()
      ensures backStack == old(backStack) + [SpeakerScreen(old(Top()).eventId, speakerId)]
    {
      var key := Top();
      backStack := backStack + [SpeakerScreen(key.eventId, speakerId)];
    }

    /** A session is picked on a speaker page. */
    method OnSessionClickFromSpeaker(sessionId: string)
      requires Valid() && Top().SpeakerScreen?
      modifies this
      ensures Valid()
      ensures backStack == old(backStack) + [SessionScreen(old(Top()).eventId, sessionId)]
    {
      var key := Top();
      backStack := backStack + [SessionScreen(key.eventId, sessionId)];
    }

    /** The close button of a session or speaker page pops without a guard;
        the shape of the stack guarantees that something stays below. */
    method OnPageClose()
      requires Valid() && (Top().SessionScreen? || Top().SpeakerScreen?)
      modifies this
      ensures Valid()
      ensures |old(backStack)| >= 2
      ensures backStack == old(backStack)[..|old(backStack)| - 1]
    {
      backStack := backStack[..|backStack| - 1];
    }
  }

  /** `RootContent` shows nothing until the view model has an initial stack;
      then the navigation starts from it. */
  method Launch(vm: RootViewModel) returns (nav: Navigation?)
    requires vm.initialStack == [] || WellFormed(vm.initialStack)
    ensures nav == null <==> vm.initialStack == []
    ensures nav != null ==> fresh(nav) && nav.Valid() && nav.vm == vm && nav.backStack == vm.initialStack
  {
    if vm.initialStack == [] {
      return null;
    }
    nav := new Navigation(vm);
  }
}
