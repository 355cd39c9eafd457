/** The earlier revision of the navigation: a placeholder screen under the
    list of events, and event screens that carry the whole event record. */
module LegacyRootContent {
  import opened Entities

  datatype LegacyScreen = EventsList | Event(info: EventInfo) | EmptyEvent

  /** The shape the back stack keeps: never empty, and the placeholder only
      ever at the bottom. */
  predicate WellFormed(stack: seq<LegacyScreen>) {
    && |stack| >= 1
    && (forall i | 1 <= i < |stack| :: !stack[i].EmptyEvent?)
  }

  class LegacyNavigation {
    var backStack: seq<LegacyScreen>

    ghost predicate Valid()
      reads this
    {
      WellFormed(backStack)
    }

    function Top(): LegacyScreen
      reads this
      requires Valid()
    {
      backStack[|backStack| - 1]
    }

    /** The app opens on the list of events above the placeholder. */
    constructor()
      ensures Valid()
      ensures backStack == [EmptyEvent, EventsList]
    {
      backStack := [EmptyEvent, EventsList];
    }

    method OnBack()
      requires Valid()
      modifies this
      ensures Valid()
      ensures |old(backStack)| > 1 ==> backStack == old(backStack)[..|old(backStack)| - 1]
      ensures |old(backStack)| == 1 ==> backStack == old(backStack)
    {
      if |backStack| > 1 {
        backStack := backStack[..|backStack| - 1];
      }
    }

    /** An event picked on the list replaces the whole stack. */
    method OnEventClick(info: EventInfo)
      requires Valid() && Top().EventsList?
      modifies this
      ensures Valid()
      ensures backStack == [Event(info)]
    {
      backStack := [];
      backStack := backStack + [Event(info)];
    }

    method OnSelectConferenceClick()
      requires Valid() && Top().Event?
      modifies this
      ensures Valid()
      ensures backStack == old(backStack) + [EventsList]
    {
      backStack := backStack + [EventsList];
    }
  }
}
