# mobicon core, modelled in Dafny

mobicon is a conference-schedule viewer written in Kotlin Multiplatform. Most of it is
declarative Compose UI. This project models the small deterministic pieces under it and
proves what they promise:

- **Deep links** (`Deeplink`). `screenToUrl` writes a screen as a `#/event/...` hash
  fragment. `urlToStack` reads a URL back into a navigation stack. The model keeps the
  source's branch order: `?session=`, then `/info`, then `?speaker=`, then a bare id.
  It proves the round trip for ids that contain no marker.
- **Start-up stack** (`RootViewModel`). The view model owns a settings store, modelled
  as a `map<string, string>`. It falls back to the last selected event, remembers the
  event of every other link, and refills its initial stack in place.
- **Back stacks** (`RootContent`, `LegacyRootContent`). These are classes holding a
  `seq` of screens, with one method per navigation callback. A `Valid` invariant says
  the stack is never empty and that every screen above the bottom belongs to the bottom
  event. Every callback preserves it.
- **Agenda grouping** (`EventScreen`, file `EventSchedule.dfy`). Sessions are grouped
  by date and then by room, and sorted by start time. The model covers:
  - the timeline's start times;
  - the whole-minute difference of two times of day;
  - the schedule height;
  - the gap and card column of each room.
- **Data service** (`DataService`). A `Cache` class holds the events map (with its
  insertion order) and the event-data map. The fetches are parameters. The record
  normalisation and the id lookups are functions.
- **Scene strategies** (`DesktopDialogScene`, `TwoPaneScene`). These are pure functions
  over navigation entries (`NavEntries`) that decide whether a dialog scene or a
  two-pane scene is shown.
- **Small text helpers.** These cover:
  - the three date-range texts (`EventsListPage`, `EventInfoPage`, `EventsListScreen`);
  - the year headers;
  - `dayShortString` (`Global`);
  - the colour bucket (`AppColors`);
  - the link-icon classifier (`SpeakerPage`);
  - the maps URL.

The supporting modules are:

- `Common`: 32-bit `Int` wrap-around, truncating `/` and `%`, and decimal printing.
- `Strings`: Kotlin's `substringBefore`, `substringAfter`, `split`, `trim`, `isBlank`
  and `lowercase`.
- `Dates`: dates and times of day.
- `Entities`: the records.
- `Collections`: `distinct`, the stable `sortedBy`, `minOf` and `maxOf`.

Each of them states its own properties.

The source files come from different revisions. The screen datatype is therefore the
union of the variants the files use: `EventInfoScreen` is in it. The event callback of
`ui/root/RootContent.kt` calls `vm.selectEvent`, which is not defined anywhere; it is
modelled as `saveSelectedEvent`. Times are seconds of the day, and dates are
(year, month, day). The separator of an event card line is stored in
`ui/events/EventsListPage.kt` as the three bytes that a UTF-8 bullet becomes when read
as Windows-1252 ("â€¢"); the model uses the bullet "•" that was evidently meant.

## Model

All paths below are under `sharedUI/src/commonMain/kotlin/com/github/terrakok/mobicon/`,
which is written out in full in each cell.

| member | source | states |
|---|---|---|
| Deeplink.ScreenToUrl | sharedUI/src/commonMain/kotlin/com/github/terrakok/mobicon/DeeplinkService.kt:22-28 | Only the list of events has no URL; every other screen's URL starts with `#/event/` |
| Deeplink.Location | sharedUI/src/commonMain/kotlin/com/github/terrakok/mobicon/DeeplinkService.kt:31 | The text after the first `#/event/`, so that the URL is what precedes it, the marker and the location; empty when the marker is missing |
| Deeplink.LocationToStack | sharedUI/src/commonMain/kotlin/com/github/terrakok/mobicon/DeeplinkService.kt:32-56 | The decoded stack is `[EventsListScreen]` iff the location is blank; otherwise it is one event, or an event with one screen of that same event on top |
| Deeplink.UrlToStack | sharedUI/src/commonMain/kotlin/com/github/terrakok/mobicon/DeeplinkService.kt:30-57 | Every decoded stack has one or two screens and the decoded shape (a pair is `[EventScreen(e), X]` with X of event e) |
| Deeplink.NoEventMarkerOpensList | sharedUI/src/commonMain/kotlin/com/github/terrakok/mobicon/DeeplinkService.kt:31-35 | A URL without `#/event/` decodes to exactly `[EventsListScreen]` |
| Deeplink.ListOnlyIffBlank | sharedUI/src/commonMain/kotlin/com/github/terrakok/mobicon/DeeplinkService.kt:31-35 | The list alone is decoded iff the text after the first `#/event/` is blank |
| Deeplink.PrefixIgnored | sharedUI/src/commonMain/kotlin/com/github/terrakok/mobicon/DeeplinkService.kt:31 | Everything before the first `#/event/` is ignored |
| Deeplink.BareEventId | sharedUI/src/commonMain/kotlin/com/github/terrakok/mobicon/DeeplinkService.kt:52-55 | A non-blank location with no marker is kept verbatim as the event id |
| Deeplink.SessionBeatsInfo | sharedUI/src/commonMain/kotlin/com/github/terrakok/mobicon/DeeplinkService.kt:37-45 | `?session=` is tested first: any location containing it opens a session screen |
| Deeplink.InfoBeatsSpeaker | sharedUI/src/commonMain/kotlin/com/github/terrakok/mobicon/DeeplinkService.kt:42-50 | A speaker link whose speaker id contains `/info` opens the info screen instead |
| Deeplink.SecondSessionMarkerDropped | sharedUI/src/commonMain/kotlin/com/github/terrakok/mobicon/DeeplinkService.kt:38 | With `?session=` twice, only the first two split parts are used and the rest is dropped |
| Deeplink.SecondSpeakerMarkerDropped | sharedUI/src/commonMain/kotlin/com/github/terrakok/mobicon/DeeplinkService.kt:48 | With `?speaker=` twice, only the first two split parts are used and the rest is dropped |
| Deeplink.RoundTripEvent | sharedUI/src/commonMain/kotlin/com/github/terrakok/mobicon/DeeplinkService.kt:23-55 | Decoding the URL of an event with a non-blank plain id gives `[EventScreen(id)]` |
| Deeplink.RoundTripInfo | sharedUI/src/commonMain/kotlin/com/github/terrakok/mobicon/DeeplinkService.kt:24-45 | Decoding an info URL gives the event with its info screen on top |
| Deeplink.RoundTripSession | sharedUI/src/commonMain/kotlin/com/github/terrakok/mobicon/DeeplinkService.kt:25-40 | Decoding a session URL gives the event with the session on top |
| Deeplink.RoundTripSpeaker | sharedUI/src/commonMain/kotlin/com/github/terrakok/mobicon/DeeplinkService.kt:26-50 | Decoding a speaker URL gives the event with the speaker on top |
| Deeplink.RoundTrip | sharedUI/src/commonMain/kotlin/com/github/terrakok/mobicon/DeeplinkService.kt:22-56 | For every screen but the list, with plain ids, `urlToStack(screenToUrl(s))` is the screen alone (an event) or the screen above its event |
| RootViewModel.FirstEventId | sharedUI/src/commonMain/kotlin/com/github/terrakok/mobicon/ui/root/RootViewModel.kt:47 | `firstOrNull { it is EventScreen }`: none iff no event screen; otherwise the id of the first one |
| RootViewModel.StartFor | sharedUI/src/commonMain/kotlin/com/github/terrakok/mobicon/ui/root/RootViewModel.kt:41-53 | The start stack is never empty and well shaped, and no settings entry other than `lastEventId` changes |
| RootViewModel.LinkToEventRemembered | sharedUI/src/commonMain/kotlin/com/github/terrakok/mobicon/ui/root/RootViewModel.kt:46-51 | A non-blank link is returned as decoded, and its event's id is written under `lastEventId` |
| RootViewModel.BlankLinkReopensLastEvent | sharedUI/src/commonMain/kotlin/com/github/terrakok/mobicon/ui/root/RootViewModel.kt:43-45 | A list-only link gives `[EventScreen(saved)]` when an id is saved, else `[EventsListScreen]`; settings are unchanged |
| RootViewModel.LastEventSurvives | sharedUI/src/commonMain/kotlin/com/github/terrakok/mobicon/ui/root/RootViewModel.kt:43-51 | After a link to an event, a later blank link reopens that event |
| RootViewModel.RootViewModel.constructor | sharedUI/src/commonMain/kotlin/com/github/terrakok/mobicon/ui/root/RootViewModel.kt:25 | The view model starts with the given settings and an empty initial stack |
| RootViewModel.RootViewModel.SaveSelectedEvent | sharedUI/src/commonMain/kotlin/com/github/terrakok/mobicon/ui/root/RootViewModel.kt:37-39 | Only the `lastEventId` entry changes, and it becomes the event id |
| RootViewModel.RootViewModel.UrlToStack | sharedUI/src/commonMain/kotlin/com/github/terrakok/mobicon/ui/root/RootViewModel.kt:41-53 | Returns the start stack and leaves the settings as `StartFor` says |
| RootViewModel.RootViewModel.OnDeepLink | sharedUI/src/commonMain/kotlin/com/github/terrakok/mobicon/ui/root/RootViewModel.kt:30-33 | After a deep link the initial stack is exactly the computed stack; nothing earlier survives |
| RootContent.SameEventThroughout | sharedUI/src/commonMain/kotlin/com/github/terrakok/mobicon/ui/root/RootContent.kt:92-123 | In a well-formed stack, every screen that is not the list belongs to the event at the bottom |
| RootContent.StartIsWellFormed | sharedUI/src/commonMain/kotlin/com/github/terrakok/mobicon/ui/root/RootViewModel.kt:41-53 | Every start stack satisfies the navigation invariant |
| RootContent.Navigation.constructor | sharedUI/src/commonMain/kotlin/com/github/terrakok/mobicon/ui/root/RootContent.kt:61 | The navigation starts from the view model's initial stack |
| RootContent.Navigation.OnBack | sharedUI/src/commonMain/kotlin/com/github/terrakok/mobicon/ui/root/RootContent.kt:70-73 | Back pops only when more than one screen is left, so the stack never empties |
| RootContent.Navigation.OnEventClick | sharedUI/src/commonMain/kotlin/com/github/terrakok/mobicon/ui/root/RootContent.kt:92-96 | Choosing an event saves it and leaves exactly `[EventScreen(id)]` |
| RootContent.Navigation.OnSelectConferenceClick | sharedUI/src/commonMain/kotlin/com/github/terrakok/mobicon/ui/root/RootContent.kt:102 | Pushes the list of events; all earlier entries are unchanged |
| RootContent.Navigation.OnSessionClick | sharedUI/src/commonMain/kotlin/com/github/terrakok/mobicon/ui/root/RootContent.kt:103 | Pushes one session screen that carries the event id of the screen below |
| RootContent.Navigation.OnSpeakerClickFromSession | sharedUI/src/commonMain/kotlin/com/github/terrakok/mobicon/ui/root/RootContent.kt:112 | Pushes one speaker screen that carries the session's event id |
| RootContent.Navigation.OnSessionClickFromSpeaker | sharedUI/src/commonMain/kotlin/com/github/terrakok/mobicon/ui/root/RootContent.kt:122 | Pushes one session screen that carries the speaker's event id |
| RootContent.Navigation.OnPageClose | sharedUI/src/commonMain/kotlin/com/github/terrakok/mobicon/ui/root/RootContent.kt:113-123 | The unguarded pop of a session or speaker page always has something below it |
| RootContent.Launch | sharedUI/src/commonMain/kotlin/com/github/terrakok/mobicon/ui/root/RootContent.kt:59-61 | Nothing is shown while the initial stack is empty; otherwise the navigation starts from it |
| LegacyRootContent.LegacyNavigation.constructor | sharedUI/src/commonMain/kotlin/com/github/terrakok/mobicon/ui/RootContent.kt:51 | The initial stack is `[EmptyEvent, EventsList]` |
| LegacyRootContent.LegacyNavigation.OnBack | sharedUI/src/commonMain/kotlin/com/github/terrakok/mobicon/ui/RootContent.kt:60-63 | Back pops only when more than one entry is left |
| LegacyRootContent.LegacyNavigation.OnEventClick | sharedUI/src/commonMain/kotlin/com/github/terrakok/mobicon/ui/RootContent.kt:82-85 | Choosing an event leaves exactly `[Event(info)]` |
| LegacyRootContent.LegacyNavigation.OnSelectConferenceClick | sharedUI/src/commonMain/kotlin/com/github/terrakok/mobicon/ui/RootContent.kt:94 | Pushes the list on top and leaves the rest unchanged; the placeholder stays at the bottom only |
| EventSchedule.DaysByDate | sharedUI/src/commonMain/kotlin/com/github/terrakok/mobicon/ui/event/EventScreen.kt:49-67 | One day per distinct session date, each date present, in strictly ascending date order |
| EventSchedule.Days | sharedUI/src/commonMain/kotlin/com/github/terrakok/mobicon/ui/event/EventScreen.kt:49-67 | `groupBy` on the date, one day per date, then `sortedBy` the date; its properties are `DaysByDate` and `DayIsDayFor` |
| EventSchedule.DayFor | sharedUI/src/commonMain/kotlin/com/github/terrakok/mobicon/ui/event/EventScreen.kt:51-65 | The day of one date: an agenda per room of that date; its properties are `AgendasEncloseDay`, `FiledInItsRoom`, `OneAgendaPerRoom` and `AgendasInFirstSessionOrder` |
| EventSchedule.DayIsDayFor | sharedUI/src/commonMain/kotlin/com/github/terrakok/mobicon/ui/event/EventScreen.kt:49-67 | Each day of the schedule is the day built for its own date, a date some session starts on |
| EventSchedule.InitialDayEarliest | sharedUI/src/commonMain/kotlin/com/github/terrakok/mobicon/ui/event/EventScreen.kt:69 | The selected day is the earliest date of any session; `first()` fails iff there is no session |
| EventSchedule.InitialDay | sharedUI/src/commonMain/kotlin/com/github/terrakok/mobicon/ui/event/EventScreen.kt:69 | `days.first()`, failing on an empty list; its property is `InitialDayEarliest` |
| EventSchedule.AgendasEncloseDay | sharedUI/src/commonMain/kotlin/com/github/terrakok/mobicon/ui/event/EventScreen.kt:52-59 | Every room agenda runs from the earliest start of a session of the day to the latest end of one (bounds every session meets and some session attains), is non-empty, holds only that day's sessions of its room, and is sorted by start |
| EventSchedule.FiledInItsRoom | sharedUI/src/commonMain/kotlin/com/github/terrakok/mobicon/ui/event/EventScreen.kt:50-54 | A session of a day is in the agenda of its room, as many times as it occurs |
| EventSchedule.OneAgendaPerRoom | sharedUI/src/commonMain/kotlin/com/github/terrakok/mobicon/ui/event/EventScreen.kt:54 | No two agendas of a day share a room |
| EventSchedule.AgendasInFirstSessionOrder | sharedUI/src/commonMain/kotlin/com/github/terrakok/mobicon/ui/event/EventScreen.kt:54 | The room agendas follow `groupBy` key order: agenda k is for the k-th distinct room of the day, and for k < l the first session of agenda k's room comes earlier in the day's feed than that of agenda l's room |
| EventSchedule.SessionFiledOnce | sharedUI/src/commonMain/kotlin/com/github/terrakok/mobicon/ui/event/EventScreen.kt:50-54 | The days partition the sessions: each lies in the one day of its date, in its room's agenda |
| EventSchedule.Minus | sharedUI/src/commonMain/kotlin/com/github/terrakok/mobicon/ui/event/EventScreen.kt:172-173 | Time minus time is the whole-minute difference truncated toward zero, with the sign of the difference |
| EventSchedule.MinusSelf | sharedUI/src/commonMain/kotlin/com/github/terrakok/mobicon/ui/event/EventScreen.kt:172-173 | `a - a` is 0 |
| EventSchedule.MinusAntisymmetric | sharedUI/src/commonMain/kotlin/com/github/terrakok/mobicon/ui/event/EventScreen.kt:172-173 | `a - b == -(b - a)` |
| EventSchedule.MinusExact | sharedUI/src/commonMain/kotlin/com/github/terrakok/mobicon/ui/event/EventScreen.kt:172-173 | On whole minutes the difference is exact |
| EventSchedule.TimesAscending | sharedUI/src/commonMain/kotlin/com/github/terrakok/mobicon/ui/event/EventScreen.kt:93-97 | The timeline's times are strictly ascending, so each appears once |
| EventSchedule.TimesAreStarts | sharedUI/src/commonMain/kotlin/com/github/terrakok/mobicon/ui/event/EventScreen.kt:93-97 | A time is on the timeline iff some session of the day starts then |
| EventSchedule.Times | sharedUI/src/commonMain/kotlin/com/github/terrakok/mobicon/ui/event/EventScreen.kt:93-97 | The timeline's start times; its properties are `TimesAscending` and `TimesAreStarts` |
| EventSchedule.ShortestRegular | sharedUI/src/commonMain/kotlin/com/github/terrakok/mobicon/ui/event/EventScreen.kt:88-90 | None iff every session is a service session; otherwise the minimum length over regular sessions |
| EventSchedule.ScheduleHeight | sharedUI/src/commonMain/kotlin/com/github/terrakok/mobicon/ui/event/EventScreen.kt:86-91 | Fails iff there is no regular session or the shortest lasts 0 minutes; otherwise the quotient of 180 × span by the shortest length, truncated toward zero with its sign (positive iff span and shortest have the same sign), which always fits in 32 bits |
| EventSchedule.LayOutAgenda | sharedUI/src/commonMain/kotlin/com/github/terrakok/mobicon/ui/event/EventScreen.kt:142-166 | The loop builds the agenda column; its cards are the agenda's sessions in order and every gap is positive |
| EventSchedule.SlotsAt | sharedUI/src/commonMain/kotlin/com/github/terrakok/mobicon/ui/event/EventScreen.kt:147-165 | One session's share of the column: an optional pause, then its card; its property is `SlotsAtCards` |
| EventSchedule.Column | sharedUI/src/commonMain/kotlin/com/github/terrakok/mobicon/ui/event/EventScreen.kt:144-166 | The whole column with its trailing gap; its properties are `ColumnCards`, `ColumnGapsPositive` and `ColumnFillsDay` |
| EventSchedule.ColumnCards | sharedUI/src/commonMain/kotlin/com/github/terrakok/mobicon/ui/event/EventScreen.kt:142-166 | Removing the gaps from the column gives back exactly the agenda's sessions |
| EventSchedule.ColumnGapsPositive | sharedUI/src/commonMain/kotlin/com/github/terrakok/mobicon/ui/event/EventScreen.kt:144-166 | A gap is emitted only when it is positive |
| EventSchedule.ColumnFillsDay | sharedUI/src/commonMain/kotlin/com/github/terrakok/mobicon/ui/event/EventScreen.kt:144-166 | For non-overlapping sessions on whole minutes, the gaps and cards together weigh exactly the day's span |
| DataService.CleanText | sharedUI/src/commonMain/kotlin/com/github/terrakok/mobicon/DataService.kt:63-80 | The result is trimmed, empty iff the input is blank, and the trimmed text with its first character title-cased |
| DataService.OneLineAddress | sharedUI/src/commonMain/kotlin/com/github/terrakok/mobicon/DataService.kt:69-70 | No newline is left, and an address without a newline is unchanged |
| DataService.OneLineAddressJoins | sharedUI/src/commonMain/kotlin/com/github/terrakok/mobicon/DataService.kt:69-70 | Each newline becomes ", " between the text before and after it; with the clause above this fixes the address line by line |
| DataService.Normalize | sharedUI/src/commonMain/kotlin/com/github/terrakok/mobicon/DataService.kt:60-88 | Id, dates, banner, venue name and data URL are kept; title and description are `CleanText` of the raw ones; the address is `OneLineAddress` of the raw one |
| DataService.CleanTextIdempotent | sharedUI/src/commonMain/kotlin/com/github/terrakok/mobicon/DataService.kt:63-80 | Cleaning a cleaned title or description changes nothing |
| DataService.NormalizeIdempotent | sharedUI/src/commonMain/kotlin/com/github/terrakok/mobicon/DataService.kt:60-88 | Normalising a normalised record changes nothing |
| DataService.NormalizeAll | sharedUI/src/commonMain/kotlin/com/github/terrakok/mobicon/DataService.kt:60 | `map`: one normalised record per raw record, in order |
| DataService.AssociateBySpec | sharedUI/src/commonMain/kotlin/com/github/terrakok/mobicon/DataService.kt:90 | `associateBy { it.id }` has a key iff some record has that id; the value is the last record with it |
| DataService.AssociateBy | sharedUI/src/commonMain/kotlin/com/github/terrakok/mobicon/DataService.kt:90 | `associateBy { it.id }`; its properties are `AssociateBySpec` |
| DataService.PutAllOrderSpec | sharedUI/src/commonMain/kotlin/com/github/terrakok/mobicon/DataService.kt:90 | `putAll` keeps the old keys first and in order, adds new ids after them, and repeats none |
| DataService.PutAllOrder | sharedUI/src/commonMain/kotlin/com/github/terrakok/mobicon/DataService.kt:90 | The key order after `putAll`; its properties are `PutAllOrderSpec` and `PutAllKeepsShape` |
| DataService.PutAllKeepsShape | sharedUI/src/commonMain/kotlin/com/github/terrakok/mobicon/DataService.kt:90 | After `putAll` the key order and the map still agree, with no repeated key and each record under its own id |
| DataService.EventListSpec | sharedUI/src/commonMain/kotlin/com/github/terrakok/mobicon/DataService.kt:30 | The listed events are newest first and a permutation of the cached values |
| DataService.EventList | sharedUI/src/commonMain/kotlin/com/github/terrakok/mobicon/DataService.kt:30 | The cached values sorted by descending start; its properties are `EventListSpec` |
| DataService.KeepScheduled | sharedUI/src/commonMain/kotlin/com/github/terrakok/mobicon/DataService.kt:96-99 | Every kept session is scheduled, and a session of the input is kept iff it is scheduled |
| DataService.KeepScheduledCounts | sharedUI/src/commonMain/kotlin/com/github/terrakok/mobicon/DataService.kt:96-99 | A scheduled session is kept exactly as often as it occurs; nothing else is kept |
| DataService.KeepScheduledSnoc | sharedUI/src/commonMain/kotlin/com/github/terrakok/mobicon/DataService.kt:96-99 | One more session at the end of the feed is appended to the result iff it is scheduled |
| DataService.KeepScheduledAppend | sharedUI/src/commonMain/kotlin/com/github/terrakok/mobicon/DataService.kt:96-99 | The filter keeps the order: filtering two pieces and joining the results is filtering the whole |
| DataService.KeepScheduledAll | sharedUI/src/commonMain/kotlin/com/github/terrakok/mobicon/DataService.kt:96-99 | A list without unscheduled sessions is kept whole |
| DataService.WithoutUnscheduled | sharedUI/src/commonMain/kotlin/com/github/terrakok/mobicon/DataService.kt:96-101 | The sessions become `KeepScheduled` of the fetched ones; speakers, categories and rooms are kept |
| DataService.First | sharedUI/src/commonMain/kotlin/com/github/terrakok/mobicon/DataService.kt:44 | `first { }` returns the first match; it fails with the library's message iff nothing matches |
| DataService.AllItems | sharedUI/src/commonMain/kotlin/com/github/terrakok/mobicon/DataService.kt:53 | The items of all categories, and nothing else |
| DataService.AllItemsAppend | sharedUI/src/commonMain/kotlin/com/github/terrakok/mobicon/DataService.kt:53 | `flatMap` keeps the order: the items of two lists of categories are the items of the first, then of the second |
| DataService.AllItemsOne | sharedUI/src/commonMain/kotlin/com/github/terrakok/mobicon/DataService.kt:53 | The items of one category are its own items |
| DataService.SessionById | sharedUI/src/commonMain/kotlin/com/github/terrakok/mobicon/DataService.kt:43-44 | The first session with that id (none before it has the id); fails with the `first` message iff there is none |
| DataService.SpeakerById | sharedUI/src/commonMain/kotlin/com/github/terrakok/mobicon/DataService.kt:46-47 | The first speaker with that id (none before it has the id); fails with the `first` message iff there is none |
| DataService.RoomById | sharedUI/src/commonMain/kotlin/com/github/terrakok/mobicon/DataService.kt:49-50 | The first room with that id (none before it has the id); fails with the `first` message iff there is none |
| DataService.ItemWithId | sharedUI/src/commonMain/kotlin/com/github/terrakok/mobicon/DataService.kt:52-53 | The item returned sits at a position before which no item has that id (`FirstWithId`); fails with the `first` message iff no item has that id |
| DataService.CategoryItemById | sharedUI/src/commonMain/kotlin/com/github/terrakok/mobicon/DataService.kt:52-53 | The first item with that id in `AllItems` of the categories (`FirstWithId`); fails with the `first` message iff no category has one |
| DataService.FirstSessionWins | sharedUI/src/commonMain/kotlin/com/github/terrakok/mobicon/DataService.kt:43-44 | With repeated ids, the earliest session is the one returned |
| DataService.Cache.constructor | sharedUI/src/commonMain/kotlin/com/github/terrakok/mobicon/DataService.kt:25-26 | Both caches start empty |
| DataService.Cache.LoadEvents | sharedUI/src/commonMain/kotlin/com/github/terrakok/mobicon/DataService.kt:55-91 | Normalised records are added or overwrite by id; no existing key is removed; the data cache is untouched |
| DataService.Cache.GetEvents | sharedUI/src/commonMain/kotlin/com/github/terrakok/mobicon/DataService.kt:28-31 | Loads iff the cache is empty, and then the map is the old one plus the normalised feed keyed by id, in putAll key order; otherwise nothing changes; returns the cached events newest first, a permutation of the map's values |
| DataService.Cache.GetEventInfo | sharedUI/src/commonMain/kotlin/com/github/terrakok/mobicon/DataService.kt:33-36 | Loads only on a miss, putting the feed into the map and the key order; returns the record with that id, or fails with "Event with id … not found" |
| DataService.Cache.GetEventFullData | sharedUI/src/commonMain/kotlin/com/github/terrakok/mobicon/DataService.kt:38-41 | The new state is `FetchedFor` the old one: unchanged when the data is cached; otherwise the feed is loaded iff the event is unknown, and the data of a then-known event is fetched and stored without unscheduled sessions. Fails with "not found" iff the event is still unknown |
| DataService.Cache.GetSession | sharedUI/src/commonMain/kotlin/com/github/terrakok/mobicon/DataService.kt:43-44 | The state is `FetchedFor` the event; the result is `SessionById` of its data, or the not-found failure when the event stays unknown |
| DataService.Cache.GetSpeaker | sharedUI/src/commonMain/kotlin/com/github/terrakok/mobicon/DataService.kt:46-47 | The state is `FetchedFor` the event; the result is `SpeakerById` of its data, or the not-found failure when the event stays unknown |
| DataService.Cache.GetRoom | sharedUI/src/commonMain/kotlin/com/github/terrakok/mobicon/DataService.kt:49-50 | The state is `FetchedFor` the event; the result is `RoomById` of its data, or the not-found failure when the event stays unknown |
| DataService.Cache.GetCategoryItem | sharedUI/src/commonMain/kotlin/com/github/terrakok/mobicon/DataService.kt:52-53 | The state is `FetchedFor` the event; the result is `CategoryItemById` of its data, or the not-found failure when the event stays unknown |
| DesktopDialogScene.DialogMetadata | sharedUI/src/commonMain/kotlin/com/github/terrakok/mobicon/ui/DesktopDialogScene.kt:106-110 | `dialog()` is a map with the single key `desktop_dialog` holding the properties |
| DesktopDialogScene.Entries | sharedUI/src/commonMain/kotlin/com/github/terrakok/mobicon/ui/DesktopDialogScene.kt:31 | A dialog scene shows exactly its one entry |
| DesktopDialogScene.DropTrailingDialogs | sharedUI/src/commonMain/kotlin/com/github/terrakok/mobicon/ui/DesktopDialogScene.kt:98 | A prefix whose last entry is no dialog; every dropped entry is a dialog |
| DesktopDialogScene.CalculateScene | sharedUI/src/commonMain/kotlin/com/github/terrakok/mobicon/ui/DesktopDialogScene.kt:85-103 | A scene exists iff the width is at least 800, there are two or more entries, and the last one is a dialog; its key, entry, previous and overlaid entries are as built |
| DesktopDialogScene.OverlaidBelowDialog | sharedUI/src/commonMain/kotlin/com/github/terrakok/mobicon/ui/DesktopDialogScene.kt:97-98 | The overlaid entries are a prefix of the previous entries |
| DesktopDialogScene.DialogEntryOpensDialog | sharedUI/src/commonMain/kotlin/com/github/terrakok/mobicon/ui/DesktopDialogScene.kt:88-108 | Pushing an entry made with `dialog()` on a non-empty stack on a wide window opens it as a dialog |
| DesktopDialogScene.SceneEqualsIgnoresOnBack | sharedUI/src/commonMain/kotlin/com/github/terrakok/mobicon/ui/DesktopDialogScene.kt:46-57 | `equals` compares exactly key, previous and overlaid entries, entry and properties |
| DesktopDialogScene.SceneHash | sharedUI/src/commonMain/kotlin/com/github/terrakok/mobicon/ui/DesktopDialogScene.kt:59-65 | The hash is a 32-bit Int |
| DesktopDialogScene.EqualScenesHashEqually | sharedUI/src/commonMain/kotlin/com/github/terrakok/mobicon/ui/DesktopDialogScene.kt:46-65 | Equal scenes hash equally |
| DesktopDialogScene.SceneKeyInjective | sharedUI/src/commonMain/kotlin/com/github/terrakok/mobicon/ui/DesktopDialogScene.kt:95 | For content keys that do not end in a digit, the scene key determines the key and the entry count |
| TwoPaneScene.TwoPaneMetadata | sharedUI/src/commonMain/kotlin/com/github/terrakok/mobicon/ui/TwoPaneScene.kt:40-41 | `twoPane()` is a map with the single key `TwoPane` mapped to true |
| TwoPaneScene.Entries | sharedUI/src/commonMain/kotlin/com/github/terrakok/mobicon/ui/TwoPaneScene.kt:26 | The scene shows its first and second entries in order |
| TwoPaneScene.TakeLastTwo | sharedUI/src/commonMain/kotlin/com/github/terrakok/mobicon/ui/TwoPaneScene.kt:61 | `takeLast(2)` is the suffix of length min(2, size) |
| TwoPaneScene.CalculateScene | sharedUI/src/commonMain/kotlin/com/github/terrakok/mobicon/ui/TwoPaneScene.kt:55-82 | A scene exists iff the width reaches the breakpoint and the last two of at least two entries are both two-pane; it holds them in order, keyed by their content keys |
| TwoPaneScene.FirstPaneIsPrevious | sharedUI/src/commonMain/kotlin/com/github/terrakok/mobicon/ui/TwoPaneScene.kt:75 | The previous entries are all but the last, so they still end with the first pane |
| TwoPaneScene.TwoPaneEntriesPair | sharedUI/src/commonMain/kotlin/com/github/terrakok/mobicon/ui/TwoPaneScene.kt:40-71 | Two entries made with `twoPane()` on a wide window form a scene of exactly those two |
| EventsListPage.HeaderAtOrAbove | sharedUI/src/commonMain/kotlin/com/github/terrakok/mobicon/ui/events/EventsListPage.kt:86-87 | Every event has a header for its year at or above it |
| EventsListPage.ShowsYearHeader | sharedUI/src/commonMain/kotlin/com/github/terrakok/mobicon/ui/events/EventsListPage.kt:86-87 | A header above the first event and wherever the year changes; its properties are `HeaderAtOrAbove` and `OneHeaderPerYear` |
| EventsListPage.OneHeaderPerYear | sharedUI/src/commonMain/kotlin/com/github/terrakok/mobicon/ui/events/EventsListPage.kt:86-87 | Over the newest-first list, each year that occurs gets exactly one header |
| EventsListPage.DateText | sharedUI/src/commonMain/kotlin/com/github/terrakok/mobicon/ui/events/EventsListPage.kt:150-158 | The text starts with the formatted start; it is only that iff the dates are equal, and otherwise continues with " - " |
| EventsListPage.MonthsDifferShowBoth | sharedUI/src/commonMain/kotlin/com/github/terrakok/mobicon/ui/events/EventsListPage.kt:150-152 | Dates in different months give the formatted start, " - ", and the formatted end |
| EventsListPage.SameMonthShowsEndDay | sharedUI/src/commonMain/kotlin/com/github/terrakok/mobicon/ui/events/EventsListPage.kt:150-154 | Different dates in the same month give the formatted start, " - ", and the end's day |
| EventsListPage.MonthOnlyCompared | sharedUI/src/commonMain/kotlin/com/github/terrakok/mobicon/ui/events/EventsListPage.kt:151-154 | Different dates in the same month number give the formatted start and the end's day, even across years |
| EventsListPage.CardLineReadBack | sharedUI/src/commonMain/kotlin/com/github/terrakok/mobicon/ui/events/EventsListPage.kt:159-176 | The card line splits at its bullet back into the date text and the time text |
| EventsListPage.CardLine | sharedUI/src/commonMain/kotlin/com/github/terrakok/mobicon/ui/events/EventsListPage.kt:176 | The date text, the bullet and the time text; its property is `CardLineReadBack` |
| EventsListPage.CardText | sharedUI/src/commonMain/kotlin/com/github/terrakok/mobicon/ui/events/EventsListPage.kt:147-176 | The card line of an event from its start and end dates and start time |
| EventInfoPage.ShownEvent | sharedUI/src/commonMain/kotlin/com/github/terrakok/mobicon/ui/event/EventInfoPage.kt:69-71 | Details are shown iff not loading, without error, and with an event |
| EventInfoPage.DateLine | sharedUI/src/commonMain/kotlin/com/github/terrakok/mobicon/ui/event/EventInfoPage.kt:171-181 | The text is exactly the list's date range for the two dates, then ", ", then the start's year |
| EventInfoPage.MapsUrl | sharedUI/src/commonMain/kotlin/com/github/terrakok/mobicon/ui/event/EventInfoPage.kt:198-199 | The maps prefix, then the address with every space turned into `+` and nothing else changed |
| EventInfoPage.MapsUrlReadBack | sharedUI/src/commonMain/kotlin/com/github/terrakok/mobicon/ui/event/EventInfoPage.kt:198-199 | For an address without `+`, turning `+` back into spaces recovers the address |
| EventsListScreen.LocalFormat | sharedUI/src/commonMain/kotlin/com/github/terrakok/mobicon/ui/events/EventsListScreen.kt:45-49 | The format starts with the unpadded day |
| EventsListScreen.LocalFormatRoundTrip | sharedUI/src/commonMain/kotlin/com/github/terrakok/mobicon/ui/events/EventsListScreen.kt:45-49 | The day, a space and the full English month name read back as the day and the month |
| EventsListScreen.DateText | sharedUI/src/commonMain/kotlin/com/github/terrakok/mobicon/ui/events/EventsListScreen.kt:83-91 | The card's date range; its properties are `ScreenMonthsDiffer`, `ScreenSameMonth`, `SingleDateIffSameDay` and `DateTextEnds` |
| EventsListScreen.ScreenMonthsDiffer | sharedUI/src/commonMain/kotlin/com/github/terrakok/mobicon/ui/events/EventsListScreen.kt:83-85 | Dates in different months give both dates formatted, around " - " |
| EventsListScreen.ScreenSameMonth | sharedUI/src/commonMain/kotlin/com/github/terrakok/mobicon/ui/events/EventsListScreen.kt:83-87 | Different dates in the same month give the start's day, " - ", and the formatted end |
| EventsListScreen.SingleDateIffSameDay | sharedUI/src/commonMain/kotlin/com/github/terrakok/mobicon/ui/events/EventsListScreen.kt:83-91 | The range is a single date iff the two dates are equal |
| EventsListScreen.DateTextEnds | sharedUI/src/commonMain/kotlin/com/github/terrakok/mobicon/ui/events/EventsListScreen.kt:83-91 | In every case the range opens with the start's day and ends with the whole end date |
| EventsListScreen.DateLineShape | sharedUI/src/commonMain/kotlin/com/github/terrakok/mobicon/ui/events/EventsListScreen.kt:83-92 | The card line ends with the end date, a space, and the end's year |
| EventsListScreen.DateLine | sharedUI/src/commonMain/kotlin/com/github/terrakok/mobicon/ui/events/EventsListScreen.kt:92 | The range, a space and the end's year; its properties are `DateLineShape` and `YearsDifferAcrossPages` |
| EventsListScreen.YearsDifferAcrossPages | sharedUI/src/commonMain/kotlin/com/github/terrakok/mobicon/ui/events/EventsListScreen.kt:92 | Across a new year, the info page ends with the start's year and this screen with the end's, and they differ |
| EventsListScreen.DisplayTitle | sharedUI/src/commonMain/kotlin/com/github/terrakok/mobicon/ui/events/EventsListScreen.kt:72 | The title with its first character title-cased |
| EventsListScreen.LoadedTitleShownAsIs | sharedUI/src/commonMain/kotlin/com/github/terrakok/mobicon/ui/events/EventsListScreen.kt:72 | A title that came through the data service is shown unchanged |
| EventsListScreen.CardBackground | sharedUI/src/commonMain/kotlin/com/github/terrakok/mobicon/ui/events/EventsListScreen.kt:56 | The card colour is `AppColors.ColorFor` of the event id |
| Global.DayAbbreviation | sharedUI/src/commonMain/kotlin/com/github/terrakok/mobicon/Global.kt:21 | Three letters, the first uppercase and the rest lowercase |
| Global.MonthAbbreviation | sharedUI/src/commonMain/kotlin/com/github/terrakok/mobicon/Global.kt:22 | Three letters, the first uppercase and the rest lowercase |
| Global.DayShortString | sharedUI/src/commonMain/kotlin/com/github/terrakok/mobicon/Global.kt:19-24 | The shape "Day, Mon d" with the day of month unpadded |
| Global.DayAbbreviationRoundTrip | sharedUI/src/commonMain/kotlin/com/github/terrakok/mobicon/Global.kt:21 | The abbreviation identifies the day of the week |
| Global.MonthAbbreviationRoundTrip | sharedUI/src/commonMain/kotlin/com/github/terrakok/mobicon/Global.kt:22 | The abbreviation identifies the month |
| Global.DayShortStringInjective | sharedUI/src/commonMain/kotlin/com/github/terrakok/mobicon/Global.kt:23 | Equal texts mean the same weekday, month and day of month |
| AppColors.ColorFor | sharedUI/src/commonMain/kotlin/com/github/terrakok/mobicon/App.kt:24-33 | Indexes 0 to 3 of the 32-bit sum `%` 5 give Blue, Purple, Green, Yellow; every other index gives Orange |
| AppColors.IntCodeSum | sharedUI/src/commonMain/kotlin/com/github/terrakok/mobicon/App.kt:25 | The code sum in 32-bit Int arithmetic: always in range, and the exact sum while it stays below 2^31 |
| AppColors.EmptyIsBlue | sharedUI/src/commonMain/kotlin/com/github/terrakok/mobicon/App.kt:25-27 | The empty string is Blue |
| AppColors.NegativeSumBlueOrOrange | sharedUI/src/commonMain/kotlin/com/github/terrakok/mobicon/App.kt:25-31 | When the sum wraps negative, the colour is Blue or Orange |
| AppColors.ColorForPermutation | sharedUI/src/commonMain/kotlin/com/github/terrakok/mobicon/App.kt:25 | Strings with the same characters get the same colour |
| SpeakerPage.TitleToIcon | sharedUI/src/commonMain/kotlin/com/github/terrakok/mobicon/ui/speaker/SpeakerPage.kt:283-288 | Blog beats Twitter, which beats LinkedIn, on the lower-cased title; anything else gets the web icon |
| SpeakerPage.BlogWinsInAnyCase | sharedUI/src/commonMain/kotlin/com/github/terrakok/mobicon/ui/speaker/SpeakerPage.kt:284 | A title containing "blog" in any case gets the RSS icon |
| SpeakerPage.TwitterBeatsLinkedIn | sharedUI/src/commonMain/kotlin/com/github/terrakok/mobicon/ui/speaker/SpeakerPage.kt:285-286 | Without "blog", "twitter" wins over "linkedin" |
| SpeakerPage.IconIgnoresCase | sharedUI/src/commonMain/kotlin/com/github/terrakok/mobicon/ui/speaker/SpeakerPage.kt:284-287 | Titles that agree once lower-cased get the same icon |
| Collections.SortBySpec | sharedUI/src/commonMain/kotlin/com/github/terrakok/mobicon/ui/event/EventScreen.kt:59-67 | `sortedBy` gives a list ascending by key that is a permutation of the input |
| Collections.DistinctSpec | sharedUI/src/commonMain/kotlin/com/github/terrakok/mobicon/ui/event/EventScreen.kt:96 | `distinct` keeps exactly the input's elements, each once |
| Collections.DistinctOrder | sharedUI/src/commonMain/kotlin/com/github/terrakok/mobicon/ui/event/EventScreen.kt:96 | `distinct` keeps the elements in the order of their first appearance in the input |
| Collections.FirstIndex | sharedUI/src/commonMain/kotlin/com/github/terrakok/mobicon/ui/event/EventScreen.kt:96 | The position of the first occurrence: it holds the element and no earlier position does |
| Strings.SubstringAfter | sharedUI/src/commonMain/kotlin/com/github/terrakok/mobicon/DeeplinkService.kt:31 | The text after the first occurrence of the delimiter, or the default when the delimiter is missing |
| Strings.Split | sharedUI/src/commonMain/kotlin/com/github/terrakok/mobicon/DeeplinkService.kt:38-48 | At least one part, two or more iff the delimiter occurs; the text alone when it does not |
| Strings.SplitFirst | sharedUI/src/commonMain/kotlin/com/github/terrakok/mobicon/DeeplinkService.kt:38-48 | The first part is the text before the first delimiter |
| Strings.Trim | sharedUI/src/commonMain/kotlin/com/github/terrakok/mobicon/DataService.kt:63-64 | No whitespace at either end of the result, which is empty iff the input is blank |
| Strings.TrimIsSlice | sharedUI/src/commonMain/kotlin/com/github/terrakok/mobicon/DataService.kt:63-64 | The result is a slice of the input with only whitespace cut away before and after it |
| Strings.ReplaceChar | sharedUI/src/commonMain/kotlin/com/github/terrakok/mobicon/DataService.kt:70 | No occurrence of the character is left when the replacement lacks it, and a text without it is unchanged |
| Strings.ReplaceCharAppend | sharedUI/src/commonMain/kotlin/com/github/terrakok/mobicon/DataService.kt:70 | Replacement works piece by piece: replacing in a concatenation is concatenating the replacements |
| Strings.ReplaceCharHit | sharedUI/src/commonMain/kotlin/com/github/terrakok/mobicon/DataService.kt:70 | A lone occurrence of the character becomes the replacement |

## Left out

- All Compose rendering. This covers layouts, theming, images, `SessionPage.kt`, the loading widget and the scrollbar. It also covers the float weights and offsets of the agenda and the timeline's measure policy. Only the integer minutes are modelled.
- The view models other than `RootViewModel`, `ApiService.kt`, `DI.kt` and the platform entry points. These are coroutine launches, HTTP and JSON plumbing, and wiring.
- The `DataService` dispatcher and the HTTP/JSON fetches. Both fetches are parameters of the cache methods: a list of raw records, and a function from a data URL to event data. Failures inside the fetch are not modelled.
- Parsing dates from JSON, `InstantSerializer`, the `!!` on missing dates, and the time-zone conversion at `EventsListScreen.kt:80-81`.
- The library formatters `dateFormat` and `timeFormat` are not shown. They are function parameters. The day of the week of a date is passed in rather than computed.
- The expanded-width breakpoint of the two-pane strategy is a parameter.
- The equality and hash of navigation entries and of `DialogProperties` belong to the navigation library. The model uses structural equality, and the entry and properties hashes are parameters of `SceneHash`. Only three `DialogProperties` fields are modelled.
- `DesktopDialogScene.SceneHash`: states only that the hash is a 32-bit Int. The relation to the fields is given by `EqualScenesHashEqually`, because the component hashes are parameters.
- A content key is modelled by its text, which is what `toString` puts in the scene key.
- Case mapping covers ASCII letters only. Characters are Dafny `char`s rather than UTF-16 units. Character codes and string hashes use the code point.
- Times of day have whole-second precision.
- `vm.selectEvent`, called from `ui/root/RootContent.kt:93`, is defined nowhere. It is modelled as `saveSelectedEvent`.
- The navigation callbacks act on the top entry of the stack, which is the page whose callback fires.
- The `StateFlow` holder in `DeeplinkService.kt:15-19` and `ui/DeeplinkService.kt` hold reactive state with no logic.
- `Collections.SortBySpec`: does not state the tie order of the stable sort. The model's `SortBy` keeps it, but no contract relies on it.
- `EventSchedule.ColumnFillsDay`: holds for agendas whose sessions do not overlap and start and end on whole minutes. With overlaps, the source's gaps are dropped and the weights no longer add up.
- `EventsListScreen.DateLine`, `EventsListScreen.DateText` and `EventsListScreen.CardBackground` have no contract of their own. Their properties are the branch lemmas `ScreenMonthsDiffer`, `ScreenSameMonth` and `SingleDateIffSameDay`, then `DateLineShape`, `YearsDifferAcrossPages` and `AppColors.ColorFor`.
