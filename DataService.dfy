/** The app's data service: an in-memory cache of the event list and of each
    event's full data, filled from the remote sources on a miss, and the
    lookups by id on top of it. The remote fetches are parameters: what the
    event feed returns (already parsed into raw records) and what the data
    document at a URL holds. */
module DataService {
  import opened Common
  import opened Strings
  import opened Dates
  import opened Entities
  import opened Collections

  /** An event as the feed delivers it, before normalisation. */
  datatype RawEvent = RawEvent(
    id: string,
    title: string,
    description: string,
    startDate: DateTime,
    endDate: DateTime,
    bannerUrl: string,
    venueName: string,
    venueAddress: string,
    sessionizeDataUrl: string)

  const NoMatchMessage: string := "Collection contains no element matching the predicate."

  function NotFound(id: string): string {
    "Event with id " + id + " not found"
  }

  // ----- Normalisation on load -----

  /** Text with nothing to trim at either end. */
  predicate Trimmed(s: string) {
    s == [] || (!IsWhitespace(s[0]) && !IsWhitespace(s[|s| - 1]))
  }

  /** Title and description: trimmed, then the first character title-cased. */
  function CleanText(s: string): (r: string)
    ensures Trimmed(r)
    ensures |r| == |Trim(s)|
    ensures r == [] <==> IsBlank(s)
    ensures r != [] ==> r[0] == UpperChar(Trim(s)[0]) && r[1..] == Trim(s)[1..]
  {
    CapitalizeFirst(Trim(s))
  }

  /** The venue address with every line break turned into ", ". */
  function OneLineAddress(s: string): (r: string)
    ensures '\n' !in r
    ensures '\n' !in s ==> r == s
  {
    ReplaceChar(s, '\n', ", ")
  }

  /** Each line break, wherever it falls, becomes ", " between the
      surrounding lines; with the clause above this fixes the address
      line by line. */
  lemma OneLineAddressJoins(a: string, b: string)
    ensures OneLineAddress(a + "\n" + b) == OneLineAddress(a) + ", " + OneLineAddress(b)
  {
    ReplaceCharAppend(a + "\n", b, '\n', ", ");
    ReplaceCharAppend(a, "\n", '\n', ", ");
    ReplaceCharHit('\n', ", ");
  }

  function Normalize(e: RawEvent): (r: EventInfo)
    ensures r.id == e.id && r.startDate == e.startDate && r.endDate == e.endDate
    ensures r.bannerUrl == e.bannerUrl && r.venueName == e.venueName
    ensures r.sessionizeDataUrl == e.sessionizeDataUrl
    ensures r.title == CleanText(e.title) && r.description == CleanText(e.description)
    ensures r.venueAddress == OneLineAddress(e.venueAddress)
    ensures Trimmed(r.title) && Trimmed(r.description) && '\n' !in r.venueAddress
  {
    EventInfo(
      e.id, CleanText(e.title), CleanText(e.description), e.startDate, e.endDate,
      e.bannerUrl, e.venueName, OneLineAddress(e.venueAddress), e.sessionizeDataUrl)
  }

  /** An event record fed back in as raw. */
  function AsRaw(e: EventInfo): RawEvent {
    RawEvent(e.id, e.title, e.description, e.startDate, e.endDate,
      e.bannerUrl, e.venueName, e.venueAddress, e.sessionizeDataUrl)
  }

  lemma TrimTrimmed(s: string)
    requires Trimmed(s)
    ensures Trim(s) == s
  {
  }

  lemma UpperCharIdempotent(c: char)
    ensures UpperChar(UpperChar(c)) == UpperChar(c)
  {
  }

  /** Cleaning a title or description twice changes nothing more. */
  lemma CleanTextIdempotent(s: string)
    ensures CleanText(CleanText(s)) == CleanText(s)
  {
    var t := CleanText(s);
    TrimTrimmed(t);
    if t != [] {
      UpperCharIdempotent(Trim(s)[0]);
      var u := CleanText(t);
      assert u[0] == t[0] && u[1..] == t[1..];
      assert u == [u[0]] + u[1..];
      assert t == [t[0]] + t[1..];
    }
  }

  /** Normalising a record twice changes nothing more. */
  lemma NormalizeIdempotent(e: RawEvent)
    ensures Normalize(AsRaw(Normalize(e))) == Normalize(e)
  {
    CleanTextIdempotent(e.title);
    CleanTextIdempotent(e.description);
  }

  function NormalizeAll(raw: seq<RawEvent>): (r: seq<EventInfo>)
    ensures |r| == |raw|
    ensures forall i | 0 <= i < |raw| :: r[i] == Normalize(raw[i])
  {
    seq(|raw|, i requires 0 <= i < |raw| => Normalize(raw[i]))
  }

  // ----- Putting a batch of records into the cache -----

  /** `associateBy { it.id }`: each id to the last record carrying it. */
  function AssociateBy(es: seq<EventInfo>): map<string, EventInfo> {
    if es == [] then map[]
    else AssociateBy(es[..|es| - 1])[es[|es| - 1].id := es[|es| - 1]]
  }

  lemma AssociateBySpec(es: seq<EventInfo>, k: string)
    ensures k in AssociateBy(es) <==> exists i | 0 <= i < |es| :: es[i].id == k
    ensures k in AssociateBy(es) ==> AssociateBy(es)[k].id == k
    ensures k in AssociateBy(es) ==> exists i | 0 <= i < |es| ::
      es[i] == AssociateBy(es)[k] && forall j | i < j < |es| :: es[j].id != k
  {
    AssociateByKeys(es, k);
    if k in AssociateBy(es) {
      AssociateByLast(es, k);
    }
  }

  lemma {:induction false} AssociateByKeys(es: seq<EventInfo>, k: string)
    ensures k in AssociateBy(es) <==> exists i | 0 <= i < |es| :: es[i].id == k
    ensures k in AssociateBy(es) ==> AssociateBy(es)[k].id == k
  {
    if es != [] {
      var init := es[..|es| - 1];
      var n := |es| - 1;
      AssociateByKeys(init, k);
      if k in AssociateBy(es) && es[n].id != k {
        var i :| 0 <= i < |init| && init[i].id == k;
        assert es[i].id == k;
      }
      if k !in AssociateBy(es) {
        forall i | 0 <= i < |es| ensures es[i].id != k {
          if i < n { assert es[i] == init[i]; }
        }
      }
    }
  }

  lemma {:induction false} AssociateByLast(es: seq<EventInfo>, k: string)
    requires k in AssociateBy(es)
    ensures exists i | 0 <= i < |es| ::
      es[i] == AssociateBy(es)[k] && forall j | i < j < |es| :: es[j].id != k
  {
    var init := es[..|es| - 1];
    var n := |es| - 1;
    if es[n].id == k {
      assert es[n] == AssociateBy(es)[k];
    } else {
      assert k in AssociateBy(init);
      AssociateByLast(init, k);
      var i :| 0 <= i < |init| && init[i] == AssociateBy(init)[k] && forall j | i < j < |init| :: init[j].id != k;
      assert es[i] == AssociateBy(es)[k];
      assert forall j | i < j < |es| :: es[j].id != k by {
        forall j | i < j < |es| ensures es[j].id != k {
          if j < n { assert es[j] == init[j]; }
        }
      }
    }
  }

  /** The key order of the cache after the batch: keys already present keep
      their place, new ones follow in order of first appearance. */
  function PutAllOrder(order: seq<string>, es: seq<EventInfo>): seq<string> {
    if es == [] then order
    else
      var o := PutAllOrder(order, es[..|es| - 1]);
      if es[|es| - 1].id in o then o else o + [es[|es| - 1].id]
  }

  lemma {:induction false} PutAllOrderSpec(order: seq<string>, es: seq<EventInfo>)
    requires NoDuplicates(order)
    ensures NoDuplicates(PutAllOrder(order, es))
    ensures |order| <= |PutAllOrder(order, es)| && PutAllOrder(order, es)[..|order|] == order
    ensures forall k :: k in PutAllOrder(order, es) <==> (k in order || exists i | 0 <= i < |es| :: es[i].id == k)
  {
    if es != [] {
      var init := es[..|es| - 1];
      PutAllOrderSpec(order, init);
      var o := PutAllOrder(order, init);
      forall k ensures k in PutAllOrder(order, es) <==> (k in order || exists i | 0 <= i < |es| :: es[i].id == k) {
        if exists i | 0 <= i < |init| :: init[i].id == k {
          var i :| 0 <= i < |init| && init[i].id == k;
          assert es[i].id == k;
        }
        if exists i | 0 <= i < |es| :: es[i].id == k {
          var i :| 0 <= i < |es| && es[i].id == k;
          if i < |init| { assert init[i].id == k; }
        }
      }
    }
  }

  /** The values of the cache in its key order. */
  function ValuesInOrder(order: seq<string>, events: map<string, EventInfo>): (vs: seq<EventInfo>)
    requires forall k | k in order :: k in events
    ensures |vs| == |order|
    ensures forall i | 0 <= i < |order| :: vs[i] == events[order[i]]
  {
    seq(|order|, i requires 0 <= i < |order| => events[order[i]])
  }

  /** Putting a batch keeps the key order and the map in step, and keeps
      every record under its own id. */
  lemma PutAllKeepsShape(order: seq<string>, events: map<string, EventInfo>, es: seq<EventInfo>)
    requires NoDuplicates(order) && (forall k :: k in order <==> k in events)
    requires forall k | k in events :: events[k].id == k
    ensures NoDuplicates(PutAllOrder(order, es))
    ensures forall k :: k in PutAllOrder(order, es) <==> k in events + AssociateBy(es)
    ensures forall k | k in events + AssociateBy(es) :: (events + AssociateBy(es))[k].id == k
  {
    PutAllOrderSpec(order, es);
    forall k ensures k in PutAllOrder(order, es) <==> k in events + AssociateBy(es) {
      AssociateBySpec(es, k);
    }
    forall k | k in events + AssociateBy(es) ensures (events + AssociateBy(es))[k].id == k {
      AssociateBySpec(es, k);
    }
  }

  // ----- The list of events -----

  /** `sortedByDescending { it.startDate }` sorts by the negated key. */
  function NewestFirstKey(e: EventInfo): int { -DateTimeKey(e.startDate) }

  predicate NewestFirst(es: seq<EventInfo>) {
    forall i, j | 0 <= i < j < |es| :: DateTimeLessEq(es[j].startDate, es[i].startDate)
  }

  /** The list `getEvents` hands out: the cached values, newest first. */
  function EventList(order: seq<string>, events: map<string, EventInfo>): seq<EventInfo>
    requires forall k | k in order :: k in events
  {
    SortBy(ValuesInOrder(order, events), NewestFirstKey)
  }

  lemma EventListSpec(order: seq<string>, events: map<string, EventInfo>)
    requires forall k | k in order :: k in events
    ensures NewestFirst(EventList(order, events))
    ensures multiset(EventList(order, events)) == multiset(ValuesInOrder(order, events))
  {
    var vs := ValuesInOrder(order, events);
    var r := SortBy(vs, NewestFirstKey);
    SortBySpec(vs, NewestFirstKey);
    forall i, j | 0 <= i < j < |r| ensures DateTimeLessEq(r[j].startDate, r[i].startDate) {
      assert NewestFirstKey(r[i]) <= NewestFirstKey(r[j]);
      DateTimeKeyOrder(r[j].startDate, r[i].startDate);
    }
  }

  // ----- Event data -----

  /** A session whose start and end are both known. */
  predicate Scheduled(s: Session) {
    s.startsAt != DistantPast && s.endsAt != DistantPast
  }

  /** The sessions kept on load, in their order. */
  function KeepScheduled(ss: seq<Session>): (r: seq<Session>)
    ensures forall s | s in r :: Scheduled(s)
    ensures forall s | s in ss :: Scheduled(s) <==> s in r
    ensures |r| <= |ss|
  {
    if ss == [] then []
    else
      var rest := KeepScheduled(ss[..|ss| - 1]);
      var last := ss[|ss| - 1];
      assert forall s | s in ss :: s in ss[..|ss| - 1] || s == last;
      if Scheduled(last) then rest + [last] else rest
  }

  /** Every scheduled session is kept as often as it occurs, and no other
      session is kept. */
  lemma {:induction false} KeepScheduledCounts(ss: seq<Session>, s: Session)
    ensures multiset(KeepScheduled(ss))[s] == if Scheduled(s) then multiset(ss)[s] else 0
  {
    if ss != [] {
      var init := ss[..|ss| - 1];
      var last := ss[|ss| - 1];
      KeepScheduledCounts(init, s);
      assert ss == init + [last];
      if Scheduled(last) {
        assert KeepScheduled(ss) == KeepScheduled(init) + [last];
      } else {
        assert KeepScheduled(ss) == KeepScheduled(init);
      }
    }
  }

  /** Filtering a feed with one more session at its end. */
  lemma KeepScheduledSnoc(ss: seq<Session>, x: Session)
    ensures KeepScheduled(ss + [x]) == KeepScheduled(ss) + (if Scheduled(x) then [x] else [])
  {
    var t := ss + [x];
    assert t[..|t| - 1] == ss;
  }

  /** The filter keeps the order: filtering two pieces and joining them is
      filtering the whole. */
  lemma {:induction false} KeepScheduledAppend(a: seq<Session>, b: seq<Session>)
    ensures KeepScheduled(a + b) == KeepScheduled(a) + KeepScheduled(b)
    decreases |b|
  {
    if b == [] {
      assert a + b == a;
    } else {
      var init, last := b[..|b| - 1], b[|b| - 1];
      var tail := if Scheduled(last) then [last] else [];
      assert b == init + [last];
      assert a + b == (a + init) + [last];
      KeepScheduledAppend(a, init);
      KeepScheduledSnoc(a + init, last);
      KeepScheduledSnoc(init, last);
      assert KeepScheduled(a + b) == (KeepScheduled(a) + KeepScheduled(init)) + tail;
    }
  }

  /** Filtering a feed that has no unscheduled session keeps it whole. */
  lemma {:induction false} KeepScheduledAll(ss: seq<Session>)
    requires forall i | 0 <= i < |ss| :: Scheduled(ss[i])
    ensures KeepScheduled(ss) == ss
  {
    if ss != [] {
      KeepScheduledAll(ss[..|ss| - 1]);
      assert ss == ss[..|ss| - 1] + [ss[|ss| - 1]];
    }
  }

  function WithoutUnscheduled(d: EventFullData): (r: EventFullData)
    ensures r.speakers == d.speakers && r.categories == d.categories && r.rooms == d.rooms
    ensures r.sessions == KeepScheduled(d.sessions)
    ensures forall s | s in r.sessions :: Scheduled(s)
  {
    d.(sessions := KeepScheduled(d.sessions))
  }

  // ----- Lookups -----

  /** `first { … }`: the first element satisfying `p`. */
  function First<T(==)>(xs: seq<T>, p: T -> bool): (r: Result<T>)
    ensures r.Err? <==> forall i | 0 <= i < |xs| :: !p(xs[i])
    ensures r.Err? ==> r.message == NoMatchMessage
    ensures r.Ok? ==> exists i | 0 <= i < |xs| ::
      xs[i] == r.value && p(xs[i]) && forall j | 0 <= j < i :: !p(xs[j])
  {
    if xs == [] then Err(NoMatchMessage)
    else if p(xs[0]) then Ok(xs[0])
    else
      var r := First(xs[1..], p);
      assert forall i | 1 <= i < |xs| :: xs[i] == xs[1..][i - 1];
      if r.Ok? then
        var i :| 0 <= i < |xs[1..]| && xs[1..][i] == r.value && p(xs[1..][i]) && forall j | 0 <= j < i :: !p(xs[1..][j]);
        assert xs[i + 1] == r.value;
        r
      else r
  }

  /** `flatMap { it.items }`: the items of all categories, in order. */
  function AllItems(cs: seq<Category>): (items: seq<CategoryItem>)
    ensures forall c, x | c in cs && x in c.items :: x in items
    ensures forall x | x in items :: exists c | c in cs :: x in c.items
  {
    if cs == [] then []
    else
      var init := cs[..|cs| - 1];
      var rest := AllItems(init);
      assert forall c | c in cs :: c in init || c == cs[|cs| - 1];
      rest + cs[|cs| - 1].items
  }

  /** The items come category by category, in order. */
  lemma {:induction false} AllItemsAppend(a: seq<Category>, b: seq<Category>)
    ensures AllItems(a + b) == AllItems(a) + AllItems(b)
    decreases |b|
  {
    if b == [] {
      assert a + b == a;
    } else {
      var init := b[..|b| - 1];
      AllItemsAppend(a, init);
      assert (a + b)[..|a + b| - 1] == a + init;
      assert (a + b)[|a + b| - 1] == b[|b| - 1];
    }
  }

  lemma AllItemsOne(c: Category)
    ensures AllItems([c]) == c.items
  {
    assert [c][..0] == [];
  }

  function SessionById(d: EventFullData, id: string): (r: Result<Session>)
    ensures r.Ok? ==> r.value in d.sessions && r.value.id == id
    ensures r.Ok? ==> exists i | 0 <= i < |d.sessions| ::
      d.sessions[i] == r.value && forall j | 0 <= j < i :: d.sessions[j].id != id
    ensures r.Err? <==> forall s | s in d.sessions :: s.id != id
    ensures r.Err? ==> r.message == NoMatchMessage
  {
    First(d.sessions, (s: Session) => s.id == id)
  }

  function SpeakerById(d: EventFullData, id: string): (r: Result<Speaker>)
    ensures r.Ok? ==> r.value in d.speakers && r.value.id == id
    ensures r.Ok? ==> exists i | 0 <= i < |d.speakers| ::
      d.speakers[i] == r.value && forall j | 0 <= j < i :: d.speakers[j].id != id
    ensures r.Err? <==> forall s | s in d.speakers :: s.id != id
    ensures r.Err? ==> r.message == NoMatchMessage
  {
    First(d.speakers, (s: Speaker) => s.id == id)
  }

  function RoomById(d: EventFullData, id: int): (r: Result<Room>)
    ensures r.Ok? ==> r.value in d.rooms && r.value.id == id
    ensures r.Ok? ==> exists i | 0 <= i < |d.rooms| ::
      d.rooms[i] == r.value && forall j | 0 <= j < i :: d.rooms[j].id != id
    ensures r.Err? <==> forall x | x in d.rooms :: x.id != id
    ensures r.Err? ==> r.message == NoMatchMessage
  {
    First(d.rooms, (x: Room) => x.id == id)
  }

  /** `v` sits at a position of `items` before which no item has id `id`. */
  ghost predicate FirstWithId(items: seq<CategoryItem>, v: CategoryItem, id: int) {
    exists i | 0 <= i < |items| :: items[i] == v && forall j | 0 <= j < i :: items[j].id != id
  }

  /** `first { it.id == id }` over a list of category items. */
  function ItemWithId(items: seq<CategoryItem>, id: int): (r: Result<CategoryItem>)
    ensures r.Ok? ==> r.value in items && r.value.id == id
    ensures r.Ok? ==> FirstWithId(items, r.value, id)
    ensures r.Err? <==> forall x | x in items :: x.id != id
    ensures r.Err? ==> r.message == NoMatchMessage
  {
    First(items, (x: CategoryItem) => x.id == id)
  }

  function CategoryItemById(d: EventFullData, id: int): (r: Result<CategoryItem>)
    ensures r.Ok? ==> r.value.id == id && exists c | c in d.categories :: r.value in c.items
    ensures r.Ok? ==> FirstWithId(AllItems(d.categories), r.value, id)
    ensures r.Err? <==> forall c, x | c in d.categories && x in c.items :: x.id != id
    ensures r.Err? ==> r.message == NoMatchMessage
  {
    ItemWithId(AllItems(d.categories), id)
  }

  /** Two sessions with the same id: the lookup returns the one listed
      first. */
  lemma FirstSessionWins(d: EventFullData, i: int, j: int)
    requires 0 <= i < j < |d.sessions| && d.sessions[i].id == d.sessions[j].id
    requires forall k | 0 <= k < i :: d.sessions[k].id != d.sessions[i].id
    ensures SessionById(d, d.sessions[j].id) == Ok(d.sessions[i])
  {
    var r := SessionById(d, d.sessions[j].id);
    var p := (s: Session) => s.id == d.sessions[j].id;
    assert p(d.sessions[i]);
    var m :| 0 <= m < |d.sessions| && d.sessions[m] == r.value && p(d.sessions[m]) && forall k | 0 <= k < m :: !p(d.sessions[k]);
    assert m == i;
  }

  // ----- The cache -----

  class Cache {
    var events: map<string, EventInfo>
    /** The key order of the event map (insertion order). */
    var order: seq<string>
    var eventsData: map<string, EventFullData>

    ghost predicate Valid()
      reads this
    {
      && NoDuplicates(order)
      && (forall k :: k in order <==> k in events)
      && (forall k | k in events :: events[k].id == k)
      && (forall k, s | k in eventsData && s in eventsData[k].sessions :: Scheduled(s))
    }

    constructor()
      ensures Valid()
      ensures events == map[] && order == [] && eventsData == map[]
    {
      events := map[];
      order := [];
      eventsData := map[];
    }

    /** Loads the event feed and puts its normalised records into the cache,
        keyed by id; nothing is removed. */
    method LoadEvents(fetched: seq<RawEvent>)
      requires Valid()
      modifies this
      ensures Valid()
      ensures events == old(events) + AssociateBy(NormalizeAll(fetched))
      ensures order == PutAllOrder(old(order), NormalizeAll(fetched))
      ensures eventsData == old(eventsData)
      ensures old(events).Keys <= events.Keys
    {
      var data := NormalizeAll(fetched);
      var merged := events + AssociateBy(data);
      var newOrder := PutAllOrder(order, data);
      PutAllKeepsShape(order, events, data);
      assert forall k :: k in newOrder <==> k in merged;
      events := merged;
      order := newOrder;
    }

    /** The events, newest first; the feed is loaded only while the cache
        is empty. */
    method GetEvents(fetched: seq<RawEvent>) returns (r: seq<EventInfo>, loaded: bool)
      requires Valid()
      modifies this
      ensures Valid()
      ensures loaded <==> old(events) == map[]
      ensures !loaded ==> events == old(events) && order == old(order)
      ensures loaded ==> events == old(events) + AssociateBy(NormalizeAll(fetched))
      ensures loaded ==> order == PutAllOrder(old(order), NormalizeAll(fetched))
      ensures eventsData == old(eventsData)
      ensures r == EventList(order, events)
      ensures NewestFirst(r) && multiset(r) == multiset(ValuesInOrder(order, events))
    {
      loaded := events == map[];
      if loaded {
        LoadEvents(fetched);
      }
      r := SortBy(ValuesInOrder(order, events), NewestFirstKey);
      EventListSpec(order, events);
    }

    /** The event with the id; the feed is loaded only when the id is not
        cached, and an id still missing afterwards is an error. */
    method GetEventInfo(id: string, fetched: seq<RawEvent>) returns (r: Result<EventInfo>, loaded: bool)
      requires Valid()
      modifies this
      ensures Valid()
      ensures loaded <==> id !in old(events)
      ensures !loaded ==> events == old(events) && order == old(order) && r == Ok(old(events)[id])
      ensures loaded ==> events == old(events) + AssociateBy(NormalizeAll(fetched))
      ensures loaded ==> order == PutAllOrder(old(order), NormalizeAll(fetched))
      ensures eventsData == old(eventsData)
      ensures r.Ok? <==> id in events
      ensures r.Ok? ==> r.value == events[id] && r.value.id == id
      ensures r.Err? ==> r.message == NotFound(id)
    {
      loaded := id !in events;
      if loaded {
        LoadEvents(fetched);
      }
      if id in events {
        r := Ok(events[id]);
      } else {
        r := Err(NotFound(id));
      }
    }

    /** The state a lookup of the event `id` leaves behind, from the state
        before it: nothing changes when its data is cached; otherwise the
        feed is loaded first when the event itself is not cached, and the
        data of an event that is then known is fetched from its data URL
        and stored without its unscheduled sessions. */
    ghost predicate FetchedFor(events0: map<string, EventInfo>, order0: seq<string>,
      data0: map<string, EventFullData>, id: string, fetched: seq<RawEvent>,
      fetchData: string -> EventFullData)
      reads this
    {
      if id in data0 then
        events == events0 && order == order0 && eventsData == data0
      else
        && (if id in events0 then events == events0 && order == order0
            else (events == events0 + AssociateBy(NormalizeAll(fetched))
              && order == PutAllOrder(order0, NormalizeAll(fetched))))
        && eventsData == if id in events
          then data0[id := WithoutUnscheduled(fetchData(events[id].sessionizeDataUrl))]
          else data0
    }

    /** The full data of an event; on a miss it is fetched from the event's
        data URL and stored without its unscheduled sessions, and the call
        fails only when the event is still unknown after loading the feed. */
    method GetEventFullData(id: string, fetched: seq<RawEvent>, fetchData: string -> EventFullData)
      returns (r: Result<EventFullData>)
      requires Valid()
      modifies this
      ensures Valid()
      ensures FetchedFor(old(events), old(order), old(eventsData), id, fetched, fetchData)
      ensures r == if id in eventsData then Ok(eventsData[id]) else Err(NotFound(id))
      ensures r.Ok? ==> forall s | s in r.value.sessions :: Scheduled(s)
    {
      if id !in eventsData {
        var info, _ := GetEventInfo(id, fetched);
        if info.Err? {
          return Err(info.message);
        }
        eventsData := eventsData[id := WithoutUnscheduled(fetchData(info.value.sessionizeDataUrl))];
      }
      r := Ok(eventsData[id]);
    }

    /** The first session of the event with the id. */
    method GetSession(eventId: string, id: string, fetched: seq<RawEvent>, fetchData: string -> EventFullData)
      returns (r: Result<Session>)
      requires Valid()
      modifies this
      ensures Valid()
      ensures FetchedFor(old(events), old(order), old(eventsData), eventId, fetched, fetchData)
      ensures r == if eventId in eventsData then SessionById(eventsData[eventId], id) else Err(NotFound(eventId))
      ensures r.Ok? ==> r.value.id == id && Scheduled(r.value)
    {
      var data := GetEventFullData(eventId, fetched, fetchData);
      if data.Err? {
        return Err(data.message);
      }
      r := SessionById(data.value, id);
    }

    /** The first speaker of the event with the id. */
    method GetSpeaker(eventId: string, id: string, fetched: seq<RawEvent>, fetchData: string -> EventFullData)
      returns (r: Result<Speaker>)
      requires Valid()
      modifies this
      ensures Valid()
      ensures FetchedFor(old(events), old(order), old(eventsData), eventId, fetched, fetchData)
      ensures r == if eventId in eventsData then SpeakerById(eventsData[eventId], id) else Err(NotFound(eventId))
    {
      var data := GetEventFullData(eventId, fetched, fetchData);
      if data.Err? {
        return Err(data.message);
      }
      r := SpeakerById(data.value, id);
    }

    /** The first room of the event with the id. */
    method GetRoom(eventId: string, id: int, fetched: seq<RawEvent>, fetchData: string -> EventFullData)
      returns (r: Result<Room>)
      requires Valid()
      modifies this
      ensures Valid()
      ensures FetchedFor(old(events), old(order), old(eventsData), eventId, fetched, fetchData)
      ensures r == if eventId in eventsData then RoomById(eventsData[eventId], id) else Err(NotFound(eventId))
    {
      var data := GetEventFullData(eventId, fetched, fetchData);
      if data.Err? {
        return Err(data.message);
      }
      r := RoomById(data.value, id);
    }

    /** The first category item of the event with the id, searching the
        categories in order. */
    method GetCategoryItem(eventId: string, id: int, fetched: seq<RawEvent>, fetchData: string -> EventFullData)
      returns (r: Result<CategoryItem>)
      requires Valid()
      modifies this
      ensures Valid()
      ensures FetchedFor(old(events), old(order), old(eventsData), eventId, fetched, fetchData)
      ensures r == if eventId in eventsData then CategoryItemById(eventsData[eventId], id) else Err(NotFound(eventId))
    {
      var data := GetEventFullData(eventId, fetched, fetchData);
      if data.Err? {
        return Err(data.message);
      }
      r := CategoryItemById(data.value, id);
    }
  }
}
