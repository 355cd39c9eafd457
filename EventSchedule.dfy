/** The schedule of an event: its sessions filed into days and, within a day,
    into one agenda per room; the timeline of start times beside them; the
    height of the schedule; and the column of gaps and session cards each
    agenda lays out. */
module EventSchedule {
  import opened Common
  import opened Dates
  import opened Entities
  import opened Collections

  // ----- Keys -----

  function SessionDate(s: Session): Date { s.startsAt.date }
  function SessionRoom(s: Session): Option<int> { s.roomId }
  function StartTime(s: Session): int { s.startsAt.time }
  function EndTime(s: Session): int { s.endsAt.time }
  function StartKey(s: Session): int { DateTimeKey(s.startsAt) }

  // ----- The projections and buckets the grouping uses -----

  function SessionDates(all: seq<Session>): (r: seq<Date>)
    ensures |r| == |all|
    ensures forall i | 0 <= i < |all| :: r[i] == SessionDate(all[i])
  {
    if all == [] then [] else [SessionDate(all[0])] + SessionDates(all[1..])
  }

  function StartTimes(ss: seq<Session>): (r: seq<int>)
    ensures |r| == |ss|
    ensures forall i | 0 <= i < |ss| :: r[i] == StartTime(ss[i])
  {
    if ss == [] then [] else [StartTime(ss[0])] + StartTimes(ss[1..])
  }

  function EndTimes(ss: seq<Session>): (r: seq<int>)
    ensures |r| == |ss|
    ensures forall i | 0 <= i < |ss| :: r[i] == EndTime(ss[i])
  {
    if ss == [] then [] else [EndTime(ss[0])] + EndTimes(ss[1..])
  }

  function RoomIds(ss: seq<Session>): (r: seq<Option<int>>)
    ensures |r| == |ss|
    ensures forall i | 0 <= i < |ss| :: r[i] == ss[i].roomId
  {
    if ss == [] then [] else [ss[0].roomId] + RoomIds(ss[1..])
  }

  /** The `groupBy` bucket of a date: the sessions starting on it, in
      order. */
  function OnDate(all: seq<Session>, date: Date): seq<Session> {
    if all == [] then []
    else OnDate(all[..|all| - 1], date) + (if SessionDate(all[|all| - 1]) == date then [all[|all| - 1]] else [])
  }

  /** A date's bucket holds each session of that date as often as the
      schedule does, and nothing else. */
  lemma {:induction false} OnDateCount(all: seq<Session>, date: Date)
    ensures forall s :: multiset(OnDate(all, date))[s] == if SessionDate(s) == date then multiset(all)[s] else 0
  {
    if all != [] {
      OnDateCount(all[..|all| - 1], date);
      assert all == all[..|all| - 1] + [all[|all| - 1]];
    }
  }

  /** The `groupBy` bucket of a room. */
  function InRoom(day: seq<Session>, roomId: Option<int>): seq<Session> {
    if day == [] then []
    else InRoom(day[..|day| - 1], roomId) + (if day[|day| - 1].roomId == roomId then [day[|day| - 1]] else [])
  }

  lemma {:induction false} InRoomCount(day: seq<Session>, roomId: Option<int>)
    ensures forall s :: multiset(InRoom(day, roomId))[s] == if s.roomId == roomId then multiset(day)[s] else 0
  {
    if day != [] {
      InRoomCount(day[..|day| - 1], roomId);
      assert day == day[..|day| - 1] + [day[|day| - 1]];
    }
  }

  // ----- Days and room agendas -----

  /** One room's share of a day: its sessions and the day's bounds. */
  datatype RoomAgenda = RoomAgenda(roomId: Option<int>, startTime: int, endTime: int, sessions: seq<Session>)

  datatype DaySessions = DaySessions(date: Date, roomAgendas: seq<RoomAgenda>)

  /** The sessions of `all` on a date that some session starts on. */
  function SessionsOn(all: seq<Session>, date: Date): (day: seq<Session>)
    requires date in SessionDates(all)
    ensures |day| > 0
  {
    var day := OnDate(all, date);
    var i :| 0 <= i < |all| && SessionDates(all)[i] == date;
    OnDateCount(all, date);
    assert all[i] in multiset(all);
    assert all[i] in multiset(day);
    day
  }

  /** The agenda of one room of a day, its sessions ordered by start. */
  function AgendaFor(day: seq<Session>, roomId: Option<int>, startTime: int, endTime: int): RoomAgenda {
    RoomAgenda(roomId, startTime, endTime, SortBy(InRoom(day, roomId), StartKey))
  }

  /** The agendas of the given rooms, all with the same bounds. */
  function AgendasFor(day: seq<Session>, rooms: seq<Option<int>>, startTime: int, endTime: int): (r: seq<RoomAgenda>)
    ensures |r| == |rooms|
  {
    if rooms == [] then []
    else [AgendaFor(day, rooms[0], startTime, endTime)] + AgendasFor(day, rooms[1..], startTime, endTime)
  }

  lemma {:induction false} AgendasForAt(day: seq<Session>, rooms: seq<Option<int>>, startTime: int, endTime: int, k: int)
    requires 0 <= k < |rooms|
    ensures AgendasFor(day, rooms, startTime, endTime)[k] == AgendaFor(day, rooms[k], startTime, endTime)
  {
    if k > 0 {
      AgendasForAt(day, rooms[1..], startTime, endTime, k - 1);
    }
  }

  /** The earliest start of a day's sessions. */
  function DayStart(day: seq<Session>): int
    requires |day| > 0
  {
    MinOf(StartTimes(day))
  }

  /** The latest end of a day's sessions. */
  function DayEnd(day: seq<Session>): int
    requires |day| > 0
  {
    MaxOf(EndTimes(day))
  }

  /** The rooms of a day, in the order of their first session. */
  function RoomsOf(day: seq<Session>): seq<Option<int>> {
    Distinct(RoomIds(day))
  }

  /** The day of a date: one agenda per room, every one of them carrying
      the day's earliest start and latest end. */
  function DayFor(all: seq<Session>, date: Date): DaySessions
    requires date in SessionDates(all)
  {
    var day := SessionsOn(all, date);
    DaySessions(date, AgendasFor(day, RoomsOf(day), DayStart(day), DayEnd(day)))
  }

  /** One day per date, in the order of the dates. */
  function DaysFor(all: seq<Session>, dates: seq<Date>): (r: seq<DaySessions>)
    requires forall d | d in dates :: d in SessionDates(all)
    ensures |r| == |dates|
  {
    seq(|dates|, i requires 0 <= i < |dates| => DayFor(all, dates[i]))
  }

  function DayKey(d: DaySessions): int { DateKey(d.date) }

  function DatesOf(all: seq<Session>): seq<Date> {
    Distinct(SessionDates(all))
  }

  lemma DatesOfSpec(all: seq<Session>)
    ensures forall d | d in DatesOf(all) :: d in SessionDates(all)
    ensures forall d | d in SessionDates(all) :: d in DatesOf(all)
    ensures NoDuplicates(DatesOf(all))
  {
    DistinctSpec(SessionDates(all));
  }

  /** The days of the schedule (`groupBy` on the date, then `sortedBy` the
      date). */
  function Days(all: seq<Session>): seq<DaySessions> {
    DatesOfSpec(all);
    SortBy(DaysFor(all, DatesOf(all)), DayKey)
  }

  /** There is one day per date some session starts on, and the days are
      in strictly ascending order of date. */
  lemma DaysByDate(all: seq<Session>)
    ensures var days := Days(all);
      forall i | 0 <= i < |days| :: days[i].date in SessionDates(all)
    ensures var days := Days(all);
      forall d | d in SessionDates(all) :: exists i | 0 <= i < |days| :: days[i].date == d
    ensures var days := Days(all);
      forall i, j | 0 <= i < j < |days| :: DateLess(days[i].date, days[j].date)
  {
    DatesOfSpec(all);
    var dates := DatesOf(all);
    var unsorted := DaysFor(all, dates);
    SortBySpec(unsorted, DayKey);
    forall k | 0 <= k < |dates| ensures unsorted[k].date == dates[k] {
    }
    SortedDays(dates, unsorted, Days(all));
  }

  /** Days built one per distinct date and then sorted by date come out one
      per date and strictly ascending. */
  lemma SortedDays(dates: seq<Date>, unsorted: seq<DaySessions>, days: seq<DaySessions>)
    requires NoDuplicates(dates)
    requires |unsorted| == |dates| && forall k | 0 <= k < |dates| :: unsorted[k].date == dates[k]
    requires SortedBy(days, DayKey) && multiset(days) == multiset(unsorted)
    ensures forall i | 0 <= i < |days| :: days[i].date in dates
    ensures forall d | d in dates :: exists i | 0 <= i < |days| :: days[i].date == d
    ensures forall i, j | 0 <= i < j < |days| :: DateLess(days[i].date, days[j].date)
  {
    forall i | 0 <= i < |days| ensures days[i].date in dates {
      var k := DayIndex(dates, unsorted, days, i);
    }
    forall d | d in dates
      ensures exists i | 0 <= i < |days| :: days[i].date == d
    {
      var k :| 0 <= k < |dates| && dates[k] == d;
      assert unsorted[k] in multiset(days);
      var i :| 0 <= i < |days| && days[i] == unsorted[k];
    }
    forall i, j | 0 <= i < j < |days|
      ensures DateLess(days[i].date, days[j].date)
    {
      DaysApart(dates, unsorted, days, i, j);
    }
  }

  /** Where a sorted day came from among the unsorted ones. */
  lemma DayIndex(dates: seq<Date>, unsorted: seq<DaySessions>, days: seq<DaySessions>, i: int) returns (k: int)
    requires |unsorted| == |dates| && forall k | 0 <= k < |dates| :: unsorted[k].date == dates[k]
    requires multiset(days) == multiset(unsorted)
    requires 0 <= i < |days|
    ensures 0 <= k < |dates| && unsorted[k] == days[i] && dates[k] == days[i].date
  {
    assert days[i] in multiset(unsorted);
    k :| 0 <= k < |unsorted| && unsorted[k] == days[i];
  }

  lemma DaysApart(dates: seq<Date>, unsorted: seq<DaySessions>, days: seq<DaySessions>, i: int, j: int)
    requires NoDuplicates(dates)
    requires |unsorted| == |dates| && forall k | 0 <= k < |dates| :: unsorted[k].date == dates[k]
    requires SortedBy(days, DayKey) && multiset(days) == multiset(unsorted)
    requires 0 <= i < j < |days|
    ensures DateLess(days[i].date, days[j].date)
  {
    assert DayKey(days[i]) <= DayKey(days[j]);
    DateKeyOrder(days[i].date, days[j].date);
    var ki := DayIndex(dates, unsorted, days, i);
    var kj := DayIndex(dates, unsorted, days, j);
    assert NoDuplicates(unsorted) by {
      forall a, b | 0 <= a < b < |unsorted| ensures unsorted[a] != unsorted[b] {
        assert unsorted[a].date == dates[a] && unsorted[b].date == dates[b];
      }
    }
    PermutationKeepsDistinct(unsorted, days, i, j);
    if days[i].date == days[j].date {
      assert false;
    }
  }

  /** Each day of the schedule is the day built for its date. */
  lemma DayIsDayFor(all: seq<Session>, i: int)
    requires 0 <= i < |Days(all)|
    ensures Days(all)[i].date in SessionDates(all)
    ensures Days(all)[i] == DayFor(all, Days(all)[i].date)
  {
    DatesOfSpec(all);
    var unsorted := DaysFor(all, DatesOf(all));
    SortBySpec(unsorted, DayKey);
    assert Days(all)[i] in multiset(unsorted);
    var k :| 0 <= k < |unsorted| && unsorted[k] == Days(all)[i];
    assert unsorted[k] == DayFor(all, DatesOf(all)[k]);
  }

  /** The day the schedule opens on (`days.first()`), which fails on an
      event without sessions. */
  function InitialDay(all: seq<Session>): Result<DaySessions> {
    var days := Days(all);
    if days == [] then Err("List is empty.") else Ok(days[0])
  }

  /** The schedule opens on the earliest day of the event, and fails only
      when there is no session at all. */
  lemma InitialDayEarliest(all: seq<Session>)
    ensures InitialDay(all).Err? <==> all == []
    ensures var r := InitialDay(all);
      r.Ok? ==> r.value.date in SessionDates(all) && forall s | s in all :: DateLessEq(r.value.date, SessionDate(s))
  {
    DaysByDate(all);
    var days := Days(all);
    if all != [] {
      assert SessionDates(all)[0] in SessionDates(all);
    }
    if days != [] {
      EarliestDay(all, days);
    }
  }

  lemma EarliestDay(all: seq<Session>, days: seq<DaySessions>)
    requires days == Days(all) && |days| > 0
    ensures forall s | s in all :: DateLessEq(days[0].date, SessionDate(s))
  {
    DaysByDate(all);
    forall s | s in all ensures DateLessEq(days[0].date, SessionDate(s)) {
      var k :| 0 <= k < |all| && all[k] == s;
      assert SessionDates(all)[k] == SessionDate(s);
      assert SessionDate(s) in SessionDates(all);
      var i :| 0 <= i < |days| && days[i].date == SessionDate(s);
      if i > 0 {
        assert DateLess(days[0].date, days[i].date);
      }
    }
  }

  // ----- Properties of a day -----

  /** Every room agenda of a day runs from the day's earliest start to its
      latest end (bounds every session of the day meets, and that some
      session attains), holds at least one session, and holds only that
      day's sessions of its own room, ordered by start. */
  lemma AgendasEncloseDay(all: seq<Session>, date: Date, k: int)
    requires date in SessionDates(all)
    requires 0 <= k < |DayFor(all, date).roomAgendas|
    ensures var day := SessionsOn(all, date);
      var a := DayFor(all, date).roomAgendas[k];
      && (forall s | s in day :: a.startTime <= StartTime(s) && EndTime(s) <= a.endTime)
      && (exists s | s in day :: StartTime(s) == a.startTime)
      && (exists s | s in day :: EndTime(s) == a.endTime)
      && |a.sessions| > 0
      && (forall s | s in a.sessions :: s in all && SessionDate(s) == date && s.roomId == a.roomId)
      && SortedBy(a.sessions, StartKey)
  {
    AgendaBoundsAttained(all, date, k);
    AgendaContents(all, date, k);
  }

  /** The bounds of an agenda are the start and end of some session of the
      day, and its room has a session that day. */
  lemma AgendaBoundsAttained(all: seq<Session>, date: Date, k: int)
    requires date in SessionDates(all)
    requires 0 <= k < |DayFor(all, date).roomAgendas|
    ensures var day := SessionsOn(all, date);
      var a := DayFor(all, date).roomAgendas[k];
      && (exists s | s in day :: StartTime(s) == a.startTime)
      && (exists s | s in day :: EndTime(s) == a.endTime)
      && |a.sessions| > 0
  {
    var day := SessionsOn(all, date);
    var rooms := RoomsOf(day);
    var a := DayFor(all, date).roomAgendas[k];
    AgendasForAt(day, rooms, DayStart(day), DayEnd(day), k);
    MinOfSpec(StartTimes(day));
    var i :| 0 <= i < |day| && StartTimes(day)[i] == a.startTime;
    assert StartTime(day[i]) == a.startTime;
    MaxOfSpec(EndTimes(day));
    var j :| 0 <= j < |day| && EndTimes(day)[j] == a.endTime;
    assert EndTime(day[j]) == a.endTime;
    DistinctSpec(RoomIds(day));
    assert a.roomId in RoomIds(day);
    var m :| 0 <= m < |day| && RoomIds(day)[m] == a.roomId;
    InRoomCount(day, a.roomId);
    assert day[m] in multiset(day);
    assert day[m] in multiset(InRoom(day, a.roomId));
    SortBySpec(InRoom(day, a.roomId), StartKey);
    assert day[m] in multiset(a.sessions);
  }

  lemma AgendaContents(all: seq<Session>, date: Date, k: int)
    requires date in SessionDates(all)
    requires 0 <= k < |DayFor(all, date).roomAgendas|
    ensures var day := SessionsOn(all, date);
      var a := DayFor(all, date).roomAgendas[k];
      && (forall s | s in day :: a.startTime <= StartTime(s) && EndTime(s) <= a.endTime)
      && (forall s | s in a.sessions :: s in all && SessionDate(s) == date && s.roomId == a.roomId)
      && SortedBy(a.sessions, StartKey)
  {
    var day := SessionsOn(all, date);
    var rooms := RoomsOf(day);
    var a := DayFor(all, date).roomAgendas[k];
    AgendasForAt(day, rooms, DayStart(day), DayEnd(day), k);
    MinOfSpec(StartTimes(day));
    MaxOfSpec(EndTimes(day));
    forall s | s in day ensures a.startTime <= StartTime(s) && EndTime(s) <= a.endTime {
      var i :| 0 <= i < |day| && day[i] == s;
      assert StartTimes(day)[i] == StartTime(s);
      assert EndTimes(day)[i] == EndTime(s);
    }
    SortBySpec(InRoom(day, a.roomId), StartKey);
    InRoomCount(day, a.roomId);
    OnDateCount(all, date);
    forall s | s in a.sessions ensures s in all && SessionDate(s) == date && s.roomId == a.roomId {
      assert s in multiset(a.sessions);
      assert s in multiset(day);
    }
  }

  /** Within a day, a session is filed, as often as it occurs there, in the
      agenda of its room. */
  lemma FiledInItsRoom(all: seq<Session>, date: Date, s: Session)
    requires date in SessionDates(all)
    requires s in all && SessionDate(s) == date
    ensures var agendas := DayFor(all, date).roomAgendas;
      exists k | 0 <= k < |agendas| ::
        agendas[k].roomId == s.roomId && multiset(agendas[k].sessions)[s] == multiset(all)[s]
  {
    var day := SessionsOn(all, date);
    var rooms := RoomsOf(day);
    var agendas := DayFor(all, date).roomAgendas;
    OnDateCount(all, date);
    assert s in multiset(day);
    var m :| 0 <= m < |day| && day[m] == s;
    assert RoomIds(day)[m] == s.roomId;
    assert s.roomId in RoomIds(day);
    DistinctSpec(RoomIds(day));
    var k :| 0 <= k < |rooms| && rooms[k] == s.roomId;
    AgendasForAt(day, rooms, DayStart(day), DayEnd(day), k);
    SortBySpec(InRoom(day, s.roomId), StartKey);
    InRoomCount(day, s.roomId);
    assert agendas[k].roomId == s.roomId;
  }

  /** No two agendas of a day share a room. */
  lemma OneAgendaPerRoom(all: seq<Session>, date: Date)
    requires date in SessionDates(all)
    ensures var agendas := DayFor(all, date).roomAgendas;
      forall k, l | 0 <= k < l < |agendas| :: agendas[k].roomId != agendas[l].roomId
  {
    var day := SessionsOn(all, date);
    var rooms := RoomsOf(day);
    var agendas := DayFor(all, date).roomAgendas;
    DistinctSpec(RoomIds(day));
    forall k, l | 0 <= k < l < |agendas| ensures agendas[k].roomId != agendas[l].roomId {
      AgendasForAt(day, rooms, DayStart(day), DayEnd(day), k);
      AgendasForAt(day, rooms, DayStart(day), DayEnd(day), l);
    }
  }

  /** The room columns come in `groupBy` key order: the agenda of each room
      stands before that of every room whose first session of the day comes
      later in the feed. */
  lemma AgendasInFirstSessionOrder(all: seq<Session>, date: Date, k: int, l: int)
    requires date in SessionDates(all)
    requires 0 <= k < l < |DayFor(all, date).roomAgendas|
    ensures var day := SessionsOn(all, date);
      var agendas := DayFor(all, date).roomAgendas;
      && agendas[k].roomId == RoomsOf(day)[k] && agendas[l].roomId == RoomsOf(day)[l]
      && agendas[k].roomId in RoomIds(day) && agendas[l].roomId in RoomIds(day)
      && FirstIndex(RoomIds(day), agendas[k].roomId) < FirstIndex(RoomIds(day), agendas[l].roomId)
  {
    var day := SessionsOn(all, date);
    var rooms := RoomsOf(day);
    AgendasForAt(day, rooms, DayStart(day), DayEnd(day), k);
    AgendasForAt(day, rooms, DayStart(day), DayEnd(day), l);
    DistinctOrder(RoomIds(day));
  }

  /** The schedule partitions the sessions: each session lies in exactly one
      day, the one of its date, and there in the agenda of its room. */
  lemma SessionFiledOnce(all: seq<Session>, s: Session)
    requires s in all
    ensures var days := Days(all);
      exists i | 0 <= i < |days| :: days[i].date == SessionDate(s)
    ensures var days := Days(all);
      forall i | 0 <= i < |days| && days[i].date == SessionDate(s) ::
        exists k | 0 <= k < |days[i].roomAgendas| ::
          days[i].roomAgendas[k].roomId == s.roomId
          && multiset(days[i].roomAgendas[k].sessions)[s] == multiset(all)[s]
  {
    DaysByDate(all);
    var days := Days(all);
    var n :| 0 <= n < |all| && all[n] == s;
    assert SessionDates(all)[n] == SessionDate(s);
    assert SessionDate(s) in SessionDates(all);
    forall i | 0 <= i < |days| && days[i].date == SessionDate(s)
      ensures exists k | 0 <= k < |days[i].roomAgendas| ::
          days[i].roomAgendas[k].roomId == s.roomId
          && multiset(days[i].roomAgendas[k].sessions)[s] == multiset(all)[s]
    {
      DayIsDayFor(all, i);
      FiledInItsRoom(all, SessionDate(s), s);
    }
  }

  // ----- Time differences -----

  /** `LocalTime - LocalTime`: the difference of the seconds of the day in
      whole minutes, truncated toward zero. */
  function Minus(a: int, b: int): (m: int)
    ensures Abs(m) * 60 <= Abs(a - b) < (Abs(m) + 1) * 60
    ensures m != 0 ==> ((m > 0) <==> (a > b))
  {
    TruncDiv(a - b, 60)
  }

  lemma MinusSelf(a: int)
    ensures Minus(a, a) == 0
  {
  }

  lemma MinusAntisymmetric(a: int, b: int)
    ensures Minus(a, b) == -Minus(b, a)
  {
  }

  /** On whole minutes the difference is exact. */
  lemma MinusExact(a: int, b: int)
    requires a % 60 == 0 && b % 60 == 0
    ensures Minus(a, b) * 60 == a - b
  {
    var q := (a - b) / 60;
    assert (a - b) == q * 60;
    if a - b >= 0 {
      assert Abs(a - b) / 60 == q;
    } else {
      assert Abs(a - b) == (-q) * 60;
      assert Abs(a - b) / 60 == -q;
    }
  }

  // ----- Timeline -----

  function AllSessions(agendas: seq<RoomAgenda>): (r: seq<Session>)
    ensures forall s :: s in r <==> exists k | 0 <= k < |agendas| :: s in agendas[k].sessions
  {
    if agendas == [] then []
    else
      var rest := AllSessions(agendas[1..]);
      assert forall k | 1 <= k < |agendas| :: agendas[k] == agendas[1..][k - 1];
      agendas[0].sessions + rest
  }

  /** The start times the timeline labels (`flatMap`, `map`, `distinct`,
      `sorted`). */
  function Times(day: DaySessions): seq<int> {
    SortBy(Distinct(StartTimes(AllSessions(day.roomAgendas))), Id)
  }

  /** The timeline's times are strictly ascending, so each appears once. */
  lemma TimesAscending(day: DaySessions)
    ensures var times := Times(day);
      forall i, j | 0 <= i < j < |times| :: times[i] < times[j]
  {
    var distinct := Distinct(StartTimes(AllSessions(day.roomAgendas)));
    DistinctSpec(StartTimes(AllSessions(day.roomAgendas)));
    SortBySpec(distinct, Id);
    SortedDistinctStrict(distinct, Times(day));
  }

  /** A time is on the timeline exactly when some session of the day starts
      then. */
  lemma TimesAreStarts(day: DaySessions, t: int)
    ensures t in Times(day) <==>
      exists k | 0 <= k < |day.roomAgendas| :: exists s | s in day.roomAgendas[k].sessions :: StartTime(s) == t
  {
    var all := AllSessions(day.roomAgendas);
    TimesKeepStarts(StartTimes(all), t);
    StartTimesHas(all, t);
    if exists s | s in all :: StartTime(s) == t {
      var s :| s in all && StartTime(s) == t;
      var k :| 0 <= k < |day.roomAgendas| && s in day.roomAgendas[k].sessions;
    }
    if exists k | 0 <= k < |day.roomAgendas| :: exists s | s in day.roomAgendas[k].sessions :: StartTime(s) == t {
      var k, s :| 0 <= k < |day.roomAgendas| && s in day.roomAgendas[k].sessions && StartTime(s) == t;
      assert s in all;
    }
  }

  /** Removing repeats and sorting keeps exactly the same values. */
  lemma TimesKeepStarts(starts: seq<int>, t: int)
    ensures t in SortBy(Distinct(starts), Id) <==> t in starts
  {
    var distinct := Distinct(starts);
    DistinctSpec(starts);
    SortBySpec(distinct, Id);
    assert t in SortBy(distinct, Id) <==> t in multiset(distinct);
  }

  lemma StartTimesHas(ss: seq<Session>, t: int)
    ensures t in StartTimes(ss) <==> exists s | s in ss :: StartTime(s) == t
  {
    var starts := StartTimes(ss);
    if t in starts {
      var i :| 0 <= i < |starts| && starts[i] == t;
      assert ss[i] in ss;
    }
    if exists s | s in ss :: StartTime(s) == t {
      var s :| s in ss && StartTime(s) == t;
      var i :| 0 <= i < |ss| && ss[i] == s;
      assert starts[i] == t;
    }
  }

  // ----- Height -----

  datatype Height = Height(dp: int) | NoRegularSession | ZeroShortest

  predicate Regular(s: Session) { !s.isServiceSession }

  function Length(s: Session): int { Minus(EndTime(s), StartTime(s)) }

  /** The shortest length of a session that is not a service session. */
  function ShortestRegular(sessions: seq<Session>): (r: Option<int>)
    ensures r.None? <==> forall s | s in sessions :: !Regular(s)
    ensures r.Some? ==> exists s | s in sessions :: Regular(s) && Length(s) == r.value
    ensures r.Some? ==> forall s | s in sessions && Regular(s) :: r.value <= Length(s)
  {
    if sessions == [] then None
    else
      var rest := ShortestRegular(sessions[1..]);
      assert forall s | s in sessions :: s == sessions[0] || s in sessions[1..];
      if !Regular(sessions[0]) then rest
      else if rest.None? || Length(sessions[0]) <= rest.value then Some(Length(sessions[0]))
      else rest
  }

  /** Kotlin's integer division never grows the dividend's magnitude. */
  lemma TruncDivShrinks(a: int, b: int)
    requires b != 0
    ensures Abs(TruncDiv(a, b)) <= Abs(a)
  {
    var n := Abs(TruncDiv(a, b));
    NoSmallerThanFactor(n, Abs(b));
  }

  lemma NoSmallerThanFactor(n: nat, d: nat)
    requires d >= 1
    ensures n <= n * d
  {
    assert n * d == n * (d - 1) + n;
  }

  /** The height never needs more than Kotlin's `Int`: `toInt` keeps it. */
  lemma HeightFits(begin: SecondOfDay, end: SecondOfDay, shortest: int)
    requires shortest != 0
    ensures IsInt32(TruncDiv(180 * Minus(end, begin), shortest))
  {
    var span := 180 * Minus(end, begin);
    TruncDivShrinks(span, shortest);
    assert Abs(Minus(end, begin)) < 1440;
  }

  /** The height of the schedule: 180 dp for every shortest session's
      length of the day's span, in integer arithmetic. It fails when there
      is no regular session or the shortest lasts less than a minute. */
  function ScheduleHeight(all: seq<Session>, begin: SecondOfDay, end: SecondOfDay): (h: Height)
    ensures h == NoRegularSession <==> ShortestRegular(all).None?
    ensures h == ZeroShortest <==> ShortestRegular(all) == Some(0)
    ensures h.Height? ==> IsInt32(h.dp)
    ensures h.Height? ==> var q := ShortestRegular(all).value;
      Abs(h.dp) * Abs(q) <= 180 * Abs(Minus(end, begin)) < (Abs(h.dp) + 1) * Abs(q)
    ensures h.Height? ==> var q := ShortestRegular(all).value;
      h.dp != 0 ==> ((h.dp > 0) <==> ((Minus(end, begin) > 0) == (q > 0)))
    ensures h.Height? ==> h.dp == TruncDiv(180 * Minus(end, begin), ShortestRegular(all).value)
  {
    match ShortestRegular(all)
    case None => NoRegularSession
    case Some(shortest) =>
      if shortest == 0 then ZeroShortest
      else
        var q := TruncDiv(180 * Minus(end, begin), shortest);
        HeightFits(begin, end, shortest);
        Height(Wrap32(q))
  }

  // ----- Agenda column -----

  /** A piece of an agenda's column: a gap or a session card, with its
      length in minutes (its weight in the column). */
  datatype Slot = Gap(minutes: int) | Card(session: Session, minutes: int)

  /** The slots for the session at `i`: a gap when it starts after the
      previous end (the day's start for the first), then its card. */
  function SlotsAt(a: RoomAgenda, i: int): seq<Slot>
    requires 0 <= i < |a.sessions|
  {
    var s := a.sessions[i];
    var prev := if i == 0 then a.startTime else EndTime(a.sessions[i - 1]);
    var pause := Minus(StartTime(s), prev);
    (if pause > 0 then [Gap(pause)] else []) + [Card(s, Length(s))]
  }

  function SlotsUpTo(a: RoomAgenda, n: int): seq<Slot>
    requires 0 <= n <= |a.sessions|
  {
    if n == 0 then [] else SlotsUpTo(a, n - 1) + SlotsAt(a, n - 1)
  }

  /** The gap after the last session, up to the day's end. */
  function TrailingGap(a: RoomAgenda): seq<Slot>
    requires |a.sessions| > 0
  {
    var lastPause := Minus(a.endTime, EndTime(a.sessions[|a.sessions| - 1]));
    if lastPause > 0 then [Gap(lastPause)] else []
  }

  function Column(a: RoomAgenda): seq<Slot>
    requires |a.sessions| > 0
  {
    SlotsUpTo(a, |a.sessions|) + TrailingGap(a)
  }

  /** Lays out an agenda's column, session by session. */
  method LayOutAgenda(a: RoomAgenda) returns (slots: seq<Slot>)
    requires |a.sessions| > 0
    ensures slots == Column(a)
    ensures Cards(slots) == a.sessions
    ensures forall k | 0 <= k < |slots| && slots[k].Gap? :: slots[k].minutes > 0
  {
    slots := [];
    var i := 0;
    while i < |a.sessions|
      invariant 0 <= i <= |a.sessions|
      invariant slots == SlotsUpTo(a, i)
    {
      ghost var before := slots;
      var s := a.sessions[i];
      var prev := if i == 0 then a.startTime else EndTime(a.sessions[i - 1]);
      var pause := Minus(StartTime(s), prev);
      if pause > 0 {
        slots := slots + [Gap(pause)];
      }
      slots := slots + [Card(s, Length(s))];
      assert slots == before + SlotsAt(a, i);
      i := i + 1;
    }
    ghost var body := slots;
    var lastPause := Minus(a.endTime, EndTime(a.sessions[|a.sessions| - 1]));
    if lastPause > 0 {
      slots := slots + [Gap(lastPause)];
    }
    assert slots == body + TrailingGap(a);
    ColumnCards(a);
    ColumnGapsPositive(a);
  }

  function Cards(slots: seq<Slot>): seq<Session> {
    if slots == [] then []
    else Cards(slots[..|slots| - 1]) + (if slots[|slots| - 1].Card? then [slots[|slots| - 1].session] else [])
  }

  lemma CardsAppend(u: seq<Slot>, v: seq<Slot>)
    ensures Cards(u + v) == Cards(u) + Cards(v)
  {
    if v == [] {
      assert u + v == u;
    } else {
      assert (u + v)[..|u + v| - 1] == u + v[..|v| - 1];
      CardsAppend(u, v[..|v| - 1]);
    }
  }

  /** Every session of the agenda gets exactly one card, in order. */
  lemma {:induction false} ColumnCards(a: RoomAgenda)
    requires |a.sessions| > 0
    ensures Cards(Column(a)) == a.sessions
  {
    CardsUpTo(a, |a.sessions|);
    CardsAppend(SlotsUpTo(a, |a.sessions|), TrailingGap(a));
    assert a.sessions[..|a.sessions|] == a.sessions;
  }

  lemma {:induction false} CardsUpTo(a: RoomAgenda, n: int)
    requires 0 <= n <= |a.sessions|
    ensures Cards(SlotsUpTo(a, n)) == a.sessions[..n]
  {
    if n > 0 {
      CardsUpTo(a, n - 1);
      CardsAppend(SlotsUpTo(a, n - 1), SlotsAt(a, n - 1));
      SlotsAtCards(a, n - 1);
      assert a.sessions[..n] == a.sessions[..n - 1] + [a.sessions[n - 1]];
    }
  }

  lemma SlotsAtCards(a: RoomAgenda, i: int)
    requires 0 <= i < |a.sessions|
    ensures Cards(SlotsAt(a, i)) == [a.sessions[i]]
  {
    var slots := SlotsAt(a, i);
    var gap := slots[..|slots| - 1];
    assert Cards(gap) == [] by {
      if gap != [] {
        assert gap[..0] == [];
      }
    }
  }

  /** Only gaps of positive length are laid out. */
  lemma {:induction false} ColumnGapsPositive(a: RoomAgenda)
    requires |a.sessions| > 0
    ensures forall k | 0 <= k < |Column(a)| && Column(a)[k].Gap? :: Column(a)[k].minutes > 0
  {
    GapsPositiveUpTo(a, |a.sessions|);
  }

  lemma {:induction false} GapsPositiveUpTo(a: RoomAgenda, n: int)
    requires 0 <= n <= |a.sessions|
    ensures forall k | 0 <= k < |SlotsUpTo(a, n)| && SlotsUpTo(a, n)[k].Gap? :: SlotsUpTo(a, n)[k].minutes > 0
  {
    if n > 0 {
      GapsPositiveUpTo(a, n - 1);
    }
  }

  function Weight(slots: seq<Slot>): int {
    if slots == [] then 0 else Weight(slots[..|slots| - 1]) + slots[|slots| - 1].minutes
  }

  lemma {:induction false} WeightAppend(u: seq<Slot>, v: seq<Slot>)
    ensures Weight(u + v) == Weight(u) + Weight(v)
  {
    if v == [] {
      assert u + v == u;
    } else {
      assert (u + v)[..|u + v| - 1] == u + v[..|v| - 1];
      WeightAppend(u, v[..|v| - 1]);
    }
  }

  /** An agenda whose sessions lie in order, one after another, inside the
      day's bounds, all on whole minutes. */
  predicate Orderly(a: RoomAgenda) {
    && |a.sessions| > 0
    && a.startTime % 60 == 0 && a.endTime % 60 == 0
    && (forall i | 0 <= i < |a.sessions| ::
          StartTime(a.sessions[i]) % 60 == 0 && EndTime(a.sessions[i]) % 60 == 0
          && StartTime(a.sessions[i]) <= EndTime(a.sessions[i]))
    && a.startTime <= StartTime(a.sessions[0])
    && (forall i | 0 < i < |a.sessions| :: EndTime(a.sessions[i - 1]) <= StartTime(a.sessions[i]))
    && EndTime(a.sessions[|a.sessions| - 1]) <= a.endTime
  }

  lemma {:induction false} WeightUpTo(a: RoomAgenda, n: int)
    requires Orderly(a) && 1 <= n <= |a.sessions|
    ensures Weight(SlotsUpTo(a, n)) * 60 == EndTime(a.sessions[n - 1]) - a.startTime
  {
    var s := a.sessions[n - 1];
    var prev := if n == 1 then a.startTime else EndTime(a.sessions[n - 2]);
    if n > 1 {
      WeightUpTo(a, n - 1);
    }
    WeightAppend(SlotsUpTo(a, n - 1), SlotsAt(a, n - 1));
    MinusExact(StartTime(s), prev);
    MinusExact(EndTime(s), StartTime(s));
    var slots := SlotsAt(a, n - 1);
    WeightAppend(slots[..|slots| - 1], [slots[|slots| - 1]]);
    assert slots == slots[..|slots| - 1] + [slots[|slots| - 1]];
    assert Weight([slots[|slots| - 1]]) == Length(s);
  }

  /** In an orderly agenda the gaps and cards fill the column exactly: their
      minutes add up to the day's length in minutes. */
  lemma ColumnFillsDay(a: RoomAgenda)
    requires Orderly(a)
    ensures Weight(Column(a)) == Minus(a.endTime, a.startTime)
  {
    var n := |a.sessions|;
    WeightUpTo(a, n);
    WeightAppend(SlotsUpTo(a, n), TrailingGap(a));
    MinusExact(a.endTime, EndTime(a.sessions[n - 1]));
    MinusExact(a.endTime, a.startTime);
  }
}
