/**
 * The device calendar as the import, sync and reminder code sees it: a list of stored
 * entries, each in one calendar (or reminder list), with a title and local start and
 * end timestamps in milliseconds. `Calendar.getEventsAsync([id], from, to)` is read as
 * the entries of that calendar that start inside the closed window.
 */
module CalendarStore {
  import opened Dates

  datatype Entry = Entry(id: string, calendarId: string, title: string, start: int, end: int)

  /** What `createEventAsync` does for one item: returns a new id, or throws with a message. */
  datatype CreateOutcome = NewId(id: string) | Throws(message: string)

  /** The device's answers for one item: whether its duplicate query succeeds, and its creation. */
  datatype Calls = Calls(queryOk: bool, create: CreateOutcome)

  predicate InWindow(e: Entry, calendarId: string, from: int, to: int)
  {
    e.calendarId == calendarId && from <= e.start <= to
  }

  /** `getEventsAsync([calendarId], from, to)`, in store order. */
  function Query(store: seq<Entry>, calendarId: string, from: int, to: int): (r: seq<Entry>)
    ensures |r| <= |store|
    decreases |store|
  {
    if store == [] then []
    else
      var rest := Query(store[1..], calendarId, from, to);
      if InWindow(store[0], calendarId, from, to) then [store[0]] + rest else rest
  }

  /** The query answers exactly the entries of that calendar inside the window. */
  lemma {:induction false} QueryIff(store: seq<Entry>, calendarId: string, from: int, to: int)
    ensures forall e :: e in Query(store, calendarId, from, to) <==> e in store && InWindow(e, calendarId, from, to)
    decreases |store|
  {
    if store != [] {
      QueryIff(store[1..], calendarId, from, to);
      assert store == [store[0]] + store[1..];
    }
  }

  /** The window from `setHours(0, 0, 0, 0)` to `setHours(23, 59, 59, 999)` on the day of `t`. */
  function DayFrom(t: int): int { SetHours(t, 0, 0, 0, 0) }

  function DayTo(t: int): int { SetHours(t, 23, 59, 59, 999) }

  /** An entry starts inside the day window of `t` exactly when it starts on the same local day. */
  lemma DayWindow(t: int, u: int)
    ensures DayFrom(t) <= u <= DayTo(t) <==> DayStart(u) == DayStart(t)
  {
    var d := DayStart(t);
    assert DayFrom(t) == d;
    assert DayTo(t) == d + MsPerDay - 1;
    if d <= u < d + MsPerDay {
      assert u / MsPerDay == t / MsPerDay by {
        assert d == (t / MsPerDay) * MsPerDay;
      }
    }
  }

  /** The day query holds exactly the calendar's entries starting on that local day. */
  lemma DayQuery(store: seq<Entry>, calendarId: string, t: int)
    ensures forall e :: e in Query(store, calendarId, DayFrom(t), DayTo(t)) <==>
              e in store && e.calendarId == calendarId && DayStart(e.start) == DayStart(t)
  {
    QueryIff(store, calendarId, DayFrom(t), DayTo(t));
    forall e | e in store
      ensures InWindow(e, calendarId, DayFrom(t), DayTo(t)) <==> e.calendarId == calendarId && DayStart(e.start) == DayStart(t)
    {
      DayWindow(t, e.start);
    }
  }
}
