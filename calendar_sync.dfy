/**
 * The calendar sync screen: the calendar's events in the scanned date range that the
 * planner page does not mention ("orphans"), the action the user picks for each, and
 * carrying those actions out (deleting from the calendar, or handing back to be written
 * into the planner).
 */
module CalendarSync {
  import opened Wrappers
  import opened Text
  import opened Dates
  import opened Clock
  import opened Partition
  import opened Sorting
  import opened CalendarStore
  import opened CalendarSelector

  /** A group of extracted events, as `{day, events}`. */
  datatype Section = Section(day: string, events: seq<PlannerEvent>)

  // ------------------------------------------------------------ the query window

  /** `new Date(x)` of a range end: a missing date (`null`) is the epoch. */
  function DateOrEpoch(d: Option<int>): int
  {
    d.GetOr(0)
  }

  /** `getCalendarEventsForDateRange`: from 00:00:00.000 of the range start to 23:59:59.999 of its end. */
  function CalendarEventsForRange(store: seq<Entry>, calendarId: string, range: DateRange): (r: seq<Entry>)
  {
    Query(store, calendarId, DayFrom(DateOrEpoch(range.start)), DayTo(DateOrEpoch(range.end)))
  }

  /** A day boundary is at or before `u` exactly when it is at or before `u`'s own day. */
  lemma BoundaryBefore(a: int, u: int)
    requires a % MsPerDay == 0
    ensures a <= u <==> a <= DayStart(u)
  {
    if a <= u {
      assert a == (a / MsPerDay) * MsPerDay;
      assert a / MsPerDay <= u / MsPerDay;
    }
  }

  /** `u` is at or before the last millisecond of the day starting at `a` exactly when its day is not later. */
  lemma BoundaryAfter(a: int, u: int)
    requires a % MsPerDay == 0
    ensures u <= a + MsPerDay - 1 <==> DayStart(u) <= a
  {
    if u <= a + MsPerDay - 1 {
      assert a == (a / MsPerDay) * MsPerDay;
      assert (a + MsPerDay - 1) / MsPerDay == a / MsPerDay;
      assert u / MsPerDay <= (a + MsPerDay - 1) / MsPerDay;
    }
  }

  /** The sync query returns exactly the calendar's events whose start day lies between the range's start and end days. */
  lemma RangeQuery(store: seq<Entry>, calendarId: string, range: DateRange)
    ensures forall x :: x in CalendarEventsForRange(store, calendarId, range) <==>
              x in store && x.calendarId == calendarId
              && DayStart(DateOrEpoch(range.start)) <= DayStart(x.start) <= DayStart(DateOrEpoch(range.end))
  {
    var from, to := DayFrom(DateOrEpoch(range.start)), DayTo(DateOrEpoch(range.end));
    QueryIff(store, calendarId, from, to);
    assert from == DayStart(DateOrEpoch(range.start));
    assert to == DayStart(DateOrEpoch(range.end)) + MsPerDay - 1;
    forall x | x in store
      ensures InWindow(x, calendarId, from, to) <==>
              x.calendarId == calendarId
              && DayStart(DateOrEpoch(range.start)) <= DayStart(x.start) <= DayStart(DateOrEpoch(range.end))
    {
      BoundaryBefore(from, x.start);
      BoundaryAfter(DayStart(DateOrEpoch(range.end)), x.start);
    }
  }

  // ------------------------------------------------------------ isEventInPlanner

  /** The calendar start as `${hours}:${mm}${meridian}` on the 12-hour clock. */
  function CalendarTimeString(start: int): (r: string)
  {
    Format(To12(GetHours(start), GetMinutes(start)))
  }

  /** The time string reads back as the hour and minute of the start. */
  lemma CalendarTimeReadsBack(start: int)
    ensures ParseClock(CalendarTimeString(start)).Some?
    ensures var t := ParseClock(CalendarTimeString(start)).value;
            Proper(t) && To24(t) == GetHours(start) && t.minute == GetMinutes(start)
  {
    var t := To12(GetHours(start), GetMinutes(start));
    ParseFormat(t);
    To24To12(GetHours(start), GetMinutes(start));
  }

  /** A formatted clock has no capital letters. */
  lemma FormatNoUpper(t: ClockTime)
    ensures NoUpper(Format(t))
  {
    var s := Format(t);
    var h, m := NatToString(t.hour), Pad2(t.minute);
    assert s == h + ":" + m + t.meridian.Text();
    forall i | 0 <= i < |s|
      ensures !IsUpper(s[i])
    {
      if i < |h| {
        assert s[i] == h[i];
      } else if i < |h| + 1 + |m| && i > |h| {
        assert s[i] == m[i - |h| - 1];
      }
    }
  }

  /** A planner event stands for a calendar event: same clock string and same title, both ignoring case. */
  predicate SameEvent(p: PlannerEvent, x: Entry)
  {
    Lower(EventTime(p)) == Lower(CalendarTimeString(x.start)) && Lower(p.title) == Lower(x.title)
  }

  function SomeEventMatches(events: seq<PlannerEvent>, x: Entry): bool
  {
    if events == [] then false else SameEvent(events[0], x) || SomeEventMatches(events[1..], x)
  }

  /** `isEventInPlanner`: some event of some section matches. */
  function IsEventInPlanner(sections: seq<Section>, x: Entry): bool
  {
    if sections == [] then false else SomeEventMatches(sections[0].events, x) || IsEventInPlanner(sections[1..], x)
  }

  lemma {:induction false} SomeEventMatchesIff(events: seq<PlannerEvent>, x: Entry)
    ensures SomeEventMatches(events, x) <==> exists p :: p in events && SameEvent(p, x)
  {
    if events != [] {
      SomeEventMatchesIff(events[1..], x);
      assert forall p :: p in events <==> p == events[0] || p in events[1..];
    }
  }

  /** The calendar event is in the planner exactly when some section holds a planner event matching it. */
  lemma {:induction false} IsEventInPlannerIff(sections: seq<Section>, x: Entry)
    ensures IsEventInPlanner(sections, x) <==> exists s, p :: s in sections && p in s.events && SameEvent(p, x)
  {
    if sections != [] {
      SomeEventMatchesIff(sections[0].events, x);
      IsEventInPlannerIff(sections[1..], x);
      assert forall s :: s in sections <==> s == sections[0] || s in sections[1..];
    }
  }

  /**
   * What the import created is recognised by the sync: an event whose time string is
   * exactly a proper formatted clock (in any case), imported on its page's date, is
   * matched by itself.
   */
  lemma ImportedIsInPlanner(e: PlannerEvent, t: ClockTime, date: int, id: string, calendarId: string, end: int)
    requires Proper(t) && Lower(EventTime(e)) == Format(t)
    ensures SameEvent(e, Entry(id, calendarId, e.title, StartOf(date, t), end))
  {
    StartOfReadBack(date, t);
    To12To24(t);
    FormatNoUpper(t);
    LowerOfNoUpper(Format(t));
  }

  // ------------------------------------------------------------ findOrphanedEvents

  /** `calendarEvents.filter(e => !isEventInPlanner(e))`. */
  function Orphans(calendarEvents: seq<Entry>, sections: seq<Section>): (r: seq<Entry>)
  {
    Filter(calendarEvents, x => !IsEventInPlanner(sections, x))
  }

  /** The orphans are exactly the calendar events that no planner event matches. */
  lemma OrphansIff(calendarEvents: seq<Entry>, sections: seq<Section>)
    ensures forall x :: x in Orphans(calendarEvents, sections) <==> x in calendarEvents && !IsEventInPlanner(sections, x)
  {
    var p := x => !IsEventInPlanner(sections, x);
    var r := Orphans(calendarEvents, sections);
    forall x | x in calendarEvents && !IsEventInPlanner(sections, x)
      ensures x in r
    {
      FilterKeeps(calendarEvents, p, x);
    }
    forall x | x in r
      ensures !IsEventInPlanner(sections, x)
    {
      var i :| 0 <= i < |r| && r[i] == x;
    }
  }

  /** With nothing extracted, every calendar event in the range is an orphan. */
  lemma NoSectionsAllOrphans(calendarEvents: seq<Entry>)
    ensures Orphans(calendarEvents, []) == calendarEvents
  {
    FilterAll(calendarEvents, x => !IsEventInPlanner([], x));
  }

  datatype Action = Delete | Write

  /** The screen's state: the orphans listed and the actions picked, keyed by event id in insertion order. */
  datatype SyncState = SyncState(orphans: seq<Entry>, actions: seq<(string, Action)>)

  /**
   * `findOrphanedEvents`: the actions are cleared; the orphans are replaced by the new
   * list, or kept when there is no range or the query throws (`queryOk` false).
   */
  function FindOrphanedEvents(state: SyncState, range: Option<DateRange>, store: seq<Entry>, calendarId: string,
                              sections: seq<Section>, queryOk: bool): (r: SyncState)
    ensures r.actions == []
    ensures range.None? || !queryOk ==> r.orphans == state.orphans
  {
    if range.None? || !queryOk then SyncState(state.orphans, [])
    else SyncState(Orphans(CalendarEventsForRange(store, calendarId, range.value), sections), [])
  }

  /** After a successful search, an entry is listed exactly when it is a calendar event of the range that the planner lacks. */
  lemma FoundOrphans(state: SyncState, range: DateRange, store: seq<Entry>, calendarId: string, sections: seq<Section>)
    ensures forall x :: x in FindOrphanedEvents(state, Some(range), store, calendarId, sections, true).orphans <==>
              x in store && x.calendarId == calendarId
              && DayStart(DateOrEpoch(range.start)) <= DayStart(x.start) <= DayStart(DateOrEpoch(range.end))
              && !IsEventInPlanner(sections, x)
  {
    OrphansIff(CalendarEventsForRange(store, calendarId, range), sections);
    RangeQuery(store, calendarId, range);
  }

  // ------------------------------------------------------------ the action map

  predicate UniqueKeys(m: seq<(string, Action)>)
  {
    forall i, j :: 0 <= i < j < |m| ==> m[i].0 != m[j].0
  }

  /** `actions[id]`. */
  function Lookup(m: seq<(string, Action)>, id: string): (r: Option<Action>)
    ensures r.Some? <==> exists i :: 0 <= i < |m| && m[i].0 == id
  {
    if m == [] then None else if m[0].0 == id then Some(m[0].1) else Lookup(m[1..], id)
  }

  /** `{...prev, [id]: action}`: overwritten where the key is, appended when it is new. */
  function SelectAction(m: seq<(string, Action)>, id: string, a: Action): (r: seq<(string, Action)>)
  {
    if m == [] then [(id, a)]
    else if m[0].0 == id then [(id, a)] + m[1..]
    else [m[0]] + SelectAction(m[1..], id, a)
  }

  /** `delete newActions[id]`. */
  function CancelAction(m: seq<(string, Action)>, id: string): (r: seq<(string, Action)>)
  {
    if m == [] then [] else if m[0].0 == id then m[1..] else [m[0]] + CancelAction(m[1..], id)
  }

  /** Selecting sets that one id's action and leaves every other id's as it was. */
  lemma {:induction false} SelectActionSets(m: seq<(string, Action)>, id: string, a: Action)
    ensures Lookup(SelectAction(m, id, a), id) == Some(a)
    ensures forall other :: other != id ==> Lookup(SelectAction(m, id, a), other) == Lookup(m, other)
    ensures |SelectAction(m, id, a)| == if Lookup(m, id).Some? then |m| else |m| + 1
  {
    if m != [] && m[0].0 != id {
      SelectActionSets(m[1..], id, a);
    }
  }

  /** Selecting keeps every id listed once. */
  lemma {:induction false} SelectActionUnique(m: seq<(string, Action)>, id: string, a: Action)
    requires UniqueKeys(m)
    ensures UniqueKeys(SelectAction(m, id, a))
    ensures forall i :: 0 <= i < |SelectAction(m, id, a)| ==>
              SelectAction(m, id, a)[i].0 == id || Lookup(m, SelectAction(m, id, a)[i].0).Some?
  {
    if m != [] && m[0].0 != id {
      SelectActionUnique(m[1..], id, a);
      var r := SelectAction(m, id, a);
      forall i | 1 <= i < |r|
        ensures r[i].0 != m[0].0
      {
        assert r[i] == SelectAction(m[1..], id, a)[i - 1];
        if r[i].0 != id {
          var j :| 0 <= j < |m[1..]| && m[1..][j].0 == r[i].0;
          assert m[j + 1].0 == r[i].0;
        }
      }
    }
  }

  /** Cancelling removes that id's action and leaves every other id's as it was. */
  lemma {:induction false} CancelActionRemoves(m: seq<(string, Action)>, id: string)
    requires UniqueKeys(m)
    ensures Lookup(CancelAction(m, id), id).None?
    ensures forall other :: other != id ==> Lookup(CancelAction(m, id), other) == Lookup(m, other)
    ensures UniqueKeys(CancelAction(m, id))
    ensures |CancelAction(m, id)| == if Lookup(m, id).Some? then |m| - 1 else |m|
    ensures forall i :: 0 <= i < |CancelAction(m, id)| ==> Lookup(m, CancelAction(m, id)[i].0).Some?
  {
    if m != [] {
      if m[0].0 == id {
        assert forall i :: 0 <= i < |m[1..]| ==> m[1..][i].0 != id by {
          forall i | 0 <= i < |m[1..]| ensures m[1..][i].0 != id {
            assert m[1..][i] == m[i + 1];
          }
        }
      } else {
        CancelActionRemoves(m[1..], id);
        var r := CancelAction(m, id);
        forall i | 1 <= i < |r|
          ensures r[i].0 != m[0].0
        {
          assert r[i] == CancelAction(m[1..], id)[i - 1];
          var j :| 0 <= j < |m[1..]| && m[1..][j].0 == r[i].0;
          assert m[j + 1].0 == r[i].0;
        }
      }
    }
  }

  /** Choosing an action and then cancelling it leaves an id that had none without one again. */
  lemma SelectThenCancel(m: seq<(string, Action)>, id: string, a: Action)
    requires UniqueKeys(m) && Lookup(m, id).None?
    ensures forall other :: Lookup(CancelAction(SelectAction(m, id, a), id), other) == Lookup(m, other)
  {
    SelectActionSets(m, id, a);
    SelectActionUnique(m, id, a);
    CancelActionRemoves(SelectAction(m, id, a), id);
  }

  // ------------------------------------------------------------ handleConfirmActions

  /** `orphanedEvents.find(e => e.id === id)`. */
  function FindById(orphans: seq<Entry>, id: string): (r: Option<Entry>)
    ensures r.Some? ==> r.value in orphans && r.value.id == id
    ensures r.None? ==> forall x :: x in orphans ==> x.id != id
  {
    if orphans == [] then None else if orphans[0].id == id then Some(orphans[0]) else FindById(orphans[1..], id)
  }

  function Keys(m: seq<(string, Action)>): (r: seq<string>)
    ensures |r| == |m| && forall i :: 0 <= i < |m| ==> r[i] == m[i].0
  {
    seq(|m|, i requires 0 <= i < |m| => m[i].0)
  }

  function Acts(m: seq<(string, Action)>): (r: seq<Action>)
    ensures |r| == |m| && forall i :: 0 <= i < |m| ==> r[i] == m[i].1
  {
    seq(|m|, i requires 0 <= i < |m| => m[i].1)
  }

  /** The orphans the ids name, `undefined` where none has that id. */
  function FindAll(orphans: seq<Entry>, ids: seq<string>): (r: seq<Option<Entry>>)
    ensures |r| == |ids| && forall i :: 0 <= i < |ids| ==> r[i] == FindById(orphans, ids[i])
  {
    seq(|ids|, i requires 0 <= i < |ids| => FindById(orphans, ids[i]))
  }

  /** `store` without the entries of that id, as `deleteEventAsync(id)` leaves it. */
  function RemoveId(store: seq<Entry>, id: string): (r: seq<Entry>)
    ensures forall x :: x in r <==> x in store && x.id != id
  {
    if store == [] then []
    else if store[0].id == id then RemoveId(store[1..], id)
    else [store[0]] + RemoveId(store[1..], id)
  }

  /**
   * The deletion loop: each listed event is deleted unless its deletion throws; an
   * `undefined` event throws on reading its id, and a `failing` id throws in the device.
   * Neither stops the loop.
   */
  function DeleteAll(store: seq<Entry>, deleteEvents: seq<Option<Entry>>, failing: set<string>): (r: seq<Entry>)
    decreases |deleteEvents|
  {
    if deleteEvents == [] then store
    else
      var rest := DeleteAll(store, deleteEvents[..|deleteEvents| - 1], failing);
      match deleteEvents[|deleteEvents| - 1]
      case Some(x) => if x.id in failing then rest else RemoveId(rest, x.id)
      case None => rest
  }

  /** An entry survives exactly when no listed event with its id was deleted successfully. */
  lemma {:induction false} DeleteAllIff(store: seq<Entry>, deleteEvents: seq<Option<Entry>>, failing: set<string>)
    ensures forall x :: x in DeleteAll(store, deleteEvents, failing) <==>
              x in store && (x.id in failing || forall k :: 0 <= k < |deleteEvents| && deleteEvents[k].Some? ==> deleteEvents[k].value.id != x.id)
    decreases |deleteEvents|
  {
    if deleteEvents != [] {
      var n := |deleteEvents| - 1;
      DeleteAllIff(store, deleteEvents[..n], failing);
      assert forall k :: 0 <= k < n ==> deleteEvents[..n][k] == deleteEvents[k];
    }
  }

  /** What confirming hands back, and the store after the deletions. */
  datatype Confirmation = Confirmation(deleted: seq<Option<Entry>>, writeInPlanner: seq<Option<Entry>>, store: seq<Entry>)

  /**
   * `handleConfirmActions`: nothing happens when no action is picked (an alert) or when
   * the user cancels the confirmation; otherwise the picked ids are split into the
   * events to delete and those to write into the planner, in `Object.entries` order, and the
   * deletions are carried out one by one. `failing` are the ids whose deletion throws.
   */
  method HandleConfirmActions(state: SyncState, confirmed: bool, failing: set<string>, store: seq<Entry>)
    returns (r: Option<Confirmation>)
    ensures state.actions == [] || !confirmed ==> r.None?
    ensures state.actions != [] && confirmed ==>
              r.Some?
              && r.value.deleted == FindAll(state.orphans, Pick(Keys(Entries(state.actions)), Acts(Entries(state.actions)), Delete))
              && r.value.writeInPlanner == FindAll(state.orphans, Pick(Keys(Entries(state.actions)), Acts(Entries(state.actions)), Write))
              && r.value.store == DeleteAll(store, r.value.deleted, failing)
  {
    var actions := state.actions;
    if |actions| == 0 || !confirmed {
      return None;
    }
    var entries := Entries(actions);
    var deleteEvents, writeInPlannerEvents := SplitActions(entries, state.orphans);
    SplitPicks(state.orphans, entries);
    var after := DeleteEvents(store, deleteEvents, failing);
    r := Some(Confirmation(deleteEvents, writeInPlannerEvents, after));
  }

  /** A key ECMAScript treats as an array index: the canonical decimal text of an integer below 2^32 - 1. */
  predicate ArrayIndex(key: string)
  {
    key != [] && AllDigits(key) && (key[0] != '0' || |key| == 1) && ParseDigits(key) < 0xFFFF_FFFF
  }

  predicate IndexEntry(e: (string, Action)) { ArrayIndex(e.0) }

  function IndexValue(e: (string, Action)): real
  {
    if ArrayIndex(e.0) then ParseDigits(e.0) as real else 0.0
  }

  /**
   * `Object.entries`: the keys that are array indices first, in ascending numeric order,
   * then the other keys in insertion order (OrdinaryOwnPropertyKeys, section 10.1.11.1 of
   * ECMA-262). `m` lists the keys in insertion order.
   */
  function Entries(m: seq<(string, Action)>): (r: seq<(string, Action)>)
    ensures multiset(r) == multiset(m)
    ensures forall i, j :: 0 <= i < j < |r| && IndexEntry(r[j]) ==> IndexEntry(r[i]) && IndexValue(r[i]) <= IndexValue(r[j])
    ensures Filter(r, Not(IndexEntry)) == Filter(m, Not(IndexEntry))
  {
    EntriesParts(m);
    SortBy(Filter(m, IndexEntry), IndexValue) + Filter(m, Not(IndexEntry))
  }

  lemma EntriesParts(m: seq<(string, Action)>)
    ensures var indices, names := SortBy(Filter(m, IndexEntry), IndexValue), Filter(m, Not(IndexEntry));
      multiset(indices + names) == multiset(m)
      && (forall i, j :: 0 <= i < j < |indices + names| && IndexEntry((indices + names)[j]) ==>
            IndexEntry((indices + names)[i]) && IndexValue((indices + names)[i]) <= IndexValue((indices + names)[j]))
      && Filter(indices + names, Not(IndexEntry)) == names
  {
    var kept := Filter(m, IndexEntry);
    var indices, names := SortBy(kept, IndexValue), Filter(m, Not(IndexEntry));
    SortByPermutation(kept, IndexValue);
    SortBySorted(kept, IndexValue);
    FilterSplit(m, IndexEntry);
    assert forall i :: 0 <= i < |indices| ==> IndexEntry(indices[i]) by {
      forall i | 0 <= i < |indices| ensures IndexEntry(indices[i]) {
        assert indices[i] in multiset(kept);
      }
    }
    IndicesFirst(indices, names);
  }

  lemma IndicesFirst(indices: seq<(string, Action)>, names: seq<(string, Action)>)
    requires forall i :: 0 <= i < |indices| ==> IndexEntry(indices[i])
    requires forall i :: 0 <= i < |names| ==> Not(IndexEntry)(names[i])
    requires SortedBy(indices, IndexValue)
    ensures var r := indices + names;
      forall i, j :: 0 <= i < j < |r| && IndexEntry(r[j]) ==> IndexEntry(r[i]) && IndexValue(r[i]) <= IndexValue(r[j])
    ensures Filter(indices + names, Not(IndexEntry)) == names
  {
    FilterConcat(indices, names, Not(IndexEntry));
    FilterNone(indices, Not(IndexEntry));
    FilterAll(names, Not(IndexEntry));
  }

  /** The events to delete and to write into the planner, for the actions `m` in order. */
  function Split(orphans: seq<Entry>, m: seq<(string, Action)>): (r: (seq<Option<Entry>>, seq<Option<Entry>>))
    ensures |r.0| + |r.1| == |m|
  {
    if m == [] then ([], [])
    else
      var (d, w) := Split(orphans, m[..|m| - 1]);
      var (id, a) := m[|m| - 1];
      if a == Delete then (d + [FindById(orphans, id)], w) else (d, w + [FindById(orphans, id)])
  }

  /** Each list holds, in the map's order, the orphans found for the ids with that action. */
  lemma {:induction false} SplitPicks(orphans: seq<Entry>, m: seq<(string, Action)>)
    ensures Split(orphans, m).0 == FindAll(orphans, Pick(Keys(m), Acts(m), Delete))
    ensures Split(orphans, m).1 == FindAll(orphans, Pick(Keys(m), Acts(m), Write))
  {
    if m != [] {
      SplitPicks(orphans, m[..|m| - 1]);
      SplitOneMore(orphans, m);
    }
  }

  /** The step of `SplitPicks`: the last action's orphan joins the end of its own list. */
  lemma SplitOneMore(orphans: seq<Entry>, m: seq<(string, Action)>)
    requires m != []
    requires Split(orphans, m[..|m| - 1]).0 == FindAll(orphans, Pick(Keys(m[..|m| - 1]), Acts(m[..|m| - 1]), Delete))
    requires Split(orphans, m[..|m| - 1]).1 == FindAll(orphans, Pick(Keys(m[..|m| - 1]), Acts(m[..|m| - 1]), Write))
    ensures Split(orphans, m).0 == FindAll(orphans, Pick(Keys(m), Acts(m), Delete))
    ensures Split(orphans, m).1 == FindAll(orphans, Pick(Keys(m), Acts(m), Write))
  {
    var n := |m| - 1;
    var (id, a) := m[n];
    KeysActsSnoc(m);
    PickSnoc(Keys(m[..n]), Acts(m[..n]), Delete, id, a);
    PickSnoc(Keys(m[..n]), Acts(m[..n]), Write, id, a);
    FindAllSnoc(orphans, Pick(Keys(m[..n]), Acts(m[..n]), Delete), id);
    FindAllSnoc(orphans, Pick(Keys(m[..n]), Acts(m[..n]), Write), id);
  }

  lemma KeysActsSnoc(m: seq<(string, Action)>)
    requires m != []
    ensures Keys(m) == Keys(m[..|m| - 1]) + [m[|m| - 1].0]
    ensures Acts(m) == Acts(m[..|m| - 1]) + [m[|m| - 1].1]
  {
    assert Keys(m) == Keys(m[..|m| - 1]) + [m[|m| - 1].0];
    assert Acts(m) == Acts(m[..|m| - 1]) + [m[|m| - 1].1];
  }

  /** The `forEach` over the picked actions, pushing each found event onto its action's list. */
  method SplitActions(actions: seq<(string, Action)>, orphans: seq<Entry>)
    returns (deleteEvents: seq<Option<Entry>>, writeInPlannerEvents: seq<Option<Entry>>)
    ensures (deleteEvents, writeInPlannerEvents) == Split(orphans, actions)
  {
    deleteEvents, writeInPlannerEvents := [], [];
    var k := 0;
    while k < |actions|
      invariant k <= |actions|
      invariant (deleteEvents, writeInPlannerEvents) == Split(orphans, actions[..k])
    {
      var (eventId, action) := actions[k];
      var event := FindById(orphans, eventId);
      if action == Delete {
        deleteEvents := deleteEvents + [event];
      } else {
        writeInPlannerEvents := writeInPlannerEvents + [event];
      }
      assert actions[..k + 1][..k] == actions[..k];
      k := k + 1;
    }
    assert actions[..k] == actions;
  }

  /** The deletion loop, which goes on past a deletion that throws. */
  method DeleteEvents(store: seq<Entry>, deleteEvents: seq<Option<Entry>>, failing: set<string>) returns (after: seq<Entry>)
    ensures after == DeleteAll(store, deleteEvents, failing)
  {
    after := store;
    var j := 0;
    while j < |deleteEvents|
      invariant j <= |deleteEvents|
      invariant after == DeleteAll(store, deleteEvents[..j], failing)
    {
      assert deleteEvents[..j + 1][..j] == deleteEvents[..j];
      match deleteEvents[j] {
        case None =>
        case Some(event) =>
          if event.id !in failing {
            after := RemoveId(after, event.id);
          }
      }
      j := j + 1;
    }
    assert deleteEvents[..j] == deleteEvents;
  }

  lemma FindAllSnoc(orphans: seq<Entry>, ids: seq<string>, id: string)
    ensures FindAll(orphans, ids + [id]) == FindAll(orphans, ids) + [FindById(orphans, id)]
  {
  }

  /** Every picked action is confirmed into exactly one of the two lists. */
  lemma ConfirmSplits(actions: seq<(string, Action)>)
    ensures |Pick(Keys(actions), Acts(actions), Delete)| + |Pick(Keys(actions), Acts(actions), Write)| == |actions|
    ensures multiset(Pick(Keys(actions), Acts(actions), Delete)) + multiset(Pick(Keys(actions), Acts(actions), Write))
            == multiset(Keys(actions))
  {
    PickTwoWay(Keys(actions), Acts(actions), Delete, Write);
  }

  // ------------------------------------------------------------ formatEventTime

  /** `formatEventTime`: "start - end" when there is an end that differs from the start, else the start alone. */
  function FormatEventTime(start: int, end: Option<int>): (r: string)
  {
    if end.Some? && end.value != start then CalendarTimeString(start) + " - " + CalendarTimeString(end.value)
    else CalendarTimeString(start)
  }

  /** The shown time begins with the start's clock, and a range part follows exactly when the end is present and different. */
  lemma {:induction false} FormatEventTimeShape(start: int, end: Option<int>)
    ensures IsPrefix(CalendarTimeString(start), FormatEventTime(start, end))
    ensures |FormatEventTime(start, end)| > |CalendarTimeString(start)| <==> end.Some? && end.value != start
    ensures end.Some? && end.value != start ==>
              FormatEventTime(start, end)[|CalendarTimeString(start)|..] == " - " + CalendarTimeString(end.value)
  {
    var s := CalendarTimeString(start);
    var r := FormatEventTime(start, end);
    if end.Some? && end.value != start {
      PrefixOfConcat(s, " - " + CalendarTimeString(end.value), r);
    } else {
      assert r == s;
    }
  }

  lemma PrefixOfConcat(a: string, b: string, r: string)
    requires r == a + b
    ensures IsPrefix(a, r) && r[|a|..] == b && |r| == |a| + |b|
  {
    assert r[..|a|] == a;
  }
}
