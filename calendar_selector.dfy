/**
 * The calendar import screen: the date range of the extracted events, the duplicate
 * check against the device calendar, and the import loop that creates one calendar
 * event per extracted event (or counts it as a duplicate, or records an error).
 */
module CalendarSelector {
  import opened Wrappers
  import opened Text
  import opened Dates
  import opened Clock
  import opened Partition
  import opened CalendarStore

  /**
   * An extracted event as the screen receives it: a single `time`, or a
   * `startTime`/`endTime` range, and the page's date (absent when the event has none).
   */
  datatype PlannerEvent = PlannerEvent(title: string, time: string, hasTimeRange: bool, startTime: string,
                                       endTime: string, date: Option<int>)

  datatype DateRange = DateRange(start: Option<int>, end: Option<int>)

  // ------------------------------------------------------------ getDateRangeFromEvents

  /** `getDateRangeFromEvents`: `None` for absent or empty input, else the earliest and latest dates present. */
  method GetDateRangeFromEvents(events: Option<seq<PlannerEvent>>) returns (r: Option<DateRange>)
    ensures r.None? <==> events.None? || events.value == []
    ensures r.Some? ==> (r.value.start.Some? <==> exists i :: 0 <= i < |events.value| && events.value[i].date.Some?)
    ensures r.Some? ==> (r.value.end.Some? <==> r.value.start.Some?)
    ensures r.Some? && r.value.start.Some? ==>
              (exists i :: 0 <= i < |events.value| && events.value[i].date == r.value.start)
              && forall i :: 0 <= i < |events.value| && events.value[i].date.Some? ==> r.value.start.value <= events.value[i].date.value
    ensures r.Some? && r.value.end.Some? ==>
              (exists i :: 0 <= i < |events.value| && events.value[i].date == r.value.end)
              && forall i :: 0 <= i < |events.value| && events.value[i].date.Some? ==> events.value[i].date.value <= r.value.end.value
    ensures r.Some? && r.value.start.Some? ==> r.value.start.value <= r.value.end.value
  {
    if events.None? || events.value == [] {
      return None;
    }
    var evs := events.value;
    var earliest: Option<int> := None;
    var latest: Option<int> := None;
    var k := 0;
    while k < |evs|
      invariant k <= |evs|
      invariant earliest.Some? <==> exists i :: 0 <= i < k && evs[i].date.Some?
      invariant latest.Some? <==> earliest.Some?
      invariant earliest.Some? ==> (exists i :: 0 <= i < k && evs[i].date == earliest)
                                   && forall i :: 0 <= i < k && evs[i].date.Some? ==> earliest.value <= evs[i].date.value
      invariant latest.Some? ==> (exists i :: 0 <= i < k && evs[i].date == latest)
                                 && forall i :: 0 <= i < k && evs[i].date.Some? ==> evs[i].date.value <= latest.value
    {
      if evs[k].date.Some? {
        var d := evs[k].date.value;
        if earliest.None? || d < earliest.value {
          earliest := Some(d);
        }
        if latest.None? || d > latest.value {
          latest := Some(d);
        }
      }
      k := k + 1;
    }
    r := Some(DateRange(earliest, latest));
    if earliest.Some? {
      var i :| 0 <= i < |evs| && evs[i].date == earliest;
    }
  }

  // ------------------------------------------------------------ checkForDuplicateEvent

  /** The clock string the import reads: `startTime` for a range, `time` otherwise. */
  function EventTime(e: PlannerEvent): string
  {
    if e.hasTimeRange then e.startTime else e.time
  }

  /** A stored event at that hour and minute whose title equals `title` up to letter case. */
  predicate SameSlot(x: Entry, hours: int, minutes: int, title: string)
  {
    GetHours(x.start) == hours && GetMinutes(x.start) == minutes && Lower(x.title) == Lower(title)
  }

  /** `existingEvents.some(…)` over the day's events. */
  function SomeSameSlot(existing: seq<Entry>, hours: int, minutes: int, title: string): bool
  {
    if existing == [] then false
    else SameSlot(existing[0], hours, minutes, title) || SomeSameSlot(existing[1..], hours, minutes, title)
  }

  lemma {:induction false} SomeSameSlotIff(existing: seq<Entry>, hours: int, minutes: int, title: string)
    ensures SomeSameSlot(existing, hours, minutes, title) <==> exists x :: x in existing && SameSlot(x, hours, minutes, title)
  {
    if existing != [] {
      SomeSameSlotIff(existing[1..], hours, minutes, title);
      assert forall x :: x in existing <==> x == existing[0] || x in existing[1..];
    }
  }

  /**
   * `checkForDuplicateEvent`: the day's events of the calendar are fetched, the event's
   * clock is read with the unanchored `(\d{1,2}):(\d{2})(am|pm)` and turned to 24 hours,
   * and an event at that hour and minute with the same title (ignoring case) is a
   * duplicate. `queryOk` is false when the fetch throws; an event without a date has no
   * day to search, and both answer false, as does a time string without a clock.
   */
  predicate IsDuplicateEvent(store: seq<Entry>, calendarId: string, e: PlannerEvent, queryOk: bool)
  {
    queryOk && e.date.Some? &&
    match FindClock(EventTime(e), 0)
    case None => false
    case Some(t) =>
      SomeSameSlot(Query(store, calendarId, DayFrom(e.date.value), DayTo(e.date.value)), To24(t), t.minute, e.title)
  }

  /** A duplicate is a stored event of that calendar, on that day, at that hour and minute, with that title up to case. */
  lemma DuplicateEventIff(store: seq<Entry>, calendarId: string, e: PlannerEvent, queryOk: bool)
    ensures IsDuplicateEvent(store, calendarId, e, queryOk) <==>
              queryOk && e.date.Some? && FindClock(EventTime(e), 0).Some?
              && exists x :: x in store && x.calendarId == calendarId && DayStart(x.start) == DayStart(e.date.value)
                             && SameSlot(x, To24(FindClock(EventTime(e), 0).value), FindClock(EventTime(e), 0).value.minute, e.title)
  {
    if queryOk && e.date.Some? && FindClock(EventTime(e), 0).Some? {
      var t := FindClock(EventTime(e), 0).value;
      var d := e.date.value;
      SomeSameSlotIff(Query(store, calendarId, DayFrom(d), DayTo(d)), To24(t), t.minute, e.title);
      DayQuery(store, calendarId, d);
    }
  }

  // ------------------------------------------------------------ importToCalendar

  const InvalidTimeFormat: string := "Invalid time format"

  /** What reading `setHours` of an absent date throws. */
  const MissingDateMessage: string := "Cannot read properties of undefined (reading 'setHours')"

  /** Every created event carries one alarm this many minutes before its start. */
  const AlarmOffset: int := -30

  /** The title, start, end and alarm handed to `createEventAsync`. */
  datatype EventRequest = EventRequest(title: string, startDate: int, endDate: int, alarmOffset: int)

  datatype Outcome = ImportedOutcome | DuplicateOutcome | ErrorOutcome

  /**
   * The import so far: the counters and error lines, the creation requests sent, the
   * device store, each event as the loop left it (its date moved to the start time once
   * that was set), and each event's outcome.
   */
  datatype Import = Import(importedCount: nat, duplicates: nat, errors: seq<string>, requests: seq<EventRequest>,
                           store: seq<Entry>, events: seq<PlannerEvent>, outcomes: seq<Outcome>)

  /** `eventDate.setHours(hours, minutes, 0, 0)` with the clock turned to 24 hours. */
  function StartOf(date: int, t: ClockTime): int
  {
    SetHours(date, To24(t), t.minute, 0, 0)
  }

  /** The end date: the parsed `endTime` on the start's day for a range (the start itself when it does not parse), one hour on otherwise. */
  function EndOf(e: PlannerEvent, start: int): int
  {
    if e.hasTimeRange then
      match FindClock(e.endTime, 0)
      case Some(t) => SetHours(start, To24(t), t.minute, 0, 0)
      case None => start
    else SetHours(start, GetHours(start) + 1, GetMinutes(start), (start % MsPerMinute) / 1000, start % 1000)
  }

  /** A single-time event lasts exactly one hour. */
  lemma EndOfSingle(e: PlannerEvent, start: int)
    requires !e.hasTimeRange
    ensures EndOf(e, start) == start + MsPerHour
  {
    NextHour(start);
  }

  /** A range event ends on the start's day at its end clock, or at its start when the end clock does not parse. */
  lemma EndOfRange(e: PlannerEvent, start: int)
    requires e.hasTimeRange
    ensures FindClock(e.endTime, 0).None? ==> EndOf(e, start) == start
    ensures FindClock(e.endTime, 0).Some? && Proper(FindClock(e.endTime, 0).value) ==>
              var t := FindClock(e.endTime, 0).value;
              DayStart(EndOf(e, start)) == DayStart(start) && GetHours(EndOf(e, start)) == To24(t)
              && GetMinutes(EndOf(e, start)) == t.minute
  {
    if FindClock(e.endTime, 0).Some? && Proper(FindClock(e.endTime, 0).value) {
      var t := FindClock(e.endTime, 0).value;
      SetHoursReadBack(start, To24(t), t.minute);
    }
  }

  /** A proper clock sets the start on the page's day at that hour and minute. */
  lemma StartOfReadBack(date: int, t: ClockTime)
    requires Proper(t)
    ensures DayStart(StartOf(date, t)) == DayStart(date)
    ensures GetHours(StartOf(date, t)) == To24(t) && GetMinutes(StartOf(date, t)) == t.minute
  {
    SetHoursReadBack(date, To24(t), t.minute);
  }

  function ErrorLine(e: PlannerEvent, message: string): string
  {
    e.title + ": " + message
  }

  /** One pass of the loop body for event `e`. */
  function ImportStep(run: Import, e: PlannerEvent, call: Calls, calendarId: string): (r: Import)
  {
    if IsDuplicateEvent(run.store, calendarId, e, call.queryOk) then
      run.(duplicates := run.duplicates + 1, events := run.events + [e], outcomes := run.outcomes + [DuplicateOutcome])
    else match FindClock(EventTime(e), 0)
      case None =>
        run.(errors := run.errors + [ErrorLine(e, InvalidTimeFormat)], events := run.events + [e],
             outcomes := run.outcomes + [ErrorOutcome])
      case Some(t) =>
        match e.date
        case None =>
          run.(errors := run.errors + [ErrorLine(e, MissingDateMessage)], events := run.events + [e],
               outcomes := run.outcomes + [ErrorOutcome])
        case Some(date) =>
          var start := StartOf(date, t);
          var moved := e.(date := Some(start));
          match call.create
          case Throws(message) =>
            run.(errors := run.errors + [ErrorLine(e, message)], events := run.events + [moved],
                 outcomes := run.outcomes + [ErrorOutcome])
          case NewId(id) =>
            run.(importedCount := run.importedCount + 1,
                 requests := run.requests + [EventRequest(e.title, start, EndOf(e, start), AlarmOffset)],
                 store := run.store + [Entry(id, calendarId, e.title, start, EndOf(e, start))],
                 events := run.events + [moved], outcomes := run.outcomes + [ImportedOutcome])
  }

  /** The import after the first `n` events. */
  function ImportUpTo(events: seq<PlannerEvent>, calls: seq<Calls>, calendarId: string, store: seq<Entry>, n: nat): (r: Import)
    requires |calls| == |events| && n <= |events|
    ensures |r.outcomes| == n && |r.events| == n
  {
    if n == 0 then Import(0, 0, [], [], store, [], [])
    else ImportStep(ImportUpTo(events, calls, calendarId, store, n - 1), events[n - 1], calls[n - 1], calendarId)
  }

  lemma ImportUpToStep(events: seq<PlannerEvent>, calls: seq<Calls>, calendarId: string, store: seq<Entry>, k: nat, run: Import)
    requires |calls| == |events| && k < |events|
    requires run == ImportUpTo(events, calls, calendarId, store, k)
    ensures ImportUpTo(events, calls, calendarId, store, k + 1) == ImportStep(run, events[k], calls[k], calendarId)
  {
  }

  /**
   * `importToCalendar`: for each event, skip it as a duplicate, or create it with its
   * start, end and alarm, or record `title: message` for the error it threw.
   * `calls[i]` are the device's answers for event `i`; `after` is the store afterwards and
   * `updated` the events with the dates the loop set on them.
   */
  method ImportToCalendar(events: seq<PlannerEvent>, calls: seq<Calls>, calendarId: string, store: seq<Entry>)
    returns (importedCount: nat, duplicates: nat, errors: seq<string>, requests: seq<EventRequest>,
             after: seq<Entry>, updated: seq<PlannerEvent>)
    requires |calls| == |events|
    ensures var r := ImportUpTo(events, calls, calendarId, store, |events|);
            importedCount == r.importedCount && duplicates == r.duplicates && errors == r.errors
            && requests == r.requests && after == r.store && updated == r.events
  {
    importedCount, duplicates, errors, requests, after, updated := 0, 0, [], [], store, [];
    ghost var outcomes: seq<Outcome> := [];
    var k := 0;
    while k < |events|
      invariant k <= |events|
      invariant Import(importedCount, duplicates, errors, requests, after, updated, outcomes)
                == ImportUpTo(events, calls, calendarId, store, k)
    {
      ghost var before := Import(importedCount, duplicates, errors, requests, after, updated, outcomes);
      var event := events[k];
      var isDuplicate := IsDuplicateEvent(after, calendarId, event, calls[k].queryOk);
      if isDuplicate {
        duplicates := duplicates + 1;
        updated := updated + [event];
        outcomes := outcomes + [DuplicateOutcome];
      } else {
        var timeMatch := FindClock(EventTime(event), 0);
        if timeMatch.None? {
          errors := errors + [ErrorLine(event, InvalidTimeFormat)];
          updated := updated + [event];
          outcomes := outcomes + [ErrorOutcome];
        } else if event.date.None? {
          errors := errors + [ErrorLine(event, MissingDateMessage)];
          updated := updated + [event];
          outcomes := outcomes + [ErrorOutcome];
        } else {
          var startDate := StartOf(event.date.value, timeMatch.value);
          var endDate := EndOf(event, startDate);
          updated := updated + [event.(date := Some(startDate))];
          match calls[k].create {
            case Throws(message) =>
              errors := errors + [ErrorLine(event, message)];
              outcomes := outcomes + [ErrorOutcome];
            case NewId(id) =>
              requests := requests + [EventRequest(event.title, startDate, endDate, AlarmOffset)];
              after := after + [Entry(id, calendarId, event.title, startDate, endDate)];
              importedCount := importedCount + 1;
              outcomes := outcomes + [ImportedOutcome];
          }
        }
      }
      assert Import(importedCount, duplicates, errors, requests, after, updated, outcomes)
          == ImportStep(before, events[k], calls[k], calendarId);
      ImportUpToStep(events, calls, calendarId, store, k, before);
      k := k + 1;
    }
  }

  // ------------------------------------------------------------ what the import promises

  /**
   * The counters and lists of an import over `xs`: each event is counted under exactly
   * its outcome, every request belongs to an imported event (in order, with the −30
   * alarm), and every error line starts with its event's title.
   */
  predicate Tallied(run: Import, xs: seq<PlannerEvent>)
    requires |xs| == |run.outcomes|
  {
    (forall i :: 0 <= i < |xs| ==> run.outcomes[i] in {ImportedOutcome, DuplicateOutcome, ErrorOutcome})
    && run.importedCount == |Pick(xs, run.outcomes, ImportedOutcome)|
    && run.duplicates == |Pick(xs, run.outcomes, DuplicateOutcome)|
    && |run.errors| == |Pick(xs, run.outcomes, ErrorOutcome)|
    && |run.requests| == run.importedCount
    && (forall k :: 0 <= k < |run.requests| ==>
          run.requests[k].title == Pick(xs, run.outcomes, ImportedOutcome)[k].title
          && run.requests[k].alarmOffset == AlarmOffset)
    && forall k :: 0 <= k < |run.errors| ==> IsPrefix(Pick(xs, run.outcomes, ErrorOutcome)[k].title + ": ", run.errors[k])
  }

  /** One step appends one outcome and never takes an entry out of the store. */
  lemma StepAppends(run: Import, e: PlannerEvent, call: Calls, calendarId: string)
    ensures var r := ImportStep(run, e, call, calendarId);
            |r.outcomes| == |run.outcomes| + 1 && r.outcomes[..|run.outcomes|] == run.outcomes
            && r.outcomes[|run.outcomes|] in {ImportedOutcome, DuplicateOutcome, ErrorOutcome}
            && run.store <= r.store
  {
  }

  /** What one step changes, per outcome, stated without the step itself. */
  predicate StepChanges(run: Import, r: Import, e: PlannerEvent, o: Outcome)
  {
    r.outcomes == run.outcomes + [o]
    && (o == ImportedOutcome ==>
          r.importedCount == run.importedCount + 1 && r.duplicates == run.duplicates && r.errors == run.errors
          && |r.requests| == |run.requests| + 1 && r.requests[..|run.requests|] == run.requests
          && r.requests[|run.requests|].title == e.title && r.requests[|run.requests|].alarmOffset == AlarmOffset)
    && (o == DuplicateOutcome ==>
          r.importedCount == run.importedCount && r.duplicates == run.duplicates + 1 && r.errors == run.errors
          && r.requests == run.requests)
    && (o == ErrorOutcome ==>
          r.importedCount == run.importedCount && r.duplicates == run.duplicates && r.requests == run.requests
          && |r.errors| == |run.errors| + 1 && r.errors[..|run.errors|] == run.errors
          && IsPrefix(e.title + ": ", r.errors[|run.errors|]))
  }

  lemma {:induction false} StepChangesHold(run: Import, e: PlannerEvent, call: Calls, calendarId: string)
    ensures var r := ImportStep(run, e, call, calendarId);
            |r.outcomes| == |run.outcomes| + 1 && StepChanges(run, r, e, r.outcomes[|run.outcomes|])
  {
    var r := ImportStep(run, e, call, calendarId);
    if !IsDuplicateEvent(run.store, calendarId, e, call.queryOk) && r.outcomes[|run.outcomes|] == ErrorOutcome {
      assert IsPrefix(e.title + ": ", r.errors[|run.errors|]);
    }
  }

  lemma {:induction false} TalliedSnoc(run: Import, r: Import, xs: seq<PlannerEvent>, e: PlannerEvent, o: Outcome)
    requires |xs| == |run.outcomes| && Tallied(run, xs)
    requires o in {ImportedOutcome, DuplicateOutcome, ErrorOutcome} && StepChanges(run, r, e, o)
    ensures |xs + [e]| == |r.outcomes| && Tallied(r, xs + [e])
  {
    PickSnoc(xs, run.outcomes, ImportedOutcome, e, o);
    PickSnoc(xs, run.outcomes, DuplicateOutcome, e, o);
    PickSnoc(xs, run.outcomes, ErrorOutcome, e, o);
    if o == ImportedOutcome {
      assert r.requests == run.requests + [r.requests[|run.requests|]];
    } else if o == ErrorOutcome {
      assert r.errors == run.errors + [r.errors[|run.errors|]];
    }
  }

  lemma StepTallied(run: Import, xs: seq<PlannerEvent>, e: PlannerEvent, call: Calls, calendarId: string,
                    r: Import, ys: seq<PlannerEvent>)
    requires |xs| == |run.outcomes| && Tallied(run, xs)
    requires r == ImportStep(run, e, call, calendarId) && ys == xs + [e]
    ensures |ys| == |r.outcomes| && Tallied(r, ys)
  {
    StepAppends(run, e, call, calendarId);
    StepChangesHold(run, e, call, calendarId);
    TalliedSnoc(run, r, xs, e, r.outcomes[|xs|]);
  }

  /** After the first `n` events the counters and lists are tallied as above. */
  lemma {:induction false} ImportTallied(events: seq<PlannerEvent>, calls: seq<Calls>, calendarId: string, store: seq<Entry>, n: nat)
    requires |calls| == |events| && n <= |events|
    ensures Tallied(ImportUpTo(events, calls, calendarId, store, n), events[..n])
  {
    if n > 0 {
      ImportTallied(events, calls, calendarId, store, n - 1);
      TakeSnoc(events, n);
      StepTallied(ImportUpTo(events, calls, calendarId, store, n - 1), events[..n - 1], events[n - 1], calls[n - 1], calendarId,
                  ImportUpTo(events, calls, calendarId, store, n), events[..n]);
    }
  }

  /** Every event is counted exactly once: imported, duplicate or error. */
  lemma ImportPartition(events: seq<PlannerEvent>, calls: seq<Calls>, calendarId: string, store: seq<Entry>)
    requires |calls| == |events|
    ensures var r := ImportUpTo(events, calls, calendarId, store, |events|);
            r.importedCount + r.duplicates + |r.errors| == |events| && |r.requests| == r.importedCount
  {
    var r := ImportUpTo(events, calls, calendarId, store, |events|);
    ImportTallied(events, calls, calendarId, store, |events|);
    assert events[..|events|] == events;
    PickThreeWay(events, r.outcomes, ImportedOutcome, DuplicateOutcome, ErrorOutcome);
  }

  /** An event's outcome is settled by its own step: later events only append theirs. */
  lemma OutcomeSettled(events: seq<PlannerEvent>, calls: seq<Calls>, calendarId: string, store: seq<Entry>, k: nat, n: nat)
    requires |calls| == |events| && k < n <= |events|
    ensures ImportUpTo(events, calls, calendarId, store, n).outcomes[k] == ImportUpTo(events, calls, calendarId, store, k + 1).outcomes[k]
    decreases n
  {
    OutcomeStays(events, calls, calendarId, store, k, n, ImportUpTo(events, calls, calendarId, store, k + 1).outcomes[k]);
  }

  /** The outcome `o` event `k` got in its own step is its outcome after every later step. */
  lemma {:induction false} OutcomeStays(events: seq<PlannerEvent>, calls: seq<Calls>, calendarId: string, store: seq<Entry>, k: nat, n: nat, o: Outcome)
    requires |calls| == |events| && k < n <= |events|
    requires ImportUpTo(events, calls, calendarId, store, k + 1).outcomes[k] == o
    ensures ImportUpTo(events, calls, calendarId, store, n).outcomes[k] == o
    decreases n
  {
    if n > k + 1 {
      OutcomeStays(events, calls, calendarId, store, k, n - 1, o);
      OutcomeKept(events, calls, calendarId, store, k, n, o);
    }
  }

  /** The outcome an earlier event had after `n - 1` events is still its outcome after `n`. */
  lemma OutcomeKept(events: seq<PlannerEvent>, calls: seq<Calls>, calendarId: string, store: seq<Entry>, k: nat, n: nat, o: Outcome)
    requires |calls| == |events| && k + 1 < n <= |events|
    requires ImportUpTo(events, calls, calendarId, store, n - 1).outcomes[k] == o
    ensures ImportUpTo(events, calls, calendarId, store, n).outcomes[k] == o
  {
    var prev := ImportUpTo(events, calls, calendarId, store, n - 1);
    var next := ImportUpTo(events, calls, calendarId, store, n);
    ImportUpToStep(events, calls, calendarId, store, n - 1, prev);
    StepAppends(prev, events[n - 1], calls[n - 1], calendarId);
    assert next.outcomes[..|prev.outcomes|][k] == prev.outcomes[k];
  }

  /**
   * Event `i` is skipped as a duplicate exactly when the duplicate check on the store as
   * the earlier events left it says so; it is imported only when that check fails, its
   * clock and date are there and creation succeeds.
   */
  lemma ImportOutcomeAt(events: seq<PlannerEvent>, calls: seq<Calls>, calendarId: string, store: seq<Entry>, i: nat)
    requires |calls| == |events| && i < |events|
    ensures var before := ImportUpTo(events, calls, calendarId, store, i).store;
            var o := ImportUpTo(events, calls, calendarId, store, |events|).outcomes[i];
            (o == DuplicateOutcome <==> IsDuplicateEvent(before, calendarId, events[i], calls[i].queryOk))
            && (o == ImportedOutcome <==> !IsDuplicateEvent(before, calendarId, events[i], calls[i].queryOk)
                                          && FindClock(EventTime(events[i]), 0).Some? && events[i].date.Some?
                                          && calls[i].create.NewId?)
  {
    OutcomeSettled(events, calls, calendarId, store, i, |events|);
    var prev := ImportUpTo(events, calls, calendarId, store, i);
    var mid := ImportUpTo(events, calls, calendarId, store, i + 1);
    assert mid == ImportStep(prev, events[i], calls[i], calendarId);
    var o := mid.outcomes[i];
    assert o == ImportUpTo(events, calls, calendarId, store, |events|).outcomes[i];
    var e := events[i];
    if IsDuplicateEvent(prev.store, calendarId, e, calls[i].queryOk) {
      assert o == DuplicateOutcome;
    } else if FindClock(EventTime(e), 0).None? || e.date.None? || calls[i].create.Throws? {
      assert o == ErrorOutcome;
    } else {
      assert o == ImportedOutcome;
    }
  }

  /** An event with no `H:MM(am|pm)` in its time string that is not a duplicate is an "Invalid time format" error. */
  lemma NoClockIsError(run: Import, e: PlannerEvent, call: Calls, calendarId: string)
    requires FindClock(EventTime(e), 0).None?
    ensures ImportStep(run, e, call, calendarId).errors == run.errors + [e.title + ": Invalid time format"]
    ensures ImportStep(run, e, call, calendarId).store == run.store
  {
    assert !IsDuplicateEvent(run.store, calendarId, e, call.queryOk);
    assert ErrorLine(e, InvalidTimeFormat) == e.title + ": Invalid time format";
  }

  /**
   * Importing an event with a proper clock puts an entry in the store that the duplicate
   * check then finds: importing the same event again is skipped.
   */
  lemma ImportedIsDuplicate(run: Import, e: PlannerEvent, call: Calls, calendarId: string, queryOk: bool)
    requires !IsDuplicateEvent(run.store, calendarId, e, call.queryOk)
    requires e.date.Some? && FindClock(EventTime(e), 0).Some? && Proper(FindClock(EventTime(e), 0).value)
    requires call.create.NewId?
    ensures IsDuplicateEvent(ImportStep(run, e, call, calendarId).store, calendarId, e, true)
  {
    var t := FindClock(EventTime(e), 0).value;
    var start := StartOf(e.date.value, t);
    var x := Entry(call.create.id, calendarId, e.title, start, EndOf(e, start));
    var after := ImportStep(run, e, call, calendarId).store;
    assert after == run.store + [x];
    assert x in after;
    StartOfReadBack(e.date.value, t);
    DuplicateEventIff(after, calendarId, e, true);
  }
}
