/**
 * The event editor: the event being edited, the time-range switch, the time picker's
 * result, validation before saving, and the clock-to-minutes reading it compares with.
 */
module EditEvent {
  import opened Wrappers
  import opened Text
  import opened Clock

  /** The edited event; an absent field is the empty string, as the editor initialises it. */
  datatype Edited = Edited(id: string, title: string, time: string, startTime: string, endTime: string,
                           hasTimeRange: bool, date: string, daySection: string)

  // ------------------------------------------------------------ parseTimeToMinutes

  /** The hour on the 24-hour clock as the editor computes it: pm adds 12 unless the hour is 12, 12am is 0. */
  function EditorHours(t: ClockTime): nat
  {
    if t.meridian == PM && t.hour != 12 then t.hour + 12
    else if t.meridian == AM && t.hour == 12 then 0
    else t.hour
  }

  /** `parseTimeToMinutes`: minutes after midnight of an anchored `H:MM(am|pm)`, and 0 for anything else. */
  function ParseTimeToMinutes(s: string): (r: nat)
    ensures s == [] || ParseClock(s).None? ==> r == 0
  {
    if s == [] then 0
    else match ParseClock(s)
      case None => 0
      case Some(t) => EditorHours(t) * 60 + t.minute
  }

  /** For a proper clock the editor's hour is the 24-hour hour of the other screens. */
  lemma EditorHoursProper(t: ClockTime)
    requires Proper(t)
    ensures EditorHours(t) == To24(t)
  {
  }

  /** A formatted proper clock reads as its minutes after midnight, below 24 hours. */
  lemma ParseTimeOfFormat(t: ClockTime)
    requires Proper(t)
    ensures ParseTimeToMinutes(Format(t)) == To24(t) * 60 + t.minute
    ensures ParseTimeToMinutes(Format(t)) < 24 * 60
  {
    ParseFormat(t);
  }

  /** Two proper clocks compare by their minutes exactly as their times of day do. */
  lemma ParseTimeOrder(a: ClockTime, b: ClockTime)
    requires Proper(a) && Proper(b)
    ensures ParseTimeToMinutes(Format(a)) < ParseTimeToMinutes(Format(b)) <==>
              To24(a) < To24(b) || (To24(a) == To24(b) && a.minute < b.minute)
  {
    ParseTimeOfFormat(a);
    ParseTimeOfFormat(b);
  }

  // ------------------------------------------------------------ validateEvent

  /** `!title || title.trim().length === 0`. */
  predicate IsBlank(s: string)
  {
    Trim(s) == []
  }

  /** What an event must satisfy to be saved. */
  predicate ValidEvent(ev: Edited)
  {
    !IsBlank(ev.title) && ev.daySection != [] && ValidTime(ev)
  }

  /** The time part: a start and a later end in range mode, a time otherwise. */
  predicate ValidTime(ev: Edited)
  {
    if ev.hasTimeRange
    then ev.startTime != [] && ev.endTime != [] && ParseTimeToMinutes(ev.startTime) < ParseTimeToMinutes(ev.endTime)
    else ev.time != []
  }

  /** The keys of the errors object: the edited event's field names. */
  datatype Field = TitleField | StartTimeField | EndTimeField | TimeField | DaySectionField

  const TitleRequired: string := "Event title is required"
  const StartRequired: string := "Start time is required"
  const EndRequired: string := "End time is required"
  const EndNotAfterStart: string := "End time must be after start time"
  const TimeRequired: string := "Time is required"
  const DayRequired: string := "Day selection is required"

  /**
   * `validateEvent`: the error of each field, keyed by the field's name; the event is
   * valid when no error was recorded. In range mode an end that is not after the start
   * replaces the "required" message.
   */
  method ValidateEvent(ev: Edited) returns (valid: bool, errors: map<Field, string>)
    ensures valid <==> errors == map[]
    ensures valid <==> ValidEvent(ev)
    ensures TitleField in errors <==> IsBlank(ev.title)
    ensures TitleField in errors ==> errors[TitleField] == TitleRequired
    ensures DaySectionField in errors <==> ev.daySection == []
    ensures DaySectionField in errors ==> errors[DaySectionField] == DayRequired
    ensures TimeField in errors <==> !ev.hasTimeRange && ev.time == []
    ensures TimeField in errors ==> errors[TimeField] == TimeRequired
    ensures StartTimeField in errors <==> ev.hasTimeRange && ev.startTime == []
    ensures StartTimeField in errors ==> errors[StartTimeField] == StartRequired
    ensures EndTimeField in errors <==>
              ev.hasTimeRange && (ev.endTime == [] || (ev.startTime != [] && ParseTimeToMinutes(ev.endTime) <= ParseTimeToMinutes(ev.startTime)))
    ensures EndTimeField in errors ==>
              errors[EndTimeField] == if ev.endTime == [] then EndRequired else EndNotAfterStart
  {
    errors := map[];
    if IsBlank(ev.title) {
      errors := errors[TitleField := TitleRequired];
    }
    var timeErrors := TimeErrors(ev);
    errors := errors + timeErrors;
    if ev.daySection == [] {
      errors := errors[DaySectionField := DayRequired];
    }
    valid := errors == map[];
  }

  /**
   * The time checks of `validateEvent`: in range mode a missing start or end is required,
   * and an end not after the start replaces the "required" message; otherwise the time is required.
   */
  method TimeErrors(ev: Edited) returns (errors: map<Field, string>)
    ensures TitleField !in errors && DaySectionField !in errors
    ensures errors == map[] <==> ValidTime(ev)
    ensures TimeField in errors <==> !ev.hasTimeRange && ev.time == []
    ensures TimeField in errors ==> errors[TimeField] == TimeRequired
    ensures StartTimeField in errors <==> ev.hasTimeRange && ev.startTime == []
    ensures StartTimeField in errors ==> errors[StartTimeField] == StartRequired
    ensures EndTimeField in errors <==>
              ev.hasTimeRange && (ev.endTime == [] || (ev.startTime != [] && ParseTimeToMinutes(ev.endTime) <= ParseTimeToMinutes(ev.startTime)))
    ensures EndTimeField in errors ==>
              errors[EndTimeField] == if ev.endTime == [] then EndRequired else EndNotAfterStart
  {
    errors := map[];
    if ev.hasTimeRange {
      if ev.startTime == [] {
        errors := errors[StartTimeField := StartRequired];
      }
      if ev.endTime == [] {
        errors := errors[EndTimeField := EndRequired];
      }
      if ev.startTime != [] && ev.endTime != [] {
        var startMinutes := ParseTimeToMinutes(ev.startTime);
        var endMinutes := ParseTimeToMinutes(ev.endTime);
        if endMinutes <= startMinutes {
          errors := errors[EndTimeField := EndNotAfterStart];
        }
      }
    } else {
      if ev.time == [] {
        errors := errors[TimeField := TimeRequired];
      }
    }
    if !ValidTime(ev) {
      assert StartTimeField in errors || EndTimeField in errors || TimeField in errors;
    }
  }

  // ------------------------------------------------------------ editing and saving

  /** `toggleTimeRange`: switching the range on clears the single time; switching it off clears start and end. */
  function ToggleTimeRange(ev: Edited, value: bool): (r: Edited)
    ensures r.hasTimeRange == value
    ensures value ==> r.time == [] && r.startTime == ev.startTime && r.endTime == ev.endTime
    ensures !value ==> r.startTime == [] && r.endTime == [] && r.time == ev.time
    ensures r.id == ev.id && r.title == ev.title && r.date == ev.date && r.daySection == ev.daySection
  {
    if value then ev.(hasTimeRange := true, time := [])
    else ev.(hasTimeRange := false, startTime := [], endTime := [])
  }

  /** Switching the range on and off again loses the single time, so the event cannot be saved until a time is picked. */
  lemma ToggleOnOffNeedsTime(ev: Edited)
    ensures !ValidEvent(ToggleTimeRange(ToggleTimeRange(ev, true), false))
  {
  }

  /** Switching a single-time event to a range leaves it unsaveable until a start and an end are picked. */
  lemma ToggleOnNeedsRange(ev: Edited)
    requires !ev.hasTimeRange && (ev.startTime == [] || ev.endTime == [])
    ensures !ValidEvent(ToggleTimeRange(ev, true))
  {
  }

  /** Which field the open time picker fills. */
  datatype PickerType = SingleTime | StartTime | EndTime

  /** `handleTimeSelected`: the picked time goes into the field the picker was opened for, and nowhere else. */
  function HandleTimeSelected(ev: Edited, pickerType: PickerType, selected: string): (r: Edited)
    ensures r.time == (if pickerType == SingleTime then selected else ev.time)
    ensures r.startTime == (if pickerType == StartTime then selected else ev.startTime)
    ensures r.endTime == (if pickerType == EndTime then selected else ev.endTime)
    ensures r.(time := ev.time, startTime := ev.startTime, endTime := ev.endTime) == ev
  {
    match pickerType
    case SingleTime => ev.(time := selected)
    case StartTime => ev.(startTime := selected)
    case EndTime => ev.(endTime := selected)
  }

  /**
   * A titled range event on a day, with start and end picked from the picker, can be
   * saved exactly when the end is later in the day than the start.
   */
  lemma PickedRangeValid(ev: Edited, a: ClockTime, b: ClockTime)
    requires ev.hasTimeRange && !IsBlank(ev.title) && ev.daySection != []
    requires Proper(a) && Proper(b)
    ensures var picked := HandleTimeSelected(HandleTimeSelected(ev, StartTime, Format(a)), EndTime, Format(b));
            ValidEvent(picked) <==> To24(a) < To24(b) || (To24(a) == To24(b) && a.minute < b.minute)
  {
    ParseTimeOrder(a, b);
  }

  /** `handleSave`: the event with its title trimmed is handed on only when it validates; the errors are shown either way. */
  method HandleSave(ev: Edited) returns (saved: Option<Edited>, errors: map<Field, string>)
    ensures saved.Some? <==> ValidEvent(ev)
    ensures saved.Some? <==> errors == map[]
    ensures saved.Some? ==> saved.value == ev.(title := Trim(ev.title))
  {
    var valid;
    valid, errors := ValidateEvent(ev);
    if valid {
      saved := Some(ev.(title := Trim(ev.title)));
    } else {
      saved := None;
    }
  }

  /** A saved title is trimmed and not blank. */
  lemma SavedTitleTrimmed(ev: Edited)
    requires ValidEvent(ev)
    ensures Trim(ev.title) != [] && Trim(Trim(ev.title)) == Trim(ev.title)
  {
    TrimIdempotent(ev.title);
  }

  // ------------------------------------------------------------ the day buttons

  /**
   * A day button: the event takes that day's section and date, and the day error, when one
   * is shown, is cleared. The source sets it to `null`, which shows nothing, as a missing
   * key does; every other field and every other error is kept.
   */
  function SelectDay(ev: Edited, errors: map<Field, string>, day: string, date: string): (r: (Edited, map<Field, string>))
    ensures r.0.daySection == day && r.0.date == date
    ensures r.0.(daySection := ev.daySection, date := ev.date) == ev
    ensures DaySectionField !in r.1
    ensures forall f :: f != DaySectionField ==> (f in r.1 <==> f in errors)
    ensures forall f :: f != DaySectionField && f in errors ==> r.1[f] == errors[f]
  {
    var cleared := if DaySectionField in errors then errors - {DaySectionField} else errors;
    (ev.(daySection := day, date := date), cleared)
  }

  /** Once a day is picked, the event can be saved exactly when its title and time part are valid. */
  lemma DayPickedValid(ev: Edited, errors: map<Field, string>, day: string, date: string)
    requires day != []
    ensures ValidEvent(SelectDay(ev, errors, day, date).0) <==> !IsBlank(ev.title) && ValidTime(ev)
  {
    var picked := SelectDay(ev, errors, day, date).0;
    assert picked.title == ev.title && picked.hasTimeRange == ev.hasTimeRange;
    assert picked.time == ev.time && picked.startTime == ev.startTime && picked.endTime == ev.endTime;
  }

}
