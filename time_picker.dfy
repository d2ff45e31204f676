/**
 * The time picker: three wheels (hour 1–12, minute 0–59, am/pm) and quick presets, seeded
 * from an initial clock string or from the current time, and confirmed as a clock string.
 */
module TimePicker {
  import opened Wrappers
  import opened Text
  import opened Dates
  import opened Clock

  /** The hour wheel, `Array.from({length: 12}, (_, i) => i + 1)`. */
  function HourOptions(): (r: seq<nat>)
    ensures |r| == 12 && forall i :: 0 <= i < 12 ==> r[i] == i + 1
  {
    seq(12, i requires 0 <= i < 12 => i + 1)
  }

  /** The minute wheel, `Array.from({length: 60}, (_, i) => i)`. */
  function MinuteOptions(): (r: seq<nat>)
    ensures |r| == 60 && forall i :: 0 <= i < 60 ==> r[i] == i
  {
    seq(60, i requires 0 <= i < 60 => i)
  }

  /** The wheels offer exactly the proper clocks. */
  lemma WheelsAreProper(t: ClockTime)
    ensures t.hour in HourOptions() && t.minute in MinuteOptions() <==> Proper(t)
  {
    if Proper(t) {
      assert HourOptions()[t.hour - 1] == t.hour;
      assert MinuteOptions()[t.minute] == t.minute;
    }
  }

  /** The quick-select buttons: 9am, 12pm, 1pm, 5pm, 6pm and 7pm. */
  const Presets: seq<ClockTime> := [ClockTime(9, 0, AM), ClockTime(12, 0, PM), ClockTime(1, 0, PM),
                                    ClockTime(5, 0, PM), ClockTime(6, 0, PM), ClockTime(7, 0, PM)]

  class Picker {
    var selectedHour: nat
    var selectedMinute: nat
    var selectedMeridian: Meridian

    function Selection(): ClockTime
      reads this
    {
      ClockTime(selectedHour, selectedMinute, selectedMeridian)
    }

    /** What the wheels can show. */
    predicate OnWheels()
      reads this
    {
      Proper(Selection())
    }

    /** The initial state: 12:00am. */
    constructor()
      ensures Selection() == ClockTime(12, 0, AM)
      ensures OnWheels()
    {
      selectedHour := 12;
      selectedMinute := 0;
      selectedMeridian := AM;
    }

    /**
     * `parseInitialTime`: an anchored `H:MM(am|pm)` in any case sets all three wheels;
     * anything else leaves them. The numbers are taken as written, so "0:00am" or
     * "13:00pm" select an hour the wheel does not offer.
     */
    method ParseInitialTime(timeStr: string)
      modifies this
      ensures ParseClock(timeStr).Some? ==> Selection() == ParseClock(timeStr).value
      ensures ParseClock(timeStr).None? ==> Selection() == old(Selection())
    {
      var m := ParseClock(timeStr);
      if m.Some? {
        selectedHour := m.value.hour;
        selectedMinute := m.value.minute;
        selectedMeridian := m.value.meridian;
      }
    }

    /**
     * The effect run when the picker opens: a non-empty initial time is parsed, otherwise
     * the wheels show the current local time `now` on the 12-hour clock.
     */
    method Open(initialTime: string, now: int)
      modifies this
      ensures initialTime != [] && ParseClock(initialTime).Some? ==> Selection() == ParseClock(initialTime).value
      ensures initialTime != [] && ParseClock(initialTime).None? ==> Selection() == old(Selection())
      ensures initialTime == [] ==> Selection() == To12(GetHours(now), GetMinutes(now)) && OnWheels()
      ensures initialTime == [] ==> To24(Selection()) == GetHours(now) && selectedMinute == GetMinutes(now)
    {
      if initialTime != [] {
        ParseInitialTime(initialTime);
      } else {
        var currentHour := GetHours(now);
        var currentMinute := GetMinutes(now);
        var currentMeridian := if currentHour >= 12 then PM else AM;
        if currentHour == 0 {
          currentHour := 12;
        }
        if currentHour > 12 {
          currentHour := currentHour - 12;
        }
        selectedHour := currentHour;
        selectedMinute := currentMinute;
        selectedMeridian := currentMeridian;
        To24To12(GetHours(now), GetMinutes(now));
      }
    }

    /** Tapping a value on the hour wheel. */
    method PickHour(h: nat)
      requires h in HourOptions()
      modifies this
      ensures Selection() == old(Selection()).(hour := h)
      ensures old(OnWheels()) ==> OnWheels()
    {
      selectedHour := h;
    }

    /** Tapping a value on the minute wheel. */
    method PickMinute(m: nat)
      requires m in MinuteOptions()
      modifies this
      ensures Selection() == old(Selection()).(minute := m)
      ensures old(OnWheels()) ==> OnWheels()
    {
      selectedMinute := m;
    }

    /** Tapping am or pm. */
    method PickMeridian(mer: Meridian)
      modifies this
      ensures Selection() == old(Selection()).(meridian := mer)
      ensures old(OnWheels()) ==> OnWheels()
    {
      selectedMeridian := mer;
    }

    /** A quick-select button sets all three wheels together. */
    method PickPreset(k: nat)
      requires k < |Presets|
      modifies this
      ensures Selection() == Presets[k]
      ensures OnWheels()
    {
      selectedHour := Presets[k].hour;
      selectedMinute := Presets[k].minute;
      selectedMeridian := Presets[k].meridian;
    }

    /** `handleTimeConfirm`: the selection as a clock string, which reads back as the selection when it is on the wheels. */
    method Confirm() returns (timeString: string)
      ensures timeString == Format(Selection())
      ensures OnWheels() ==> ParseClock(timeString) == Some(Selection())
    {
      timeString := Format(Selection());
      if OnWheels() {
        ParseFormat(Selection());
      }
    }
  }
}
