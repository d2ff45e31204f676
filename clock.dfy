/**
 * Twelve-hour clock strings of the form `H:MMam` / `H:MMpm`, shared by the event
 * extractor, the calendar import and sync screens, the event editor and the time picker.
 */
module Clock {
  import opened Wrappers
  import opened Text

  datatype Meridian = AM | PM
  {
    function Text(): (r: string)
      ensures |r| == 2 && r[1] == 'm'
    {
      if this == AM then "am" else "pm"
    }
  }

  /** `am` or `pm` at position `i`, in any letter case (the `i` regular-expression flag). */
  function MeridianAt(s: string, i: nat): (r: Option<Meridian>)
    ensures r.Some? ==> i + 2 <= |s| && Lower(s[i..i + 2]) == r.value.Text()
    ensures r.None? ==> i + 2 > |s| || (Lower(s[i..i + 2]) != "am" && Lower(s[i..i + 2]) != "pm")
  {
    if i + 2 > |s| then None
    else if Lower(s[i..i + 2]) == "am" then Some(AM)
    else if Lower(s[i..i + 2]) == "pm" then Some(PM)
    else None
  }

  lemma MeridianAtText(m: Meridian, pre: string, post: string)
    ensures MeridianAt(pre + m.Text() + post, |pre|) == Some(m)
  {
    var s := pre + m.Text() + post;
    assert s[|pre|..|pre| + 2] == m.Text();
    LowerOfNoUpper(m.Text());
  }

  datatype ClockTime = ClockTime(hour: nat, minute: nat, meridian: Meridian)

  /** The clock is one a planner or a picker can show: hour 1..12, minute 0..59. */
  predicate Proper(t: ClockTime) { 1 <= t.hour <= 12 && t.minute <= 59 }

  /** `${hour}:${minute padded to two digits}${meridian}`. */
  function Format(t: ClockTime): (r: string)
    ensures t.hour < 10 && t.minute < 100 ==> |r| == 6
    ensures 10 <= t.hour < 100 && t.minute < 100 ==> |r| == 7
  {
    NatToStringLength(t.hour);
    NatToString(t.hour) + ":" + Pad2(t.minute) + t.meridian.Text()
  }

  /** `s.match(/^(\d{1,2}):(\d{2})(am|pm)$/i)`, read as numbers and a meridian. */
  function ParseClock(s: string): (r: Option<ClockTime>)
    ensures r.Some? ==> r.value.hour < 100 && r.value.minute < 100
    ensures r.Some? ==> |s| == 6 || |s| == 7
  {
    if |s| == 6 && IsDigit(s[0]) && s[1] == ':' && AllDigits(s[2..4]) && MeridianAt(s, 4).Some? then
      ParseDigitsBound(s[..1]);
      ParseDigitsBound(s[2..4]);
      Some(ClockTime(ParseDigits(s[..1]), ParseDigits(s[2..4]), MeridianAt(s, 4).value))
    else if |s| == 7 && AllDigits(s[..2]) && s[2] == ':' && AllDigits(s[3..5]) && MeridianAt(s, 5).Some? then
      ParseDigitsBound(s[..2]);
      ParseDigitsBound(s[3..5]);
      Some(ClockTime(ParseDigits(s[..2]), ParseDigits(s[3..5]), MeridianAt(s, 5).value))
    else None
  }

  /** Reading back a formatted clock gives the same hour, minute and meridian. */
  lemma {:induction false} ParseFormat(t: ClockTime)
    requires 1 <= t.hour < 100 && t.minute < 100
    ensures ParseClock(Format(t)) == Some(t)
  {
    var h := NatToString(t.hour);
    var mm := Pad2(t.minute);
    var s := Format(t);
    NatToStringLength(t.hour);
    ParseNatToString(t.hour);
    ParsePad2(t.minute);
    assert s == h + ":" + mm + t.meridian.Text();
    MeridianAtText(t.meridian, h + ":" + mm, []);
    assert s == h + ":" + mm + t.meridian.Text() + [];
    if t.hour < 10 {
      assert s[..1] == h;
      assert s[2..4] == mm;
    } else {
      assert s[..2] == h;
      assert s[3..5] == mm;
    }
  }

  /** One attempt of the unanchored `(\d{1,2}):(\d{2})(am|pm)` at position `i`: two hour digits first. */
  function ClockAt(s: string, i: nat): (r: Option<ClockTime>)
    ensures r.Some? ==> r.value.hour < 100 && r.value.minute < 100
  {
    if i + 7 <= |s| && AllDigits(s[i..i + 2]) && s[i + 2] == ':' && AllDigits(s[i + 3..i + 5])
       && MeridianAt(s, i + 5).Some? then
      ParseDigitsBound(s[i..i + 2]);
      ParseDigitsBound(s[i + 3..i + 5]);
      Some(ClockTime(ParseDigits(s[i..i + 2]), ParseDigits(s[i + 3..i + 5]), MeridianAt(s, i + 5).value))
    else if i + 6 <= |s| && IsDigit(s[i]) && s[i + 1] == ':' && AllDigits(s[i + 2..i + 4])
       && MeridianAt(s, i + 4).Some? then
      ParseDigitsBound(s[i..i + 1]);
      ParseDigitsBound(s[i + 2..i + 4]);
      Some(ClockTime(ParseDigits(s[i..i + 1]), ParseDigits(s[i + 2..i + 4]), MeridianAt(s, i + 4).value))
    else None
  }

  /** `s.match(/(\d{1,2}):(\d{2})(am|pm)/i)`: the leftmost match, anywhere in `s`. */
  function FindClock(s: string, from: nat): Option<ClockTime>
    decreases |s| - from
  {
    if from >= |s| then None
    else if ClockAt(s, from).Some? then ClockAt(s, from)
    else FindClock(s, from + 1)
  }

  /** The search answers with a clock found at or after `from`, and with nothing when there is none. */
  lemma {:induction false} FindClockFound(s: string, from: nat)
    ensures FindClock(s, from).Some? ==> exists i :: from <= i < |s| && ClockAt(s, i) == FindClock(s, from)
    ensures FindClock(s, from).None? ==> forall i :: from <= i < |s| ==> ClockAt(s, i).None?
    decreases |s| - from
  {
    if from < |s| {
      if ClockAt(s, from).Some? {
        assert ClockAt(s, from) == FindClock(s, from);
      } else {
        FindClockFound(s, from + 1);
      }
    }
  }

  /** A string that is exactly a clock is also found, with the same reading, by the search. */
  lemma AnchoredIsFound(s: string)
    requires ParseClock(s).Some?
    ensures FindClock(s, 0) == ParseClock(s)
  {
    assert s[0..0 + 2] == s[..2];
  }

  /** 12-hour to 24-hour: pm adds 12 below noon, 12am is midnight. */
  function To24(t: ClockTime): (h: nat)
    ensures Proper(t) ==> h <= 23
    ensures Proper(t) ==> (h >= 12 <==> t.meridian == PM)
  {
    match t.meridian
    case PM => if t.hour < 12 then t.hour + 12 else t.hour
    case AM => if t.hour == 12 then 0 else t.hour
  }

  /** 24-hour to 12-hour: 0 is 12am, 12 is 12pm, 13..23 lose 12 hours. */
  function To12(h: nat, minute: nat): (t: ClockTime)
    ensures h <= 23 ==> 1 <= t.hour <= 12
    ensures t.meridian == PM <==> h >= 12
    ensures t.minute == minute
  {
    var mer := if h >= 12 then PM else AM;
    var hour := if h > 12 then h - 12 else if h == 0 then 12 else h;
    ClockTime(hour, minute, mer)
  }

  /** Converting a 24-hour reading to the 12-hour clock and back is the identity. */
  lemma To24To12(h: nat, minute: nat)
    requires h <= 23
    ensures To24(To12(h, minute)) == h
  {
  }

  /** Every proper 12-hour clock is the 12-hour form of its own 24-hour reading. */
  lemma To12To24(t: ClockTime)
    requires Proper(t)
    ensures To12(To24(t), t.minute) == t
  {
  }

  /** `parseTimeString`: minutes after midnight of a clock string, 0 when it is not one. */
  function MinutesOfDay(s: string): (r: nat)
    ensures ParseClock(s).Some? && Proper(ParseClock(s).value) ==> r < 24 * 60
    ensures ParseClock(s).None? ==> r == 0
  {
    match ParseClock(s)
    case Some(t) => To24(t) * 60 + t.minute
    case None => 0
  }

  /** Formatted proper clocks are ordered by the time of day they denote. */
  lemma MinutesOfFormat(t: ClockTime)
    requires Proper(t)
    ensures MinutesOfDay(Format(t)) == To24(t) * 60 + t.minute
  {
    ParseFormat(t);
  }
}
