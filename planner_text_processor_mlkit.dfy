/**
 * The on-device (ML Kit) variant of the event extractor. Lines always carry text
 * and a bounding box; a time line takes its title from the closest neighbouring
 * line, and a title line takes its time from the closest neighbour that reads as a
 * time. Sections, events and clean-up share their shapes with the cloud variant.
 */
module PlannerTextProcessorMLKit {
  import opened Wrappers
  import opened Text
  import opened Sorting
  import opened Numbers
  import opened Clock
  import opened Ocr
  import opened Rewrite
  import opened Seqs
  import TN = TextNormalizer
  import PTP = PlannerTextProcessor

  datatype Block = Block(text: string, bounding: Box, confidence: Option<real>)

  /** The same line seen through the cloud variant's optional fields. */
  function Cloud(b: Block): PTP.Block
  {
    PTP.Block(Some(b.text), Some(b.bounding), b.confidence)
  }

  // ------------------------------------------------------------ normalizeTime

  /** `(\d)\.0[mn]` at position `i`. */
  predicate DotZeroAt(s: string, i: nat)
  {
    i + 4 <= |s| && IsDigit(s[i]) && s[i + 1] == '.' && s[i + 2] == '0' && (s[i + 3] == 'm' || s[i + 3] == 'n')
  }

  function FindDotZero(s: string, from: nat): (r: int)
    ensures r == -1 || (from <= r && DotZeroAt(s, r))
    ensures r == -1 <==> forall i :: from <= i ==> !DotZeroAt(s, i)
    ensures r != -1 ==> forall i :: from <= i < r ==> !DotZeroAt(s, i)
    decreases |s| - from
  {
    if from + 4 > |s| then -1
    else if DotZeroAt(s, from) then from
    else FindDotZero(s, from + 1)
  }

  /** `.replace(/(\d)\.0[mn]/, '$1:00')`: the first such misread only. */
  function FixDotZero(s: string): string
  {
    var i := FindDotZero(s, 0);
    if i < 0 then s else s[..i + 1] + ":00" + s[i + 4..]
  }

  /** The OCR repairs and the character filter applied before a time is read. */
  function CleanMl(text: string): (r: string)
    ensures forall i :: 0 <= i < |r| ==> PTP.IsTimeChar(r[i])
  {
    var s := ReplaceFirst(ReplaceFirst(Lower(text), "q", "9"), "ioopm", "1:00pm");
    Filter(FixDotZero(s), PTP.IsTimeChar)
  }

  predicate IsClockChar(c: char) { IsDigit(c) || c == ':' }

  /** How many digits and colons follow one another from position `i`. */
  function ClockRun(s: string, i: nat): (n: nat)
    ensures i + n <= |s| || n == 0
    ensures forall k :: i <= k < i + n ==> IsClockChar(s[k])
    ensures i + n < |s| ==> !IsClockChar(s[i + n])
    decreases |s| - i
  {
    if i < |s| && IsClockChar(s[i]) then 1 + ClockRun(s, i + 1) else 0
  }

  /**
   * The digits-and-colon part of `^(\d{1,2}):?(\d{2})?`, as the regular expression
   * settles it: `H`, `HH`, `H:`, `HH:`, `HMM`, `HHMM`, `H:MM`, `HH:MM` (minutes 0 when absent).
   */
  function ClockDigits(b: string): (r: Option<(nat, nat)>)
    ensures r.Some? ==> r.value.0 < 100 && r.value.1 < 100
  {
    if |b| == 1 && IsDigit(b[0]) then
      Some((DigitValue(b[0]), 0))
    else if |b| == 2 && IsDigit(b[0]) && IsDigit(b[1]) then
      Some((DigitValue(b[0]) * 10 + DigitValue(b[1]), 0))
    else if |b| == 2 && IsDigit(b[0]) && b[1] == ':' then
      Some((DigitValue(b[0]), 0))
    else if |b| == 3 && IsDigit(b[0]) && IsDigit(b[1]) && IsDigit(b[2]) then
      Some((DigitValue(b[0]), DigitValue(b[1]) * 10 + DigitValue(b[2])))
    else if |b| == 3 && IsDigit(b[0]) && IsDigit(b[1]) && b[2] == ':' then
      Some((DigitValue(b[0]) * 10 + DigitValue(b[1]), 0))
    else if |b| == 4 && IsDigit(b[0]) && IsDigit(b[1]) && IsDigit(b[2]) && IsDigit(b[3]) then
      Some((DigitValue(b[0]) * 10 + DigitValue(b[1]), DigitValue(b[2]) * 10 + DigitValue(b[3])))
    else if |b| == 4 && IsDigit(b[0]) && b[1] == ':' && IsDigit(b[2]) && IsDigit(b[3]) then
      Some((DigitValue(b[0]), DigitValue(b[2]) * 10 + DigitValue(b[3])))
    else if |b| == 5 && IsDigit(b[0]) && IsDigit(b[1]) && b[2] == ':' && IsDigit(b[3]) && IsDigit(b[4]) then
      Some((DigitValue(b[0]) * 10 + DigitValue(b[1]), DigitValue(b[3]) * 10 + DigitValue(b[4])))
    else None
  }

  /** `^(\d{1,2}):?(\d{2})?\s*(am|pm)?$` on a cleaned token: hour, minute and own meridian. */
  function ReadMl(c: string): (r: Option<(nat, nat, Option<Meridian>)>)
    ensures r.Some? ==> r.value.0 < 100 && r.value.1 < 100
  {
    var n := ClockRun(c, 0);
    var tail := c[n..];
    var own: Option<Option<Meridian>> :=
      if tail == [] then Some(None)
      else if tail == "am" then Some(Some(AM))
      else if tail == "pm" then Some(Some(PM))
      else None;
    match ClockDigits(c[..n])
    case None => None
    case Some((h, m)) => if own.None? then None else Some((h, m, own.value))
  }

  /** Without an am/pm of its own, hours 1..5 and 12 are afternoon, 6..11 morning. */
  function DefaultMeridian(h: nat): (r: Meridian)
    ensures r == PM <==> h < 6 || h == 12
  {
    if h < 6 || h == 12 then PM else AM
  }

  /** `normalizeTime(text)`: a canonical `H:MMam|pm` clock, or nothing. */
  function NormalizeTimeMl(text: string): (r: Option<string>)
    ensures r.Some? ==> ParseClock(r.value).Some? && Proper(ParseClock(r.value).value)
                        && Format(ParseClock(r.value).value) == r.value
    ensures r.Some? ==> ReadMl(CleanMl(text)).Some?
                        && ParseClock(r.value).value.hour == ReadMl(CleanMl(text)).value.0
                        && ParseClock(r.value).value.minute == ReadMl(CleanMl(text)).value.1
    ensures r.Some? && ReadMl(CleanMl(text)).value.2.Some? ==>
              ParseClock(r.value).value.meridian == ReadMl(CleanMl(text)).value.2.value
    ensures r.Some? && ReadMl(CleanMl(text)).value.2.None? ==>
              ParseClock(r.value).value.meridian == DefaultMeridian(ParseClock(r.value).value.hour)
    ensures var t := ReadMl(CleanMl(text));
            t.Some? && 1 <= t.value.0 <= 12 && t.value.1 <= 59 ==> r.Some?
  {
    match ReadMl(CleanMl(text))
    case None => None
    case Some((h, m, own)) =>
      if h < 1 || h > 12 || m > 59 then None
      else
        var c := ClockTime(h, m, own.GetOr(DefaultMeridian(h)));
        ParseFormat(c);
        Some(Format(c))
  }

  lemma ReplaceFirstAbsent(s: string, pat: string, rep: string)
    requires pat != [] && forall i :: 0 <= i < |s| ==> s[i] != pat[0]
    ensures ReplaceFirst(s, pat, rep) == s
  {
    forall i | 0 <= i <= |s| - |pat| ensures !IsPrefix(pat, s[i..]) {
      assert s[i..][..|pat|][0] == s[i];
    }
  }

  lemma ClockRunOfPrefix(s: string, a: nat)
    requires a < |s| && !IsClockChar(s[a])
    requires forall k :: 0 <= k < a ==> IsClockChar(s[k])
    ensures ClockRun(s, 0) == a
  {
    var i := a;
    while i > 0
      invariant 0 <= i <= a
      invariant ClockRun(s, i) == a - i
    {
      i := i - 1;
    }
  }

  lemma ReadMlFormat(c: ClockTime)
    requires Proper(c)
    ensures ReadMl(Format(c)) == Some((c.hour, c.minute, Some(c.meridian)))
  {
    var s := Format(c);
    var h := NatToString(c.hour);
    var mm := Pad2(c.minute);
    NatToStringLength(c.hour);
    ParseNatToString(c.hour);
    ParsePad2(c.minute);
    var b := h + ":" + mm;
    assert s == b + c.meridian.Text();
    assert forall k :: 0 <= k < |b| ==> IsClockChar(s[k]) by {
      forall k | 0 <= k < |b| ensures IsClockChar(s[k]) {
        assert s[k] == b[k];
        if k < |h| { assert b[k] == h[k]; }
        else if k > |h| { assert b[k] == mm[k - |h| - 1]; }
      }
    }
    ClockRunOfPrefix(s, |b|);
    assert s[..|b|] == b;
    assert s[|b|..] == c.meridian.Text();
    ClockDigitsOfClock(h, mm);
  }

  /** `H:MM` and `HH:MM` read as their hour and minute. */
  lemma ClockDigitsOfClock(h: string, mm: string)
    requires 1 <= |h| <= 2 && |mm| == 2 && AllDigits(h) && AllDigits(mm)
    ensures ClockDigits(h + ":" + mm) == Some((ParseDigits(h), ParseDigits(mm)))
  {
    ParseShort(h);
    ParseShort(mm);
    if |h| == 1 {
      ClockDigitsShortHour(h, mm);
    } else {
      ClockDigitsLongHour(h, mm);
    }
  }

  lemma ClockDigitsShortHour(h: string, mm: string)
    requires |h| == 1 && |mm| == 2 && AllDigits(h) && AllDigits(mm)
    ensures ClockDigits(h + ":" + mm) == Some((DigitValue(h[0]), DigitValue(mm[0]) * 10 + DigitValue(mm[1])))
  {
    assert h + ":" + mm == [h[0], ':', mm[0], mm[1]];
  }

  lemma ClockDigitsLongHour(h: string, mm: string)
    requires |h| == 2 && |mm| == 2 && AllDigits(h) && AllDigits(mm)
    ensures ClockDigits(h + ":" + mm) == Some((DigitValue(h[0]) * 10 + DigitValue(h[1]), DigitValue(mm[0]) * 10 + DigitValue(mm[1])))
  {
    assert h + ":" + mm == [h[0], h[1], ':', mm[0], mm[1]];
  }

  /** The value of one or two digits. */
  lemma ParseShort(s: string)
    requires 1 <= |s| <= 2 && AllDigits(s)
    ensures |s| == 1 ==> ParseDigits(s) == DigitValue(s[0])
    ensures |s| == 2 ==> ParseDigits(s) == DigitValue(s[0]) * 10 + DigitValue(s[1])
  {
    var p := s[..|s| - 1];
    assert ParseDigits(s) == ParseDigits(p) * 10 + DigitValue(s[|s| - 1]);
    if |s| == 2 {
      assert p[..0] == [];
      assert ParseDigits(p) == ParseDigits(p[..0]) * 10 + DigitValue(p[0]);
    } else {
      assert p == [];
    }
  }

  /** Canonical output reads back unchanged: the repairs never fire on it. */
  lemma {:induction false} NormalizeTimeMlFixedPoint(text: string)
    requires NormalizeTimeMl(text).Some?
    ensures NormalizeTimeMl(NormalizeTimeMl(text).value) == NormalizeTimeMl(text)
  {
    var s := NormalizeTimeMl(text).value;
    var c := ParseClock(s).value;
    PTP.FormatTimeChars(c);
    CleanMlKeepsTimeChars(s);
    ReadMlFormat(c);
  }

  /** Lower-case text made only of time characters passes the repairs and the filter unchanged. */
  lemma CleanMlKeepsTimeChars(s: string)
    requires Lower(s) == s && forall i :: 0 <= i < |s| ==> PTP.IsTimeChar(s[i])
    ensures CleanMl(s) == s
  {
    ReplaceFirstAbsent(s, "q", "9");
    ReplaceFirstAbsent(s, "ioopm", "1:00pm");
    forall i | 0 <= i ensures !DotZeroAt(s, i) {
      if i + 1 < |s| {
        assert PTP.IsTimeChar(s[i + 1]);
      }
    }
    FilterAll(s, PTP.IsTimeChar);
  }

  lemma CleanQ()
    ensures CleanMl("q:30") == "9:30"
  {
    LowerOfNoUpper("q:30");
    assert IsPrefix("q", "q:30");
    assert ReplaceFirst("q:30", "q", "9") == "9:30";
    ReplaceFirstAbsent("9:30", "ioopm", "1:00pm");
    assert FindDotZero("9:30", 0) == -1;
    FilterAll("9:30", PTP.IsTimeChar);
  }

  lemma CleanIoopm()
    ensures CleanMl("ioopm") == "1:00pm"
  {
    LowerOfNoUpper("ioopm");
    ReplaceFirstAbsent("ioopm", "q", "9");
    assert IsPrefix("ioopm", "ioopm");
    assert ReplaceFirst("ioopm", "ioopm", "1:00pm") == "1:00pm";
    assert FindDotZero("1:00pm", 0) == -1;
    FilterAll("1:00pm", PTP.IsTimeChar);
  }

  lemma CleanDotZero()
    ensures CleanMl("6.0m") == "6:00"
  {
    LowerOfNoUpper("6.0m");
    ReplaceFirstAbsent("6.0m", "q", "9");
    ReplaceFirstAbsent("6.0m", "ioopm", "1:00pm");
    assert DotZeroAt("6.0m", 0);
    assert FixDotZero("6.0m") == "6:00";
    FilterAll("6:00", PTP.IsTimeChar);
  }

  lemma ReadHourMinute(b: string, tail: string, h: nat, m: nat)
    requires |b| == 4 && IsDigit(b[0]) && b[1] == ':' && IsDigit(b[2]) && IsDigit(b[3])
    requires h == DigitValue(b[0]) && m == DigitValue(b[2]) * 10 + DigitValue(b[3])
    requires tail == [] || tail == "am" || tail == "pm"
    ensures ReadMl(b + tail).Some? && ReadMl(b + tail).value.0 == h && ReadMl(b + tail).value.1 == m
    ensures tail == [] ==> ReadMl(b + tail).value.2 == None
    ensures tail == "pm" ==> ReadMl(b + tail).value.2 == Some(PM)
  {
    var s := b + tail;
    if tail == [] {
      assert ClockRun(s, 4) == 0;
    } else {
      assert !IsClockChar(s[4]);
      assert ClockRun(s, 4) == 0;
    }
    assert ClockRun(s, 0) == 4;
    assert s[..4] == b && s[4..] == tail;
  }

  /** `q:30` is half past nine in the morning. */
  lemma MisreadQ()
    ensures NormalizeTimeMl("q:30") == Some(Format(ClockTime(9, 30, AM)))
  {
    CleanQ();
    ReadHourMinute("9:30", [], 9, 30);
    assert "9:30" + [] == "9:30";
  }

  /** `ioopm` is one in the afternoon. */
  lemma MisreadIoopm()
    ensures NormalizeTimeMl("ioopm") == Some(Format(ClockTime(1, 0, PM)))
  {
    CleanIoopm();
    ReadHourMinute("1:00", "pm", 1, 0);
    assert "1:00" + "pm" == "1:00pm";
  }

  /** `6.0m` is six in the morning. */
  lemma MisreadDotZero()
    ensures NormalizeTimeMl("6.0m") == Some(Format(ClockTime(6, 0, AM)))
  {
    CleanDotZero();
    ReadHourMinute("6:00", [], 6, 0);
    assert "6:00" + [] == "6:00";
  }

  // ------------------------------------------------------------ time-line patterns

  /** `\s*(am|pm)?$` from position `i`. */
  predicate TimeTail(t: string, i: nat)
  {
    i <= |t| && (var j := SkipSpaces(t, i); j == |t| || (j + 2 == |t| && MeridianAt(t, j).Some?))
  }

  /** `^(\d{1,2}):(\d{2})\s*(am|pm)?$` (i). */
  predicate PlainTime(t: string)
  {
    var a := DigitRun(t, 0);
    1 <= a <= 2 && a + 3 <= |t| && t[a] == ':' && IsDigit(t[a + 1]) && IsDigit(t[a + 2]) && TimeTail(t, a + 3)
  }

  /** `^q:(\d{2})\s*(am|pm)?$` (i). */
  predicate QTime(t: string)
  {
    |t| >= 4 && (t[0] == 'q' || t[0] == 'Q') && t[1] == ':' && IsDigit(t[2]) && IsDigit(t[3]) && TimeTail(t, 4)
  }

  /** `^(\d{1,2})[\.:]0[mn]\s*(am|pm)?$` (i). */
  predicate DotZeroTime(t: string)
  {
    var a := DigitRun(t, 0);
    1 <= a <= 2 && a + 3 <= |t| && (t[a] == '.' || t[a] == ':') && t[a + 1] == '0'
    && (t[a + 2] == 'm' || t[a + 2] == 'n' || t[a + 2] == 'M' || t[a + 2] == 'N') && TimeTail(t, a + 3)
  }

  /** A line that one of the four time patterns accepts (`ioopm` being the fourth). */
  predicate IsTimeLine(t: string)
  {
    PlainTime(t) || QTime(t) || EqualsCI(t, "ioopm") || DotZeroTime(t)
  }

  // ------------------------------------------------------------ neighbours

  /** `findNearbyBlocks` membership: another line within 50 above or below and within two widths sideways. */
  predicate Near(blocks: seq<Block>, i: nat, k: nat)
  {
    i < |blocks| && k < |blocks| && k != i
    && Abs(blocks[k].bounding.top - blocks[i].bounding.top) <= 50.0
    && Abs(blocks[k].bounding.left - blocks[i].bounding.left) <= blocks[i].bounding.width * 2.0
  }

  function NearTest(blocks: seq<Block>, i: nat): nat -> bool
  {
    (k: nat) => Near(blocks, i, k)
  }

  function Distance(blocks: seq<Block>, i: nat): nat -> real
  {
    (k: nat) => if i < |blocks| && k < |blocks| then Abs(blocks[k].bounding.top - blocks[i].bounding.top) else 0.0
  }

  function Indices(n: nat): (r: seq<nat>)
    ensures |r| == n && forall k :: 0 <= k < n ==> r[k] == k
  {
    seq(n, k requires 0 <= k < n => k)
  }

  /** The neighbours of line `i` (by position in recognition order), closest first, ties in recognition order. */
  function Nearby(blocks: seq<Block>, i: nat): (r: seq<nat>)
    ensures forall k :: 0 <= k < |r| ==> Near(blocks, i, r[k])
    ensures forall k: nat :: Near(blocks, i, k) ==> k in r
    ensures SortedBy(r, Distance(blocks, i))
    ensures forall a, b :: 0 <= a < b < |r| ==> r[a] != r[b]
    ensures TiesIncreasing(r, Distance(blocks, i))
  {
    var all := Indices(|blocks|);
    var near := Filter(all, NearTest(blocks, i));
    FilterIncreasing(all, NearTest(blocks, i));
    SortByTies(near, Distance(blocks, i));
    SortBySorted(near, Distance(blocks, i));
    SortByPermutation(near, Distance(blocks, i));
    var r := SortBy(near, Distance(blocks, i));
    forall k | 0 <= k < |r| ensures Near(blocks, i, r[k]) {
      assert r[k] in multiset(near);
      assert r[k] in near;
    }
    forall k: nat | Near(blocks, i, k) ensures k in r {
      assert all[k] == k;
      FilterKeeps(all, NearTest(blocks, i), k);
      assert k in multiset(near);
    }
    r
  }

  /** What neighbour `k` reads as, if it is a line of the recognition at all. */
  function TimeOf(blocks: seq<Block>, k: nat): Option<string>
  {
    if k < |blocks| then NormalizeTimeMl(blocks[k].text) else None
  }

  /** The first neighbour, in the given order, whose text reads as a time. */
  function FirstTime(blocks: seq<Block>, ks: seq<nat>): Option<string>
    decreases |ks|
  {
    if ks == [] then None
    else if TimeOf(blocks, ks[0]).Some? then TimeOf(blocks, ks[0])
    else FirstTime(blocks, ks[1..])
  }

  /** `FirstTime` answers with the first neighbour that reads as a time, and with nothing when none does. */
  lemma FirstTimeIsFirst(blocks: seq<Block>, ks: seq<nat>)
    ensures FirstTime(blocks, ks).Some? ==>
      exists k :: 0 <= k < |ks| && TimeOf(blocks, ks[k]) == FirstTime(blocks, ks)
                  && forall j :: 0 <= j < k ==> TimeOf(blocks, ks[j]).None?
    ensures FirstTime(blocks, ks).None? ==> forall k :: 0 <= k < |ks| ==> TimeOf(blocks, ks[k]).None?
  {
    if FirstTime(blocks, ks).Some? {
      var k := FirstIndex(blocks, ks);
      forall j | 0 <= j < k
        ensures TimeOf(blocks, ks[j]).None?
      {
        BeforeFirstIndex(blocks, ks, j);
      }
      assert TimeOf(blocks, ks[k]) == FirstTime(blocks, ks);
    } else {
      forall k | 0 <= k < |ks|
        ensures TimeOf(blocks, ks[k]).None?
      {
        NoTimeAt(blocks, ks, k);
      }
    }
  }

  /** No neighbour before the one `FirstTime` answers with reads as a time. */
  lemma {:induction false} BeforeFirstIndex(blocks: seq<Block>, ks: seq<nat>, j: nat)
    requires FirstTime(blocks, ks).Some? && j < FirstIndex(blocks, ks)
    ensures TimeOf(blocks, ks[j]).None?
    decreases j
  {
    if j > 0 {
      assert TimeOf(blocks, ks[0]).None?;
      BeforeFirstIndex(blocks, ks[1..], j - 1);
      assert ks[1..][j - 1] == ks[j];
    }
  }

  /** When `FirstTime` answers with nothing, no neighbour reads as a time. */
  lemma {:induction false} NoTimeAt(blocks: seq<Block>, ks: seq<nat>, k: nat)
    requires FirstTime(blocks, ks).None? && k < |ks|
    ensures TimeOf(blocks, ks[k]).None?
    decreases k
  {
    if k > 0 {
      assert TimeOf(blocks, ks[0]).None?;
      NoTimeAt(blocks, ks[1..], k - 1);
      assert ks[1..][k - 1] == ks[k];
    }
  }

  // ------------------------------------------------------------ events

  function Confidence(b: Block): real
  {
    match b.confidence
    case Some(c) => if c == 0.0 then 0.8 else c
    case None => 0.8
  }

  function MakeEvent(blocks: seq<Block>, i: nat, title: string, time: string): PTP.Event
    requires i < |blocks|
  {
    PTP.Event(title, Some(blocks[i].bounding), Confidence(blocks[i]), PTP.Single(time))
  }

  /** A line one of the patterns accepts and that normalises to a time. */
  predicate OwnTime(t: string)
  {
    IsTimeLine(t) && NormalizeTimeMl(t).Some?
  }

  /** A time line is titled by its closest neighbour, if it has one. */
  function TitledByNeighbour(blocks: seq<Block>, i: nat, near: seq<nat>, names: seq<string>): (r: Option<PTP.Event>)
    requires i < |blocks| && InRange(near, |blocks|) && OwnTime(Trim(blocks[i].text))
    ensures r.Some? ==> near != [] && r.value.title == TN.Normalize(names, blocks[near[0]].text)
                        && r.value.title != []
                        && r.value == MakeEvent(blocks, i, r.value.title, NormalizeTimeMl(Trim(blocks[i].text)).value)
  {
    if near == [] then None
    else
      var title := TN.Normalize(names, blocks[near[0]].text);
      if title == [] then None else Some(MakeEvent(blocks, i, title, NormalizeTimeMl(Trim(blocks[i].text)).value))
  }

  /** Any other non-empty line is a title, timed by its closest neighbour that reads as a time. */
  function TimedByNeighbour(blocks: seq<Block>, i: nat, near: seq<nat>, names: seq<string>): (r: Option<PTP.Event>)
    requires i < |blocks|
    ensures r.Some? ==> Trim(blocks[i].text) != [] && r.value.title == TN.Normalize(names, Trim(blocks[i].text))
                        && r.value.title != [] && r.value.timing.Single?
                        && FirstTime(blocks, near) == Some(r.value.timing.time)
                        && r.value == MakeEvent(blocks, i, r.value.title, r.value.timing.time)
  {
    var t := Trim(blocks[i].text);
    if t == [] then None
    else
      var title := TN.Normalize(names, t);
      var time := FirstTime(blocks, near);
      if time.None? || title == [] then None else Some(MakeEvent(blocks, i, title, time.value))
  }

  /**
   * `processEventBlock` for line `i`: a time line is titled by its closest neighbour;
   * any other non-empty line is a title timed by its closest neighbour that reads
   * as a time. Either way the event needs both a time and a non-empty title.
   */
  function EventAt(blocks: seq<Block>, i: nat, names: seq<string>): (r: Option<PTP.Event>)
    requires i < |blocks|
    ensures r.Some? ==> r.value.timing.Single? && r.value.title != []
                        && r.value.bounds == Some(blocks[i].bounding)
                        && r.value.confidence == Confidence(blocks[i])
                        && NormalizeTimeMl(r.value.timing.time) == Some(r.value.timing.time)
  {
    var near := Nearby(blocks, i);
    if OwnTime(Trim(blocks[i].text)) then
      NormalizeTimeMlFixedPoint(Trim(blocks[i].text));
      TitledByNeighbour(blocks, i, near, names)
    else
      var r := TimedByNeighbour(blocks, i, near, names);
      if r.Some? then
        FirstTimeFixed(blocks, near);
        r
      else r
  }

  /** The time a neighbour supplies is already canonical. */
  lemma FirstTimeFixed(blocks: seq<Block>, ks: seq<nat>)
    requires FirstTime(blocks, ks).Some?
    ensures NormalizeTimeMl(FirstTime(blocks, ks).value) == FirstTime(blocks, ks)
  {
    var k := FirstIndex(blocks, ks);
    NormalizeTimeMlFixedPoint(blocks[ks[k]].text);
  }

  /** A line that reads as its own time is titled by its closest neighbour. */
  lemma EventAtTimeLine(blocks: seq<Block>, i: nat, names: seq<string>)
    requires i < |blocks| && OwnTime(Trim(blocks[i].text)) && EventAt(blocks, i, names).Some?
    ensures Some(EventAt(blocks, i, names).value.timing.time) == NormalizeTimeMl(Trim(blocks[i].text))
    ensures EventAt(blocks, i, names).value.title == TN.Normalize(names, blocks[Nearby(blocks, i)[0]].text)
  {
  }

  /** Any other line is its own title and takes the first time among its neighbours. */
  lemma EventAtTitleLine(blocks: seq<Block>, i: nat, names: seq<string>)
    requires i < |blocks| && !OwnTime(Trim(blocks[i].text)) && EventAt(blocks, i, names).Some?
    ensures EventAt(blocks, i, names).value.title == TN.Normalize(names, Trim(blocks[i].text))
    ensures Some(EventAt(blocks, i, names).value.timing.time) == FirstTime(blocks, Nearby(blocks, i))
  {
  }

  /** Where `FirstTime` found its answer. */
  function FirstIndex(blocks: seq<Block>, ks: seq<nat>): (k: nat)
    requires FirstTime(blocks, ks).Some?
    ensures k < |ks| && ks[k] < |blocks| && NormalizeTimeMl(blocks[ks[k]].text) == FirstTime(blocks, ks)
    decreases |ks|
  {
    if TimeOf(blocks, ks[0]).Some? then 0
    else 1 + FirstIndex(blocks, ks[1..])
  }

  /** A line that is its own time but has no neighbour yields nothing. */
  lemma LonelyTimeLine(blocks: seq<Block>, i: nat, names: seq<string>)
    requires i < |blocks|
    requires IsTimeLine(Trim(blocks[i].text)) && NormalizeTimeMl(Trim(blocks[i].text)).Some?
    requires forall k: nat :: !Near(blocks, i, k)
    ensures EventAt(blocks, i, names).None?
  {
    assert Nearby(blocks, i) == [];
  }

  // ------------------------------------------------------------ page

  /** Lines the event pass skips: the to-do heading, a bare year, a day heading. */
  predicate SkipForEvents(t: string)
  {
    Contains(Lower(t), "things to do") || PTP.IsYearText(t) || PTP.StartsWithDayComma(t)
  }

  function TopAt(blocks: seq<Block>): nat -> real
  {
    (k: nat) => if k < |blocks| then blocks[k].bounding.top else 0.0
  }

  /** Recognition positions in page order (top to bottom, stable). */
  function Order(blocks: seq<Block>): (r: seq<nat>)
    ensures |r| == |blocks|
    ensures forall k :: 0 <= k < |r| ==> r[k] < |blocks|
    ensures SortedBy(r, TopAt(blocks))
  {
    var all: seq<nat> := Indices(|blocks|);
    SortByPermutation<nat>(all, TopAt(blocks));
    SortBySorted<nat>(all, TopAt(blocks));
    var r := SortBy<nat>(all, TopAt(blocks));
    forall k | 0 <= k < |r| ensures r[k] < |blocks| {
      assert r[k] in multiset(r);
      assert r[k] in multiset(all);
    }
    r
  }

  predicate InRange(order: seq<nat>, n: nat)
  {
    forall k :: 0 <= k < |order| ==> order[k] < n
  }

  function Pick(blocks: seq<Block>, order: seq<nat>): (r: seq<PTP.Block>)
    requires InRange(order, |blocks|)
    ensures |r| == |order| && forall k :: 0 <= k < |r| ==> r[k] == Cloud(blocks[order[k]])
  {
    seq(|order|, k requires 0 <= k < |order| => Cloud(blocks[order[k]]))
  }

  lemma PickSorted(blocks: seq<Block>, order: seq<nat>)
    requires InRange(order, |blocks|) && SortedBy(order, TopAt(blocks))
    ensures SortedBy(Pick(blocks, order), PTP.Top)
  {
    var p := Pick(blocks, order);
    forall a, b | 0 <= a < b < |p| ensures PTP.Top(p[a]) <= PTP.Top(p[b]) {
      assert TopAt(blocks)(order[a]) <= TopAt(blocks)(order[b]);
    }
  }

  /** The event pass for one line (`findSectionForBlock` has no guard here: every line has a top). */
  function AssignOne(sections: seq<PTP.Section>, blocks: seq<Block>, i: nat, names: seq<string>): (r: seq<PTP.Section>)
    requires SortedBy(sections, PTP.TopPos) && i < |blocks|
    ensures PTP.SameLayout(sections, r)
  {
    if SkipForEvents(Trim(blocks[i].text)) then sections
    else
      match PTP.FindBand(SortBy(sections, PTP.TopPos), blocks[i].bounding.top, 0)
      case None => sections
      case Some(k) =>
        AddEvent(sections, k, EventAt(blocks, i, names))
  }

  /** `section.events.push(event)` when there is an event. */
  function AddEvent(sections: seq<PTP.Section>, k: nat, e: Option<PTP.Event>): (r: seq<PTP.Section>)
    requires k < |sections|
    ensures PTP.SameLayout(sections, r)
    ensures e.None? ==> r == sections
    ensures e.Some? ==> r[k].events == sections[k].events + [e.value]
                        && forall j :: 0 <= j < |r| && j != k ==> r[j] == sections[j]
  {
    match e
    case None => sections
    case Some(x) => sections[k := sections[k].(events := sections[k].events + [x])]
  }

  function AssignEvents(sections: seq<PTP.Section>, blocks: seq<Block>, order: seq<nat>, names: seq<string>)
    : (r: seq<PTP.Section>)
    requires SortedBy(sections, PTP.TopPos) && InRange(order, |blocks|)
    ensures PTP.SameLayout(sections, r) && SortedBy(r, PTP.TopPos)
    decreases |order|
  {
    if order == [] then sections
    else
      var prior := AssignEvents(sections, blocks, order[..|order| - 1], names);
      var r := AssignOne(prior, blocks, order[|order| - 1], names);
      PTP.SameLayoutSorted(prior, r);
      r
  }

  /** The section (a position in `sections`) and the event that line `j` adds in the event pass, if any. */
  function Placement(sections: seq<PTP.Section>, blocks: seq<Block>, j: nat, names: seq<string>)
    : Option<(nat, PTP.Event)>
    requires j < |blocks|
  {
    if SkipForEvents(Trim(blocks[j].text)) then None
    else
      match PTP.FindBand(SortBy(sections, PTP.TopPos), blocks[j].bounding.top, 0)
      case None => None
      case Some(k) =>
        match EventAt(blocks, j, names)
        case None => None
        case Some(e) => Some((k, e))
  }

  /** The events that the lines, taken in the given order, give section `k`. */
  function EventsInto(sections: seq<PTP.Section>, blocks: seq<Block>, order: seq<nat>, names: seq<string>, k: nat)
    : seq<PTP.Event>
    requires InRange(order, |blocks|)
    decreases |order|
  {
    if order == [] then []
    else EventsInto(sections, blocks, order[..|order| - 1], names, k)
         + PTP.Into(Placement(sections, blocks, order[|order| - 1], names), k)
  }

  /** Some line listed in `order` is placed in section `k` with event `e`. */
  ghost predicate PlacedBy(sections: seq<PTP.Section>, blocks: seq<Block>, order: seq<nat>, names: seq<string>,
                     k: nat, e: PTP.Event)
  {
    exists m :: PlacedAt(sections, blocks, order, names, k, e, m)
  }

  /** The line listed at `m` in `order` is placed in section `k` with event `e`. */
  predicate PlacedAt(sections: seq<PTP.Section>, blocks: seq<Block>, order: seq<nat>, names: seq<string>,
                     k: nat, e: PTP.Event, m: int)
  {
    0 <= m < |order| && order[m] < |blocks| && Placement(sections, blocks, order[m], names) == Some((k, e))
  }

  /** A line finds the same band before and after events were added. */
  lemma BandLayout(a: seq<PTP.Section>, b: seq<PTP.Section>, top: real)
    requires PTP.SameLayout(a, b) && SortedBy(a, PTP.TopPos)
    ensures PTP.FindBand(SortBy(a, PTP.TopPos), top, 0) == PTP.FindBand(SortBy(b, PTP.TopPos), top, 0)
  {
    PTP.SameLayoutSorted(a, b);
    SortByIdentity(a, PTP.TopPos);
    SortByIdentity(b, PTP.TopPos);
    PTP.FindBandLayout(a, b, top, 0);
  }

  /** One line of the event pass adds its event to the section it is placed in, and nowhere else. */
  lemma AssignOnePlaces(sections: seq<PTP.Section>, prior: seq<PTP.Section>, blocks: seq<Block>, j: nat,
                        names: seq<string>)
    requires SortedBy(sections, PTP.TopPos) && SortedBy(prior, PTP.TopPos) && PTP.SameLayout(sections, prior)
    requires j < |blocks|
    ensures forall k :: 0 <= k < |prior| ==>
              AssignOne(prior, blocks, j, names)[k].events
              == prior[k].events + PTP.Into(Placement(sections, blocks, j, names), k)
  {
    BandLayout(sections, prior, blocks[j].bounding.top);
  }

  /**
   * The event pass fills each section with the events of exactly the lines placed in
   * it, in the order the lines are taken, after the events it already held.
   */
  lemma {:induction false} AssignEventsPlaces(sections: seq<PTP.Section>, blocks: seq<Block>, order: seq<nat>,
                                              names: seq<string>)
    requires SortedBy(sections, PTP.TopPos) && InRange(order, |blocks|)
    ensures forall k :: 0 <= k < |sections| ==>
              AssignEvents(sections, blocks, order, names)[k].events
              == sections[k].events + EventsInto(sections, blocks, order, names, k)
    decreases |order|
  {
    if order != [] {
      var init := order[..|order| - 1];
      AssignEventsPlaces(sections, blocks, init, names);
      var prior := AssignEvents(sections, blocks, init, names);
      AssignOnePlaces(sections, prior, blocks, order[|order| - 1], names);
      forall k | 0 <= k < |sections|
        ensures AssignEvents(sections, blocks, order, names)[k].events
                == sections[k].events + EventsInto(sections, blocks, order, names, k)
      {
        AppendAssoc(sections[k].events, EventsInto(sections, blocks, init, names, k),
                    PTP.Into(Placement(sections, blocks, order[|order| - 1], names), k));
      }
    }
  }

  /** An event goes to section `k` exactly when some line is placed there with that event. */
  lemma {:induction false} EventsIntoMember(sections: seq<PTP.Section>, blocks: seq<Block>, order: seq<nat>,
                                            names: seq<string>, k: nat, e: PTP.Event)
    requires InRange(order, |blocks|)
    ensures e in EventsInto(sections, blocks, order, names, k) <==> PlacedBy(sections, blocks, order, names, k, e)
    decreases |order|
  {
    if order != [] {
      var init := order[..|order| - 1];
      var last := order[|order| - 1];
      EventsIntoMember(sections, blocks, init, names, k, e);
      SnocLast(order);
      PlacedBySnoc(sections, blocks, init, last, names, k, e);
    }
  }

  lemma PlacedBySnoc(sections: seq<PTP.Section>, blocks: seq<Block>, init: seq<nat>, last: nat,
                     names: seq<string>, k: nat, e: PTP.Event)
    requires last < |blocks|
    ensures PlacedBy(sections, blocks, init + [last], names, k, e)
            <==> PlacedBy(sections, blocks, init, names, k, e) || Placement(sections, blocks, last, names) == Some((k, e))
  {
    var order := init + [last];
    if PlacedBy(sections, blocks, order, names, k, e) {
      var m :| PlacedAt(sections, blocks, order, names, k, e, m);
      if m < |init| {
        assert order[m] == init[m];
        assert PlacedAt(sections, blocks, init, names, k, e, m);
      } else {
        assert order[m] == last;
      }
    }
    if PlacedBy(sections, blocks, init, names, k, e) {
      var m :| PlacedAt(sections, blocks, init, names, k, e, m);
      assert order[m] == init[m];
      assert PlacedAt(sections, blocks, order, names, k, e, m);
    }
    if Placement(sections, blocks, last, names) == Some((k, e)) {
      assert order[|init|] == last;
      assert PlacedAt(sections, blocks, order, names, k, e, |init|);
    }
  }

  lemma AssignEventsSnoc(sections: seq<PTP.Section>, blocks: seq<Block>, order: seq<nat>, n: nat, names: seq<string>)
    requires SortedBy(sections, PTP.TopPos) && InRange(order, |blocks|) && n < |order|
    ensures InRange(order[..n], |blocks|) && InRange(order[..n + 1], |blocks|)
    ensures AssignEvents(sections, blocks, order[..n + 1], names)
            == AssignOne(AssignEvents(sections, blocks, order[..n], names), blocks, order[n], names)
  {
    assert order[..n + 1][..n] == order[..n];
  }

  function Headers(blocks: seq<Block>): (r: seq<PTP.Section>)
    ensures SortedBy(r, PTP.TopPos)
  {
    var order := Order(blocks);
    PickSorted(blocks, order);
    PTP.HeaderSectionsSorted(Pick(blocks, order));
    PTP.HeaderSections(Pick(blocks, order))
  }

  /** What `processPage` leaves in `recognized.sections` for a non-empty recognition. */
  function PageSections(blocks: seq<Block>, names: seq<string>): seq<PTP.Section>
  {
    PTP.Cleaned(AssignEvents(Headers(blocks), blocks, Order(blocks), names))
  }

  /** Every event left on the page is valid and each section's events ascend by time of day. */
  lemma PageEventsValidAndOrdered(blocks: seq<Block>, names: seq<string>)
    ensures forall i :: 0 <= i < |PageSections(blocks, names)| ==>
      SortedBy(PageSections(blocks, names)[i].events, PTP.EventKey)
      && forall k :: 0 <= k < |PageSections(blocks, names)[i].events| ==>
           PTP.IsValidEvent(PageSections(blocks, names)[i].events[k])
  {
  }

  /** Sections are ordered top to bottom, one per day-heading line. */
  lemma PageSectionsOrdered(blocks: seq<Block>, names: seq<string>)
    ensures SortedBy(PageSections(blocks, names), PTP.TopPos)
    ensures |PageSections(blocks, names)| == |PTP.HeaderSections(Pick(blocks, Order(blocks)))|
  {
    var filled := AssignEvents(Headers(blocks), blocks, Order(blocks), names);
    PTP.SameLayoutSorted(filled, PageSections(blocks, names));
  }

  /**
   * Where events land: after processing, an event is in section `k` exactly when it is
   * valid and some line is placed in that section with that event.
   */
  lemma PageEventsPlaced(blocks: seq<Block>, names: seq<string>, k: nat, e: PTP.Event)
    requires k < |PageSections(blocks, names)|
    ensures e in PageSections(blocks, names)[k].events <==>
              PTP.IsValidEvent(e) && SomeLinePlaced(Headers(blocks), blocks, names, k, e)
  {
    PageEventsFromLines(blocks, names, k, e);
    EventsIntoMember(Headers(blocks), blocks, Order(blocks), names, k, e);
    PlacedByOrder(Headers(blocks), blocks, names, k, e);
  }

  /** Some line of the page is placed in section `k` with event `e`. */
  predicate SomeLinePlaced(sections: seq<PTP.Section>, blocks: seq<Block>, names: seq<string>, k: nat, e: PTP.Event)
  {
    exists j :: 0 <= j < |blocks| && Placement(sections, blocks, j, names) == Some((k, e))
  }

  /** Taking the lines top to bottom covers every line of the page once. */
  lemma PlacedByOrder(sections: seq<PTP.Section>, blocks: seq<Block>, names: seq<string>, k: nat, e: PTP.Event)
    ensures PlacedBy(sections, blocks, Order(blocks), names, k, e) <==> SomeLinePlaced(sections, blocks, names, k, e)
  {
    var all := Indices(|blocks|);
    var order := Order(blocks);
    assert order == SortBy<nat>(all, TopAt(blocks));
    if SomeLinePlaced(sections, blocks, names, k, e) {
      var j :| 0 <= j < |blocks| && Placement(sections, blocks, j, names) == Some((k, e));
      assert all[j] == j;
      SortByMember<nat>(all, TopAt(blocks), j);
      var m :| 0 <= m < |order| && order[m] == j;
      assert PlacedAt(sections, blocks, order, names, k, e, m);
    }
    if PlacedBy(sections, blocks, order, names, k, e) {
      var m :| PlacedAt(sections, blocks, order, names, k, e, m);
      assert 0 <= order[m] < |blocks| && Placement(sections, blocks, order[m], names) == Some((k, e));
    }
  }

  /** After processing, section `k` holds the valid events among those its lines gave it. */
  lemma PageEventsFromLines(blocks: seq<Block>, names: seq<string>, k: nat, e: PTP.Event)
    requires k < |PageSections(blocks, names)|
    ensures e in PageSections(blocks, names)[k].events <==>
              PTP.IsValidEvent(e) && e in EventsInto(Headers(blocks), blocks, Order(blocks), names, k)
  {
    var headers := Headers(blocks);
    var filled := AssignEvents(headers, blocks, Order(blocks), names);
    AssignEventsPlaces(headers, blocks, Order(blocks), names);
    assert filled[k].events == EventsInto(headers, blocks, Order(blocks), names, k);
    var page := PageSections(blocks, names);
    assert e in page[k].events <==> e in multiset(Filter(filled[k].events, PTP.IsValidEvent));
    FilterMember(filled[k].events, PTP.IsValidEvent, e);
  }

  lemma {:induction false} AssignOneConfidence(sections: seq<PTP.Section>, blocks: seq<Block>, i: nat, names: seq<string>)
    requires SortedBy(sections, PTP.TopPos) && i < |blocks| && PTP.EventsConfidenceOk(sections)
    requires PTP.ConfidenceOk(Cloud(blocks[i]))
    ensures PTP.EventsConfidenceOk(AssignOne(sections, blocks, i, names))
  {
    if !SkipForEvents(Trim(blocks[i].text)) {
      match PTP.FindBand(SortBy(sections, PTP.TopPos), blocks[i].bounding.top, 0)
      case None =>
      case Some(k) =>
        var e := EventAt(blocks, i, names);
        if e.Some? {
          PTP.AppendEventConfidence(sections, k, e.value);
        }
    }
  }

  lemma {:induction false} AssignEventsConfidence(sections: seq<PTP.Section>, blocks: seq<Block>,
                                                  order: seq<nat>, names: seq<string>)
    requires SortedBy(sections, PTP.TopPos) && InRange(order, |blocks|) && PTP.EventsConfidenceOk(sections)
    requires forall k :: 0 <= k < |blocks| ==> PTP.ConfidenceOk(Cloud(blocks[k]))
    ensures PTP.EventsConfidenceOk(AssignEvents(sections, blocks, order, names))
    decreases |order|
  {
    if order != [] {
      AssignEventsConfidence(sections, blocks, order[..|order| - 1], names);
      var prior := AssignEvents(sections, blocks, order[..|order| - 1], names);
      AssignOneConfidence(prior, blocks, order[|order| - 1], names);
    }
  }

  /** With line confidences in [0, 1] (or missing), the page confidence is in [0, 1]. */
  lemma PageConfidenceBounds(blocks: seq<Block>, names: seq<string>)
    requires forall k :: 0 <= k < |blocks| ==> PTP.ConfidenceOk(Cloud(blocks[k]))
    ensures 0.0 <= PTP.PageConfidence(PageSections(blocks, names)) <= 1.0
  {
    var filled := AssignEvents(Headers(blocks), blocks, Order(blocks), names);
    AssignEventsConfidence(Headers(blocks), blocks, Order(blocks), names);
    var page := PageSections(blocks, names);
    forall i, k | 0 <= i < |page| && 0 <= k < |page[i].events|
      ensures 0.0 <= page[i].events[k].confidence <= 1.0
    {
      var e := page[i].events[k];
      assert e in multiset(page[i].events);
      assert e in Filter(filled[i].events, PTP.IsValidEvent);
    }
    PTP.AllConfidencesWithin(page);
    var xs := PTP.AllConfidences(page);
    if xs != [] {
      MeanBounds(xs, 0.0, 1.0);
    }
  }

  // ------------------------------------------------------------ the processor

  lemma RaneTrimmed()
    ensures Trim("Rane") in TN.DefaultProperNames
  {
    TrimNoSpace("Rane");
  }

  class PlannerTextProcessorMLKit {
    const normalizer: TN.TextNormalizer
    var blocks: seq<Block>
    var year: Option<nat>
    var sections: seq<PTP.Section>
    var confidence: real

    /** Registers "Rane", which the normaliser already knows. */
    constructor()
      ensures fresh(normalizer) && normalizer.properNames == TN.DefaultProperNames
      ensures blocks == [] && year == None && sections == [] && confidence == 0.0
    {
      normalizer := new TN.TextNormalizer();
      blocks := [];
      year := None;
      sections := [];
      confidence := 0.0;
      new;
      RaneTrimmed();
      normalizer.AddProperName("Rane");
    }

    /** The loop over the neighbours in `processEventBlock` that looks for a time. */
    method FirstTimeOf(near: seq<nat>) returns (time: Option<string>)
      ensures time == FirstTime(blocks, near)
    {
      time := None;
      var j := 0;
      while j < |near|
        invariant 0 <= j <= |near|
        invariant FirstTime(blocks, near) == FirstTime(blocks, near[j..])
      {
        assert near[j..][1..] == near[j + 1..];
        var found := TimeOf(blocks, near[j]);
        if found.Some? {
          return found;
        }
        j := j + 1;
      }
      assert near[|near|..] == [];
    }

    /** `processEventBlock` up to the push: the event line `i` yields, if any. */
    method ReadEvent(i: nat) returns (e: Option<PTP.Event>)
      requires i < |blocks|
      ensures e == EventAt(blocks, i, normalizer.properNames)
    {
      var text := Trim(blocks[i].text);
      var near := Nearby(blocks, i);
      var time: Option<string> := None;
      var title: string := [];
      if IsTimeLine(text) {
        time := NormalizeTimeMl(text);
        if near != [] {
          title := normalizer.NormalizeText(blocks[near[0]].text);
        }
      }
      if time.None? && |text| > 0 {
        title := normalizer.NormalizeText(text);
        time := FirstTimeOf(near);
      }
      if time.Some? && title != [] {
        e := Some(MakeEvent(blocks, i, title, time.value));
      } else {
        e := None;
      }
      if OwnTime(text) {
        assert e == TitledByNeighbour(blocks, i, near, normalizer.properNames);
      } else {
        assert e == TimedByNeighbour(blocks, i, near, normalizer.properNames);
      }
    }

    /** `processEventBlock` for line `i` of the recognition, added to section `k`. */
    method ProcessEventBlock(k: nat, i: nat)
      requires k < |sections| && i < |blocks|
      modifies this
      ensures blocks == old(blocks) && year == old(year) && confidence == old(confidence)
      ensures sections == AddEvent(old(sections), k, EventAt(blocks, i, normalizer.properNames))
    {
      var e := ReadEvent(i);
      sections := AddEvent(sections, k, e);
    }

    /** The event pass for line `i`: unless skipped, its event joins the section whose band holds it. */
    method ProcessLine(i: nat)
      requires SortedBy(sections, PTP.TopPos) && i < |blocks|
      modifies this
      ensures blocks == old(blocks) && year == old(year) && confidence == old(confidence)
      ensures sections == AssignOne(old(sections), blocks, i, normalizer.properNames)
      ensures SortedBy(sections, PTP.TopPos)
    {
      if !SkipForEvents(Trim(blocks[i].text)) {
        var found := PTP.FindBand(SortBy(sections, PTP.TopPos), blocks[i].bounding.top, 0);
        if found.Some? {
          ProcessEventBlock(found.value, i);
        }
      }
      PTP.SameLayoutSorted(old(sections), sections);
    }

    method FillSections(order: seq<nat>)
      requires SortedBy(sections, PTP.TopPos) && InRange(order, |blocks|)
      modifies this
      ensures blocks == old(blocks) && year == old(year) && confidence == old(confidence)
      ensures sections == AssignEvents(old(sections), blocks, order, normalizer.properNames)
    {
      ghost var start := sections;
      var n := 0;
      while n < |order|
        invariant 0 <= n <= |order|
        invariant blocks == old(blocks) && year == old(year) && confidence == old(confidence)
        invariant sections == AssignEvents(start, blocks, order[..n], normalizer.properNames)
        invariant SortedBy(sections, PTP.TopPos)
      {
        AssignEventsSnoc(start, blocks, order, n, normalizer.properNames);
        ProcessLine(order[n]);
        n := n + 1;
      }
      assert order[..|order|] == order;
    }

    /** `calculateConfidence`: collects every event's confidence, then takes the mean. */
    method CalculateConfidence()
      modifies this
      ensures confidence == PTP.PageConfidence(sections)
      ensures blocks == old(blocks) && year == old(year) && sections == old(sections)
    {
      var scores: seq<real> := [];
      var n := 0;
      while n < |sections|
        invariant 0 <= n <= |sections|
        invariant scores == PTP.AllConfidences(sections[..n])
      {
        assert sections[..n + 1][..n] == sections[..n];
        var j := 0;
        var events := sections[n].events;
        while j < |events|
          invariant 0 <= j <= |events|
          invariant scores == PTP.AllConfidences(sections[..n]) + PTP.EventConfidences(events[..j])
        {
          scores := scores + [events[j].confidence];
          j := j + 1;
        }
        assert events[..j] == events;
        n := n + 1;
      }
      assert sections[..|sections|] == sections;
      confidence := Mean(scores);
    }

    /** `processPage` after recognition; an empty recognition is a failure that changes nothing. */
    method ProcessPage(recognized: seq<Block>) returns (success: bool)
      requires sections == [] && year == None
      modifies this
      ensures success <==> recognized != []
      ensures !success ==> blocks == old(blocks) && year == None && sections == [] && confidence == old(confidence)
      ensures success ==> blocks == recognized && year == PTP.FindYear(Pick(recognized, Indices(|recognized|)))
      ensures success ==> sections == PageSections(recognized, normalizer.properNames)
      ensures success ==> confidence == PTP.PageConfidence(sections)
    {
      if recognized == [] {
        return false;
      }
      blocks := recognized;
      year := PTP.FindYear(Pick(blocks, Indices(|blocks|)));
      var order := Order(blocks);
      sections := Headers(blocks);
      FillSections(order);
      CleanSections();
      CalculateConfidence();
      success := true;
    }

    method CleanSections()
      modifies this
      ensures sections == PTP.Cleaned(old(sections))
      ensures blocks == old(blocks) && year == old(year) && confidence == old(confidence)
    {
      var j := 0;
      while j < |sections|
        invariant 0 <= j <= |sections| == |old(sections)|
        invariant forall i :: 0 <= i < j ==> sections[i] == PTP.Cleaned(old(sections))[i]
        invariant forall i :: j <= i < |sections| ==> sections[i] == old(sections)[i]
        invariant blocks == old(blocks) && year == old(year) && confidence == old(confidence)
      {
        sections := sections[j := sections[j].(events := PTP.CleanEvents(sections[j].events))];
        j := j + 1;
      }
    }
  }
}
