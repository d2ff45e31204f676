/**
 * The cloud-OCR event extractor: from the text lines of a weekly planner page to
 * day sections holding timed events. The OCR call itself is not modelled; the
 * lines it returns are the input.
 */
module PlannerTextProcessor {
  import opened Wrappers
  import opened Text
  import opened Sorting
  import opened Numbers
  import opened Clock
  import opened Ocr
  import opened Rewrite
  import opened Seqs
  import TN = TextNormalizer

  /** A recognised line; every field may be missing. */
  datatype Block = Block(text: Option<string>, bounding: Option<Box>, confidence: Option<real>)

  datatype Timing = Single(time: string) | Range(startTime: string, endTime: string)

  /** An extracted event carries either one time or a start/end pair, never both. */
  datatype Event = Event(title: string, bounds: Option<Box>, confidence: real, timing: Timing)

  datatype Section = Section(day: string, date: nat, month: string, events: seq<Event>,
                             bounds: Option<Box>, topPosition: real)

  // ------------------------------------------------------------ meridian inference

  const MorningKeywords: seq<string> := ["breakfast", "morning", "school starts", "class starts"]
  const AfternoonKeywords: seq<string> := ["lunch", "afternoon", "school ends", "dismissal"]
  const EveningKeywords: seq<string> := ["dinner", "evening", "practice", "workout", "training"]

  predicate Mentions(context: string, words: seq<string>)
  {
    exists k :: 0 <= k < |words| && Contains(Lower(context), words[k])
  }

  predicate NoKeyword(context: string)
  {
    !Mentions(context, MorningKeywords) && !Mentions(context, AfternoonKeywords)
    && !Mentions(context, EveningKeywords)
  }

  /**
   * `inferMeridian`: morning words give am, afternoon and evening words pm, in that
   * order; without any, noon and 1..5 are pm and every other hour is am.
   */
  function InferMeridian(hours: int, context: string): (r: Meridian)
    ensures Mentions(context, MorningKeywords) ==> r == AM
    ensures (!Mentions(context, MorningKeywords) && (Mentions(context, AfternoonKeywords)
             || Mentions(context, EveningKeywords))) ==> r == PM
    ensures NoKeyword(context) ==> (r == PM <==> hours == 12 || 1 <= hours <= 5)
  {
    if Mentions(context, MorningKeywords) then AM
    else if Mentions(context, AfternoonKeywords) then PM
    else if Mentions(context, EveningKeywords) then PM
    else if hours == 12 then PM
    else if 1 <= hours <= 5 then PM
    else if 6 <= hours <= 7 then AM
    else if 8 <= hours <= 11 then AM
    else AM
  }

  // ------------------------------------------------------------ single time tokens

  predicate IsTimeChar(c: char) { IsDigit(c) || c == ':' || c == 'a' || c == 'p' || c == 'm' }

  /** Lower-case and keep only digits, `:`, `a`, `p` and `m`. */
  function CleanToken(text: string): (r: string)
    ensures |r| <= |text|
    ensures forall i :: 0 <= i < |r| ==> IsTimeChar(r[i])
    ensures forall c :: c in r <==> c in Lower(text) && IsTimeChar(c)
  {
    forall c ensures c in Filter(Lower(text), IsTimeChar) <==> c in Lower(text) && IsTimeChar(c) {
      FilterMember(Lower(text), IsTimeChar, c);
    }
    Filter(Lower(text), IsTimeChar)
  }

  /**
   * Cleaning keeps the time characters of the lower-cased text, every one of them
   * and in order: empty text cleans to nothing, and one more character adds its
   * lower-case form exactly when that is a time character.
   */
  lemma {:induction false} CleanTokenSnoc(text: string, c: char)
    ensures CleanToken([]) == []
    ensures CleanToken(text + [c])
            == CleanToken(text) + (if IsTimeChar(LowerChar(c)) then [LowerChar(c)] else [])
  {
    LowerConcat(text, [c]);
    assert Lower([c]) == [LowerChar(c)];
    FilterSnoc(Lower(text), LowerChar(c), IsTimeChar);
  }

  /** `^(\d{1,2})(?::(\d{2}))?(am|pm)?$` on a cleaned token: hour, minute (0 when absent), meridian. */
  function ReadToken(t: string): (r: Option<(nat, nat, Option<Meridian>)>)
    ensures r.Some? ==> r.value.0 < 100 && r.value.1 < 100
  {
    var a := DigitRun(t, 0);
    if a < 1 || a > 2 then None
    else
      ParseDigitsBound(t[..a]);
      var rest := t[a..];
      var hasMinutes := |rest| >= 3 && rest[0] == ':' && IsDigit(rest[1]) && IsDigit(rest[2]);
      var minute := if hasMinutes then (ParseDigitsBound(rest[1..3]); ParseDigits(rest[1..3])) else 0;
      var tail := if hasMinutes then rest[3..] else rest;
      if tail == [] then Some((ParseDigits(t[..a]), minute, None))
      else if tail == "am" then Some((ParseDigits(t[..a]), minute, Some(AM)))
      else if tail == "pm" then Some((ParseDigits(t[..a]), minute, Some(PM)))
      else None
  }

  /**
   * `normalizeTime(text, context, inferredMeridian)`: a canonical `H:MMam|pm` clock, or
   * nothing for empty input, a token of the wrong shape or an hour/minute out of range.
   */
  function NormalizeTime(text: string, context: string, inferred: Option<Meridian>): (r: Option<string>)
    ensures text == [] ==> r.None?
    ensures r.Some? ==> ParseClock(r.value).Some? && Proper(ParseClock(r.value).value)
                        && Format(ParseClock(r.value).value) == r.value
    ensures r.Some? ==> ReadToken(CleanToken(text)).Some?
                        && ParseClock(r.value).value.hour == ReadToken(CleanToken(text)).value.0
                        && ParseClock(r.value).value.minute == ReadToken(CleanToken(text)).value.1
    ensures var t := ReadToken(CleanToken(text));
            text != [] && t.Some? && 1 <= t.value.0 <= 12 && t.value.1 <= 59 ==> r.Some?
    ensures r.Some? ==>
              var t := ReadToken(CleanToken(text)).value;
              ParseClock(r.value).value.meridian
              == (if t.2.Some? then t.2.value else inferred.GetOr(InferMeridian(t.0, context)))
  {
    if text == [] then None
    else
      match ReadToken(CleanToken(text))
      case None => None
      case Some((h, m, own)) =>
        if h < 1 || h > 12 || m > 59 then None
        else
          var mer := match own
            case Some(x) => x
            case None => inferred.GetOr(InferMeridian(h, context));
          var c := ClockTime(h, m, mer);
          ParseFormat(c);
          Some(Format(c))
  }

  /** A canonical clock is made of lower-case time characters only. */
  lemma FormatTimeChars(c: ClockTime)
    requires Proper(c)
    ensures forall i :: 0 <= i < |Format(c)| ==> IsTimeChar(Format(c)[i])
    ensures Lower(Format(c)) == Format(c)
  {
    var s := Format(c);
    NatToStringLength(c.hour);
    assert forall i :: 0 <= i < |s| ==> IsTimeChar(s[i]) && !IsUpper(s[i]) by {
      var h := NatToString(c.hour);
      var mm := Pad2(c.minute);
      assert s == h + ":" + mm + c.meridian.Text();
      forall i | 0 <= i < |s| ensures IsTimeChar(s[i]) && !IsUpper(s[i]) {
        if i < |h| {
          assert s[i] == h[i];
        } else if i == |h| {
        } else if i < |h| + 1 + |mm| {
          assert s[i] == mm[i - |h| - 1];
        } else {
          assert s[i] == c.meridian.Text()[i - |h| - 1 - |mm|];
        }
      }
    }
    LowerOfNoUpper(s);
  }

  lemma FormatIsClean(c: ClockTime)
    requires Proper(c)
    ensures CleanToken(Format(c)) == Format(c)
  {
    FormatTimeChars(c);
    FilterAll(Format(c), IsTimeChar);
  }

  lemma ReadTokenFormat(c: ClockTime)
    requires Proper(c)
    ensures ReadToken(Format(c)) == Some((c.hour, c.minute, Some(c.meridian)))
  {
    var s := Format(c);
    var h := NatToString(c.hour);
    var mm := Pad2(c.minute);
    NatToStringLength(c.hour);
    ParseNatToString(c.hour);
    ParsePad2(c.minute);
    assert s == h + (":" + mm + c.meridian.Text());
    var a := |h|;
    assert forall k :: 0 <= k < a ==> IsDigit(s[k]);
    assert DigitRun(s, 0) == a by {
      DigitRunOfPrefix(s, a);
    }
    assert s[..a] == h;
    var rest := s[a..];
    assert rest == ":" + mm + c.meridian.Text();
    assert rest[1..3] == mm;
    assert rest[3..] == c.meridian.Text();
  }

  lemma DigitRunOfPrefix(s: string, a: nat)
    requires a < |s| && !IsDigit(s[a])
    requires forall k :: 0 <= k < a ==> IsDigit(s[k])
    ensures DigitRun(s, 0) == a
  {
    var i := a;
    while i > 0
      invariant 0 <= i <= a
      invariant DigitRun(s, i) == a - i
    {
      i := i - 1;
    }
  }

  /** Canonical output is a fixed point: normalising it again, in any context, changes nothing. */
  lemma NormalizeTimeFixedPoint(text: string, context: string, inferred: Option<Meridian>,
                                context2: string, inferred2: Option<Meridian>)
    requires NormalizeTime(text, context, inferred).Some?
    ensures NormalizeTime(NormalizeTime(text, context, inferred).value, context2, inferred2)
            == NormalizeTime(text, context, inferred)
  {
    var s := NormalizeTime(text, context, inferred).value;
    var c := ParseClock(s).value;
    FormatIsClean(c);
    ReadTokenFormat(c);
  }

  /** A token with its own am/pm keeps it: neither the inferred meridian nor the context matters. */
  lemma OwnMeridianWins(text: string, context: string, inferred: Option<Meridian>,
                        context2: string, inferred2: Option<Meridian>)
    requires ReadToken(CleanToken(text)).Some? && ReadToken(CleanToken(text)).value.2.Some?
    ensures NormalizeTime(text, context, inferred) == NormalizeTime(text, context2, inferred2)
  {
  }

  /** A handed-down meridian beats the context keywords and the hour table. */
  lemma InferredBeatsContext(text: string, context: string, context2: string, mer: Meridian)
    ensures NormalizeTime(text, context, Some(mer)) == NormalizeTime(text, context2, Some(mer))
  {
  }

  // ------------------------------------------------------------ time ranges

  predicate IsRangeChar(c: char) { IsTimeChar(c) || c == '-' }

  /** `(am|pm)$` on the end token. */
  function TrailingMeridian(t: string): Option<Meridian>
  {
    if |t| >= 2 && t[|t| - 2..] == "am" then Some(AM)
    else if |t| >= 2 && t[|t| - 2..] == "pm" then Some(PM)
    else None
  }

  /** The range text lower-cased, with everything but time characters and `-` dropped. */
  function CleanRange(text: string): string
  {
    Filter(Lower(text), IsRangeChar)
  }

  /** `a` and `b` are the first two pieces of `t.split('-')`. */
  predicate FirstPieces(t: string, a: string, b: string)
  {
    '-' !in a && '-' !in b && |a| + 1 + |b| <= |t| && t[..|a|] == a && t[|a|] == '-'
    && t[|a| + 1..|a| + 1 + |b|] == b && (|a| + 1 + |b| == |t| || t[|a| + 1 + |b|] == '-')
  }

  /** The text before the next `-`, or all of it. */
  function EndPiece(after: string): string
  {
    var j := IndexOf(after, "-", 0);
    if j < 0 then after else after[..j]
  }

  /**
   * `text.split('-')` with its first two pieces taken: the text before the first `-`
   * and the text from there up to the next `-`. Both must be non-empty, and when
   * they are the split always succeeds.
   */
  function SplitRange(text: string): (r: Option<(string, string)>)
    ensures r.Some? ==> r.value.0 != [] && r.value.1 != [] && FirstPieces(CleanRange(text), r.value.0, r.value.1)
    ensures forall a, b :: FirstPieces(CleanRange(text), a, b) && a != [] && b != [] ==> r == Some((a, b))
  {
    var t := CleanRange(text);
    var i := IndexOf(t, "-", 0);
    SplitFacts(t);
    if i < 0 then None
    else
      var startStr := t[..i];
      var endStr := EndPiece(t[i + 1..]);
      if startStr == [] || endStr == [] then None else Some((startStr, endStr))
  }

  /** `-` is at position `k` exactly when the one-character text `-` is a prefix there. */
  lemma DashAt(s: string)
    ensures forall k :: 0 <= k < |s| ==> (IsPrefix("-", s[k..]) <==> s[k] == '-')
  {
    forall k | 0 <= k < |s| ensures IsPrefix("-", s[k..]) <==> s[k] == '-' {
      assert s[k..][..1] == [s[k]];
    }
  }

  /** `indexOf('-')` is the first `-`, and -1 exactly when there is none. */
  lemma DashIndex(s: string)
    ensures IndexOf(s, "-", 0) < 0 <==> '-' !in s
    ensures IndexOf(s, "-", 0) >= 0 ==>
              IndexOf(s, "-", 0) < |s| && s[IndexOf(s, "-", 0)] == '-' && '-' !in s[..IndexOf(s, "-", 0)]
  {
    DashAt(s);
    var i := IndexOf(s, "-", 0);
    if '-' in s {
      var k :| 0 <= k < |s| && s[k] == '-';
      assert IsPrefix("-", s[k..]);
    }
    if i >= 0 {
      forall k | 0 <= k < i ensures s[..i][k] != '-' {
        assert !IsPrefix("-", s[k..]);
      }
    }
  }

  /** A `-` with none before it is the one `indexOf` finds. */
  lemma FirstDash(s: string, n: nat)
    requires n < |s| && s[n] == '-' && '-' !in s[..n]
    ensures IndexOf(s, "-", 0) == n
  {
    DashIndex(s);
  }

  /** The pieces `SplitRange` takes are the first two, and the first two are unique. */
  lemma SplitFacts(t: string)
    ensures IndexOf(t, "-", 0) >= 0 ==>
              FirstPieces(t, t[..IndexOf(t, "-", 0)], EndPiece(t[IndexOf(t, "-", 0) + 1..]))
    ensures forall a, b :: FirstPieces(t, a, b) ==> IndexOf(t, "-", 0) == |a| && EndPiece(t[|a| + 1..]) == b
  {
    DashIndex(t);
    var i := IndexOf(t, "-", 0);
    if i >= 0 {
      PiecesTaken(t, i);
    }
    forall a, b | FirstPieces(t, a, b)
      ensures IndexOf(t, "-", 0) == |a| && EndPiece(t[|a| + 1..]) == b
    {
      PiecesUnique(t, a, b);
    }
  }

  lemma PiecesUnique(t: string, a: string, b: string)
    requires FirstPieces(t, a, b)
    ensures IndexOf(t, "-", 0) == |a| && EndPiece(t[|a| + 1..]) == b
  {
    assert t[..|a|] == a;
    FirstDash(t, |a|);
    var after := t[|a| + 1..];
    assert after[..|b|] == t[|a| + 1..|a| + 1 + |b|];
    PieceEnd(after, b);
  }

  lemma PiecesTaken(t: string, i: nat)
    requires i < |t| && t[i] == '-' && '-' !in t[..i]
    ensures FirstPieces(t, t[..i], EndPiece(t[i + 1..]))
  {
    var after := t[i + 1..];
    DashIndex(after);
    var j := IndexOf(after, "-", 0);
    if j >= 0 {
      assert t[i + 1 + j] == after[j];
      assert t[i + 1..i + 1 + j] == after[..j];
    } else {
      assert t[i + 1..|t|] == after;
    }
  }

  lemma PieceEnd(after: string, b: string)
    requires '-' !in b && |b| <= |after| && after[..|b|] == b && (|b| == |after| || after[|b|] == '-')
    ensures EndPiece(after) == b
  {
    if |b| == |after| {
      DashIndex(after);
      assert after == b;
    } else {
      FirstDash(after, |b|);
    }
  }

  /**
   * `normalizeTimeRange`: both sides must parse; the end's own meridian is handed to
   * the start. The result is always a range.
   */
  function NormalizeTimeRange(text: string, context: string): (r: Option<Timing>)
    ensures r.Some? ==> r.value.Range? && SplitRange(text).Some?
    ensures r.Some? ==>
              var (st, en) := SplitRange(text).value;
              Some(r.value.startTime) == NormalizeTime(st, context, TrailingMeridian(en))
              && Some(r.value.endTime) == NormalizeTime(en, context, None)
    ensures SplitRange(text).Some?
            && NormalizeTime(SplitRange(text).value.0, context, TrailingMeridian(SplitRange(text).value.1)).Some?
            && NormalizeTime(SplitRange(text).value.1, context, None).Some?
            ==> r.Some?
    ensures r.Some? ==> NormalizeTime(r.value.startTime, context, None) == Some(r.value.startTime)
    ensures r.Some? ==> NormalizeTime(r.value.endTime, context, None) == Some(r.value.endTime)
  {
    match SplitRange(text)
    case None => None
    case Some((startStr, endStr)) =>
      var s := NormalizeTime(startStr, context, TrailingMeridian(endStr));
      var e := NormalizeTime(endStr, context, None);
      if s.None? || e.None? then None
      else
        NormalizeTimeFixedPoint(startStr, context, TrailingMeridian(endStr), context, None);
        NormalizeTimeFixedPoint(endStr, context, None, context, None);
        Some(Range(s.value, e.value))
  }

  /** All or nothing: a range comes out exactly when both of its sides normalise. */
  lemma RangeAllOrNothing(text: string, context: string)
    requires SplitRange(text).Some?
    ensures NormalizeTimeRange(text, context).Some? <==>
      (NormalizeTime(SplitRange(text).value.0, context, TrailingMeridian(SplitRange(text).value.1)).Some?
       && NormalizeTime(SplitRange(text).value.1, context, None).Some?)
  {
  }

  /** The end's am/pm reaches a start that has none of its own, whatever the context says. */
  lemma {:induction false} EndMeridianReachesStart(text: string, context: string, mer: Meridian)
    requires SplitRange(text).Some?
    requires ReadToken(CleanToken(SplitRange(text).value.0)).Some?
    requires ReadToken(CleanToken(SplitRange(text).value.0)).value.2.None?
    requires TrailingMeridian(SplitRange(text).value.1) == Some(mer)
    requires NormalizeTimeRange(text, context).Some?
    ensures ParseClock(NormalizeTimeRange(text, context).value.startTime).value.meridian == mer
  {
    var (st, en) := SplitRange(text).value;
    var tok := ReadToken(CleanToken(st)).value;
    var c := ClockTime(tok.0, tok.1, mer);
    ParseFormat(c);
  }

  /** The leading time range of a line, `^(\d{1,2})(?::(\d{2}))?\s*-\s*(\d{1,2})(?::(\d{2}))?\s*(am|pm)?` (i): its length. */
  function RangePrefix(t: string): (r: Option<nat>)
    ensures r.Some? ==> 0 < r.value <= |t|
  {
    var a := DigitRun(t, 0);
    if a < 1 || a > 2 then None
    else
      var i := if a + 3 <= |t| && t[a] == ':' && IsDigit(t[a + 1]) && IsDigit(t[a + 2]) then a + 3 else a;
      var j := SkipSpaces(t, i);
      if j >= |t| || t[j] != '-' then None
      else
        var k := SkipSpaces(t, j + 1);
        if k >= |t| || !IsDigit(t[k]) then None
        else
          var k2 := if k + 1 < |t| && IsDigit(t[k + 1]) then k + 2 else k + 1;
          var k3 := if k2 + 3 <= |t| && t[k2] == ':' && IsDigit(t[k2 + 1]) && IsDigit(t[k2 + 2]) then k2 + 3 else k2;
          var k4 := SkipSpaces(t, k3);
          Some(if MeridianAt(t, k4).Some? then k4 + 2 else k4)
  }

  // ------------------------------------------------------------ events

  /** `block.confidence || 0.8`. */
  function BlockConfidence(b: Block): real
  {
    match b.confidence
    case Some(c) => if c == 0.0 then 0.8 else c
    case None => 0.8
  }

  /** The time part and the description of a trimmed line, as `processEventBlock` splits it. */
  function ReadLine(t: string): (r: (Option<Timing>, string))
  {
    match RangePrefix(t)
    case Some(n) =>
      var description := Trim(t[n..]);
      (NormalizeTimeRange(t[..n], description), description)
    case None =>
      var parts := SplitWs(t);
      var description := Join(parts[1..], " ");
      var time := NormalizeTime(parts[0], description, None);
      (if time.Some? then Some(Single(time.value)) else None, description)
  }

  /** `processEventBlock`: an event exists only with a parsed time and a non-empty normalised title. */
  function EventFromBlock(b: Block, names: seq<string>): (r: Option<Event>)
    requires b.text.Some?
    ensures r.Some? ==> r.value.title != [] && r.value.bounds == b.bounding
                        && r.value.confidence == BlockConfidence(b)
    ensures r.Some? ==> ReadLine(Trim(b.text.value)).0 == Some(r.value.timing)
    ensures r.Some? ==> r.value.title == TN.Normalize(names, ReadLine(Trim(b.text.value)).1)
    ensures ReadLine(Trim(b.text.value)).0.None? ==> r.None?
  {
    var (timing, description) := ReadLine(Trim(b.text.value));
    if timing.None? then None
    else
      var title := TN.Normalize(names, description);
      if title == [] then None else Some(Event(title, b.bounding, BlockConfidence(b), timing.value))
  }

  /** `isValidEvent`: a time (or a start/end pair), a title longer than one character, not the to-do heading. */
  predicate IsValidEvent(e: Event)
  {
    (match e.timing
     case Single(t) => t != []
     case Range(s, f) => s != [] && f != [])
    && |e.title| > 1 && !EqualsCI(e.title, "things to do")
  }

  /** The sort key `parseTimeString(startTime || time)`. */
  function EventKey(e: Event): real
  {
    (match e.timing
     case Single(t) => MinutesOfDay(t)
     case Range(s, _) => MinutesOfDay(s)) as real
  }

  /** Every event is kept only if valid and then ordered by time of day. */
  function CleanEvents(events: seq<Event>): (r: seq<Event>)
    ensures forall i :: 0 <= i < |r| ==> IsValidEvent(r[i])
    ensures SortedBy(r, EventKey)
    ensures multiset(r) == multiset(Filter(events, IsValidEvent))
  {
    var kept := Filter(events, IsValidEvent);
    SortBySorted(kept, EventKey);
    SortByPermutation(kept, EventKey);
    var r := SortBy(kept, EventKey);
    forall i | 0 <= i < |r| ensures IsValidEvent(r[i]) {
      assert r[i] in multiset(r);
      assert r[i] in kept;
    }
    r
  }

  // ------------------------------------------------------------ page layout

  /** `bounding?.top || 0`. */
  function Top(b: Block): real
  {
    match b.bounding
    case Some(x) => x.top
    case None => 0.0
  }

  function TopPos(s: Section): real { s.topPosition }

  /** `^20\d{2}$`. */
  predicate IsYearText(t: string)
  {
    |t| == 4 && t[0] == '2' && t[1] == '0' && IsDigit(t[2]) && IsDigit(t[3])
  }

  /** The block's line, trimmed, is exactly a year 20xx. */
  predicate IsYearBlock(b: Block)
  {
    b.text.Some? && IsYearText(Trim(b.text.value))
  }

  /** The year of the first line that is exactly a year 20xx, in recognition order. */
  function FindYear(blocks: seq<Block>): (r: Option<nat>)
    ensures r.Some? ==> 2000 <= r.value <= 2099
    ensures r.Some? <==> exists i :: 0 <= i < |blocks| && IsYearBlock(blocks[i])
    ensures r.Some? ==> exists i :: FirstYearAt(blocks, i) && r.value == YearOf(blocks[i])
    decreases |blocks|
  {
    if blocks == [] then None
    else if IsYearBlock(blocks[0]) then
      var t := Trim(blocks[0].text.value);
      YearValue(t);
      assert FirstYearAt(blocks, 0);
      Some(ParseDigits(t))
    else
      var r := FindYear(blocks[1..]);
      YearShift(blocks, r);
      r
  }

  /** Line `i` is a bare year and no line before it is. */
  predicate FirstYearAt(blocks: seq<Block>, i: int)
  {
    0 <= i < |blocks| && IsYearBlock(blocks[i]) && forall j :: 0 <= j < i ==> !IsYearBlock(blocks[j])
  }

  /** The number a bare-year line reads as. */
  function YearOf(b: Block): nat
  {
    if IsYearBlock(b) then ParseDigits(Trim(b.text.value)) else 0
  }

  lemma YearShift(blocks: seq<Block>, r: Option<nat>)
    requires blocks != [] && !IsYearBlock(blocks[0])
    requires r.Some? <==> exists i :: 0 <= i < |blocks[1..]| && IsYearBlock(blocks[1..][i])
    requires r.Some? ==> exists i :: FirstYearAt(blocks[1..], i) && r.value == YearOf(blocks[1..][i])
    ensures r.Some? <==> exists i :: 0 <= i < |blocks| && IsYearBlock(blocks[i])
    ensures r.Some? ==> exists i :: FirstYearAt(blocks, i) && r.value == YearOf(blocks[i])
  {
    var rest := blocks[1..];
    if r.Some? {
      var i :| FirstYearAt(rest, i) && r.value == YearOf(rest[i]);
      assert rest[i] == blocks[i + 1];
      forall j | 0 <= j < i + 1 ensures !IsYearBlock(blocks[j]) {
        if j > 0 { assert rest[j - 1] == blocks[j]; }
      }
      assert FirstYearAt(blocks, i + 1);
    } else {
      forall j | 0 <= j < |blocks| ensures !IsYearBlock(blocks[j]) {
        if j > 0 { assert rest[j - 1] == blocks[j]; }
      }
    }
  }

  lemma YearValue(t: string)
    requires IsYearText(t)
    ensures 2000 <= ParseDigits(t) <= 2099
  {
    assert t[..3][..2][..1][..0] == [];
    assert ParseDigits(t[..1]) == 2;
    assert ParseDigits(t[..2]) == 20 by { assert t[..2][..1] == t[..1]; }
    assert ParseDigits(t[..3]) == 200 + DigitValue(t[2]) by { assert t[..3][..2] == t[..2]; }
    assert t[..4] == t;
  }

  /** Length of a leading `Monday`, `Tuesday` or `Wednesday` in any case, or 0. */
  function DayNameLength(t: string): (n: nat)
    ensures n == 0 || n == 6 || n == 7 || n == 9
    ensures n > 0 ==> n <= |t|
  {
    if OccursCIAt(t, "monday", 0) then 6
    else if OccursCIAt(t, "tuesday", 0) then 7
    else if OccursCIAt(t, "wednesday", 0) then 9
    else 0
  }

  /** `^(Monday|Tuesday|Wednesday),\s*(\d{1,2})\s*(January)` (i): the day as written and the date. */
  function DayHeader(t: string): (r: Option<(string, nat)>)
    ensures r.Some? ==> r.value.1 < 100 && |r.value.0| > 0
  {
    var n := DayNameLength(t);
    if n == 0 || n >= |t| || t[n] != ',' then None
    else
      var j := SkipSpaces(t, n + 1);
      var a := DigitRun(t, j);
      if a < 1 || a > 2 then None
      else
        var k := SkipSpaces(t, j + a);
        if OccursCIAt(t, "january", k) then
          ParseDigitsBound(t[j..j + a]);
          Some((t[..n], ParseDigits(t[j..j + a])))
        else None
  }

  /** `^(Monday|Tuesday|Wednesday),` with the exact capitalisation. */
  predicate StartsWithDayComma(t: string)
  {
    IsPrefix("Monday,", t) || IsPrefix("Tuesday,", t) || IsPrefix("Wednesday,", t)
  }

  /** Lines the event pass never reads: blank, the to-do heading, a bare year, a day heading. */
  predicate SkipForEvents(t: string)
  {
    t == [] || Contains(Lower(t), "things to do") || IsYearText(t) || StartsWithDayComma(t)
  }

  function SectionOf(b: Block, day: string, date: nat): Section
  {
    Section(day, date, "january", [], b.bounding, Top(b))
  }

  /** The section pass over lines in page order. */
  function HeaderSections(bs: seq<Block>): (r: seq<Section>)
    ensures |r| <= |bs|
    ensures forall i :: 0 <= i < |r| ==> r[i].events == []
    decreases |bs|
  {
    if bs == [] then []
    else
      var b := bs[|bs| - 1];
      var prior := HeaderSections(bs[..|bs| - 1]);
      if b.text.Some? && b.text.value != [] && DayHeader(Trim(b.text.value)).Some? then
        var h := DayHeader(Trim(b.text.value)).value;
        prior + [SectionOf(b, h.0, h.1)]
      else prior
  }

  /**
   * `findSectionForBlock`: nothing for a line without a (non-zero) top; otherwise, in the
   * sections ordered by top, the first whose band `[top_i, top_{i+1})` holds the line,
   * the last band being open below. The result indexes the ordered sections.
   */
  function FindSectionForBlock(sections: seq<Section>, b: Block): (r: Option<nat>)
    ensures b.bounding.None? || b.bounding.value.top == 0.0 ==> r.None?
    ensures r.Some? ==> r.value < |sections| && InBand(SortBy(sections, TopPos), r.value, b.bounding.value.top)
  {
    if b.bounding.None? || b.bounding.value.top == 0.0 then None
    else FindBand(SortBy(sections, TopPos), b.bounding.value.top, 0)
  }

  predicate InBand(secs: seq<Section>, i: nat, top: real)
    requires i < |secs|
  {
    secs[i].topPosition <= top && (i + 1 == |secs| || top < secs[i + 1].topPosition)
  }

  function FindBand(secs: seq<Section>, top: real, i: nat): (r: Option<nat>)
    ensures r.Some? ==> i <= r.value < |secs| && InBand(secs, r.value, top)
    ensures r.None? ==> forall k :: i <= k < |secs| ==> !InBand(secs, k, top)
    decreases |secs| - i
  {
    if i >= |secs| then None
    else if InBand(secs, i, top) then Some(i)
    else FindBand(secs, top, i + 1)
  }

  /** With the sections ordered, a line is outside every band exactly when it lies above the first. */
  lemma {:induction false} FindBandAbove(secs: seq<Section>, top: real)
    requires SortedBy(secs, TopPos)
    ensures FindBand(secs, top, 0).None? <==> secs == [] || top < secs[0].topPosition
  {
    if secs != [] && secs[0].topPosition <= top {
      var k := 0;
      while k + 1 < |secs| && secs[k + 1].topPosition <= top
        invariant 0 <= k < |secs| && secs[k].topPosition <= top
      {
        k := k + 1;
      }
      assert InBand(secs, k, top);
    }
  }

  /** Two section lists with the same layout: only the events may differ. */
  predicate SameLayout(a: seq<Section>, b: seq<Section>)
  {
    |a| == |b| && forall i :: 0 <= i < |a| ==> a[i].(events := []) == b[i].(events := [])
  }

  /** The event pass for one line: the line's event, if any, joins its section. */
  function AssignOne(sections: seq<Section>, b: Block, names: seq<string>): (r: seq<Section>)
    requires SortedBy(sections, TopPos)
    ensures SameLayout(sections, r)
  {
    if b.text.None? || SkipForEvents(Trim(b.text.value)) then sections
    else
      match FindSectionForBlock(sections, b)
      case None => sections
      case Some(i) =>
        match EventFromBlock(b, names)
        case None => sections
        case Some(e) => sections[i := sections[i].(events := sections[i].events + [e])]
  }

  lemma SameLayoutSorted(a: seq<Section>, b: seq<Section>)
    requires SameLayout(a, b) && SortedBy(a, TopPos)
    ensures SortedBy(b, TopPos)
  {
    forall i, j | 0 <= i < j < |b| ensures TopPos(b[i]) <= TopPos(b[j]) {
      assert a[i].(events := []).topPosition == a[i].topPosition;
      assert a[j].(events := []).topPosition == a[j].topPosition;
    }
  }

  function AssignEvents(sections: seq<Section>, bs: seq<Block>, names: seq<string>): (r: seq<Section>)
    requires SortedBy(sections, TopPos)
    ensures SameLayout(sections, r) && SortedBy(r, TopPos)
    decreases |bs|
  {
    if bs == [] then sections
    else
      var prior := AssignEvents(sections, bs[..|bs| - 1], names);
      var r := AssignOne(prior, bs[|bs| - 1], names);
      SameLayoutSorted(prior, r);
      r
  }

  /** The section (a position in `sections`) and the event that line `b` adds in the event pass, if any. */
  function Placement(sections: seq<Section>, b: Block, names: seq<string>): (r: Option<(nat, Event)>)
    ensures r.Some? <==> b.text.Some? && !SkipForEvents(Trim(b.text.value))
                         && FindSectionForBlock(sections, b).Some? && EventFromBlock(b, names).Some?
    ensures r.Some? ==> r.value == (FindSectionForBlock(sections, b).value, EventFromBlock(b, names).value)
  {
    if b.text.None? || SkipForEvents(Trim(b.text.value)) then None
    else
      match FindSectionForBlock(sections, b)
      case None => None
      case Some(i) =>
        match EventFromBlock(b, names)
        case None => None
        case Some(e) => Some((i, e))
  }

  /** What a placement gives section `i`. */
  function Into(p: Option<(nat, Event)>, i: nat): seq<Event>
  {
    if p.Some? && p.value.0 == i then [p.value.1] else []
  }

  /** The events that the lines give section `i`, in line order. */
  function EventsInto(sections: seq<Section>, bs: seq<Block>, names: seq<string>, i: nat): seq<Event>
    decreases |bs|
  {
    if bs == [] then []
    else EventsInto(sections, bs[..|bs| - 1], names, i) + Into(Placement(sections, bs[|bs| - 1], names), i)
  }

  /** The bands depend on the sections' tops only, not on the events they hold. */
  lemma {:induction false} FindBandLayout(a: seq<Section>, b: seq<Section>, top: real, i: nat)
    requires SameLayout(a, b)
    ensures FindBand(a, top, i) == FindBand(b, top, i)
    decreases |a| - i
  {
    if i < |a| {
      assert a[i].(events := []).topPosition == b[i].(events := []).topPosition;
      if i + 1 < |a| {
        assert a[i + 1].(events := []).topPosition == b[i + 1].(events := []).topPosition;
      }
      FindBandLayout(a, b, top, i + 1);
    }
  }

  /** A line finds the same section before and after events were added. */
  lemma SectionLayout(a: seq<Section>, b: seq<Section>, blk: Block)
    requires SameLayout(a, b) && SortedBy(a, TopPos)
    ensures FindSectionForBlock(a, blk) == FindSectionForBlock(b, blk)
  {
    SameLayoutSorted(a, b);
    SortByIdentity(a, TopPos);
    SortByIdentity(b, TopPos);
    if blk.bounding.Some? {
      FindBandLayout(a, b, blk.bounding.value.top, 0);
    }
  }

  /** One line of the event pass adds its event to the section it is placed in, and nowhere else. */
  lemma AssignOnePlaces(sections: seq<Section>, prior: seq<Section>, b: Block, names: seq<string>)
    requires SortedBy(sections, TopPos) && SortedBy(prior, TopPos) && SameLayout(sections, prior)
    ensures forall i :: 0 <= i < |prior| ==>
              AssignOne(prior, b, names)[i].events == prior[i].events + Into(Placement(sections, b, names), i)
  {
    SectionLayout(sections, prior, b);
  }

  /**
   * The event pass fills each section with the events of exactly the lines placed in
   * it, in line order, after the events it already held.
   */
  lemma {:induction false} AssignEventsPlaces(sections: seq<Section>, bs: seq<Block>, names: seq<string>)
    requires SortedBy(sections, TopPos)
    ensures forall i :: 0 <= i < |sections| ==>
              AssignEvents(sections, bs, names)[i].events == sections[i].events + EventsInto(sections, bs, names, i)
    decreases |bs|
  {
    if bs != [] {
      var init := bs[..|bs| - 1];
      AssignEventsPlaces(sections, init, names);
      var prior := AssignEvents(sections, init, names);
      AssignOnePlaces(sections, prior, bs[|bs| - 1], names);
      forall i | 0 <= i < |sections|
        ensures AssignEvents(sections, bs, names)[i].events == sections[i].events + EventsInto(sections, bs, names, i)
      {
        AppendAssoc(sections[i].events, EventsInto(sections, init, names, i), Into(Placement(sections, bs[|bs| - 1], names), i));
      }
    }
  }

  /** Some line is placed in section `i` with event `e`. */
  predicate PlacedBy(sections: seq<Section>, bs: seq<Block>, names: seq<string>, i: nat, e: Event)
  {
    exists b :: b in bs && Placement(sections, b, names) == Some((i, e))
  }

  /** An event goes to section `i` exactly when some line is placed there with that event. */
  lemma {:induction false} EventsIntoMember(sections: seq<Section>, bs: seq<Block>, names: seq<string>, i: nat, e: Event)
    ensures e in EventsInto(sections, bs, names, i) <==> PlacedBy(sections, bs, names, i, e)
    decreases |bs|
  {
    if bs != [] {
      var init := bs[..|bs| - 1];
      var last := bs[|bs| - 1];
      EventsIntoMember(sections, init, names, i, e);
      SnocLast(bs);
      if PlacedBy(sections, bs, names, i, e) {
        var b :| b in bs && Placement(sections, b, names) == Some((i, e));
        if b != last {
          assert b in init;
        }
      }
    }
  }

  /** No section lies below `top`. */
  predicate TopsAtMost(secs: seq<Section>, top: real)
  {
    forall i :: 0 <= i < |secs| ==> secs[i].topPosition <= top
  }

  /** The section pass over one more line adds at most one section, at that line's top. */
  lemma HeaderSectionsStep(bs: seq<Block>)
    requires bs != []
    ensures var prior := HeaderSections(bs[..|bs| - 1]);
            var r := HeaderSections(bs);
            (r == prior) || (|r| == |prior| + 1 && r[..|prior|] == prior && r[|prior|].topPosition == Top(bs[|bs| - 1]))
  {
  }

  /** Lines in page order give sections in page order, none below the last line. */
  lemma {:induction false} HeaderSectionsSorted(bs: seq<Block>)
    requires SortedBy(bs, Top)
    ensures SortedBy(HeaderSections(bs), TopPos)
    ensures bs != [] ==> TopsAtMost(HeaderSections(bs), Top(bs[|bs| - 1]))
    decreases |bs|
  {
    if bs != [] {
      var init := bs[..|bs| - 1];
      var top := Top(bs[|bs| - 1]);
      assert SortedBy(init, Top);
      HeaderSectionsSorted(init);
      if init != [] {
        assert Top(init[|init| - 1]) <= top;
      }
      HeaderSectionsStep(bs);
      SortedTopsAppend(HeaderSections(init), HeaderSections(bs), top);
    }
  }

  lemma SortedTopsAppend(prior: seq<Section>, r: seq<Section>, top: real)
    requires SortedBy(prior, TopPos) && TopsAtMost(prior, top)
    requires (r == prior) || (|r| == |prior| + 1 && r[..|prior|] == prior && r[|prior|].topPosition == top)
    ensures SortedBy(r, TopPos) && TopsAtMost(r, top)
  {
    if r != prior {
      forall i | 0 <= i < |prior| ensures r[i] == prior[i] {
        assert r[..|prior|][i] == r[i];
      }
    }
  }



  function Cleaned(sections: seq<Section>): (r: seq<Section>)
    ensures SameLayout(sections, r)
    ensures forall i :: 0 <= i < |r| ==> r[i].events == CleanEvents(sections[i].events)
  {
    seq(|sections|, i requires 0 <= i < |sections| => sections[i].(events := CleanEvents(sections[i].events)))
  }

  /** What `processPage` leaves in `recognized.sections` for the given lines. */
  function PageSections(blocks: seq<Block>, names: seq<string>): seq<Section>
  {
    var sorted := SortBy(blocks, Top);
    SortBySorted(blocks, Top);
    HeaderSectionsSorted(sorted);
    Cleaned(AssignEvents(HeaderSections(sorted), sorted, names))
  }

  function AllConfidences(sections: seq<Section>): seq<real>
    decreases |sections|
  {
    if sections == [] then []
    else AllConfidences(sections[..|sections| - 1]) + EventConfidences(sections[|sections| - 1].events)
  }

  function EventConfidences(events: seq<Event>): (r: seq<real>)
    ensures |r| == |events|
    ensures forall i :: 0 <= i < |r| ==> r[i] == events[i].confidence
  {
    seq(|events|, i requires 0 <= i < |events| => events[i].confidence)
  }

  /** `calculateConfidence`: the mean confidence of all events, 0 without events. */
  function PageConfidence(sections: seq<Section>): real
  {
    Mean(AllConfidences(sections))
  }

  // ------------------------------------------------------------ page properties

  /** Every event left on the page is valid and each section's events ascend by time of day. */
  lemma PageEventsValidAndOrdered(blocks: seq<Block>, names: seq<string>)
    ensures forall i :: 0 <= i < |PageSections(blocks, names)| ==>
      SortedBy(PageSections(blocks, names)[i].events, EventKey)
      && forall k :: 0 <= k < |PageSections(blocks, names)[i].events| ==>
           IsValidEvent(PageSections(blocks, names)[i].events[k])
  {
  }

  /** Sections are ordered top to bottom and there is one per day-heading line. */
  lemma PageSectionsOrdered(blocks: seq<Block>, names: seq<string>)
    ensures SortedBy(PageSections(blocks, names), TopPos)
    ensures |PageSections(blocks, names)| == |HeaderSections(SortBy(blocks, Top))|
  {
    var s := PageSections(blocks, names);
    var filled := AssignEvents(HeaderSections(SortBy(blocks, Top)), SortBy(blocks, Top), names);
    SameLayoutSorted(filled, s);
  }

  /**
   * Where events land: after processing, an event is in section `i` exactly when it is
   * valid and some line is placed in that section with that event.
   */
  lemma PageEventsPlaced(blocks: seq<Block>, names: seq<string>, i: nat, e: Event)
    requires i < |PageSections(blocks, names)|
    ensures e in PageSections(blocks, names)[i].events <==>
              IsValidEvent(e) && PlacedBy(HeaderSections(SortBy(blocks, Top)), blocks, names, i, e)
  {
    var sorted := SortBy(blocks, Top);
    var headers := HeaderSections(sorted);
    PageEventsFromLines(blocks, names, i, e);
    EventsIntoMember(headers, sorted, names, i, e);
    PlacedBySorted(headers, blocks, names, i, e);
  }

  /** Whether the lines are taken in page order or as recognised does not change which are placed. */
  lemma PlacedBySorted(sections: seq<Section>, blocks: seq<Block>, names: seq<string>, i: nat, e: Event)
    ensures PlacedBy(sections, SortBy(blocks, Top), names, i, e) <==> PlacedBy(sections, blocks, names, i, e)
  {
    if PlacedBy(sections, blocks, names, i, e) {
      var b :| b in blocks && Placement(sections, b, names) == Some((i, e));
      SortByMember(blocks, Top, b);
    }
    if PlacedBy(sections, SortBy(blocks, Top), names, i, e) {
      var b :| b in SortBy(blocks, Top) && Placement(sections, b, names) == Some((i, e));
      SortByMember(blocks, Top, b);
    }
  }

  /** After processing, section `i` holds the valid events among those its lines gave it. */
  lemma PageEventsFromLines(blocks: seq<Block>, names: seq<string>, i: nat, e: Event)
    requires i < |PageSections(blocks, names)|
    ensures e in PageSections(blocks, names)[i].events <==>
              IsValidEvent(e) && e in EventsInto(HeaderSections(SortBy(blocks, Top)), SortBy(blocks, Top), names, i)
  {
    var sorted := SortBy(blocks, Top);
    SortBySorted(blocks, Top);
    HeaderSectionsSorted(sorted);
    var headers := HeaderSections(sorted);
    var filled := AssignEvents(headers, sorted, names);
    AssignEventsPlaces(headers, sorted, names);
    assert filled[i].events == EventsInto(headers, sorted, names, i);
    var page := PageSections(blocks, names);
    assert e in page[i].events <==> e in multiset(Filter(filled[i].events, IsValidEvent));
    FilterMember(filled[i].events, IsValidEvent, e);
  }

  predicate ConfidenceOk(b: Block)
  {
    b.confidence.None? || 0.0 <= b.confidence.value <= 1.0
  }

  predicate EventsConfidenceOk(sections: seq<Section>)
  {
    forall i, k :: 0 <= i < |sections| && 0 <= k < |sections[i].events| ==>
      0.0 <= sections[i].events[k].confidence <= 1.0
  }

  lemma {:induction false} AssignEventsConfidence(sections: seq<Section>, bs: seq<Block>, names: seq<string>)
    requires SortedBy(sections, TopPos) && EventsConfidenceOk(sections)
    requires forall k :: 0 <= k < |bs| ==> ConfidenceOk(bs[k])
    ensures EventsConfidenceOk(AssignEvents(sections, bs, names))
    decreases |bs|
  {
    if bs != [] {
      AssignEventsConfidence(sections, bs[..|bs| - 1], names);
      var prior := AssignEvents(sections, bs[..|bs| - 1], names);
      AssignOneConfidence(prior, bs[|bs| - 1], names);
    }
  }

  /** Filing one line keeps every confidence in [0, 1]. */
  lemma {:induction false} AssignOneConfidence(sections: seq<Section>, b: Block, names: seq<string>)
    requires SortedBy(sections, TopPos) && EventsConfidenceOk(sections) && ConfidenceOk(b)
    ensures EventsConfidenceOk(AssignOne(sections, b, names))
  {
    if b.text.Some? && !SkipForEvents(Trim(b.text.value)) {
      match FindSectionForBlock(sections, b)
      case None =>
      case Some(i) =>
        match EventFromBlock(b, names)
        case None =>
        case Some(e) => AppendEventConfidence(sections, i, e);
    }
  }

  /** Appending an event whose confidence is in [0, 1] keeps every confidence in [0, 1]. */
  lemma AppendEventConfidence(sections: seq<Section>, i: nat, e: Event)
    requires i < |sections| && EventsConfidenceOk(sections) && 0.0 <= e.confidence <= 1.0
    ensures EventsConfidenceOk(sections[i := sections[i].(events := sections[i].events + [e])])
  {
    var r := sections[i := sections[i].(events := sections[i].events + [e])];
    forall j, k | 0 <= j < |r| && 0 <= k < |r[j].events|
      ensures 0.0 <= r[j].events[k].confidence <= 1.0
    {
      if j == i && k == |sections[i].events| {
        assert r[j].events[k] == e;
      } else {
        assert r[j].events[k] == sections[j].events[k];
      }
    }
  }

  lemma {:induction false} AllConfidencesWithin(sections: seq<Section>)
    requires EventsConfidenceOk(sections)
    ensures AllWithin(AllConfidences(sections), 0.0, 1.0)
    decreases |sections|
  {
    if sections != [] {
      AllConfidencesWithin(sections[..|sections| - 1]);
    }
  }

  /** With line confidences in [0, 1] (or missing), the page confidence is in [0, 1]. */
  lemma PageConfidenceBounds(blocks: seq<Block>, names: seq<string>)
    requires forall k :: 0 <= k < |blocks| ==> ConfidenceOk(blocks[k])
    ensures 0.0 <= PageConfidence(PageSections(blocks, names)) <= 1.0
  {
    var sorted := SortBy(blocks, Top);
    SortByPermutation(blocks, Top);
    forall k | 0 <= k < |sorted| ensures ConfidenceOk(sorted[k]) {
      assert sorted[k] in multiset(blocks);
    }
    SortBySorted(blocks, Top);
    HeaderSectionsSorted(sorted);
    var filled := AssignEvents(HeaderSections(sorted), sorted, names);
    AssignEventsConfidence(HeaderSections(sorted), sorted, names);
    var page := PageSections(blocks, names);
    forall i, k | 0 <= i < |page| && 0 <= k < |page[i].events|
      ensures 0.0 <= page[i].events[k].confidence <= 1.0
    {
      var e := page[i].events[k];
      assert e in multiset(page[i].events);
      assert e in Filter(filled[i].events, IsValidEvent);
    }
    AllConfidencesWithin(page);
    var xs := AllConfidences(page);
    if xs != [] {
      MeanBounds(xs, 0.0, 1.0);
    }
  }

  // ------------------------------------------------------------ the processor

  /** The event pass after `k + 1` lines is one more line on the pass after `k`. */
  lemma AssignEventsSnoc(sections: seq<Section>, bs: seq<Block>, k: nat, names: seq<string>, prior: seq<Section>)
    requires SortedBy(sections, TopPos) && k < |bs|
    requires prior == AssignEvents(sections, bs[..k], names)
    ensures AssignEvents(sections, bs[..k + 1], names) == AssignOne(prior, bs[k], names)
  {
    assert bs[..k + 1][..k] == bs[..k];
  }

  /** One page's processor: it is built fresh for every capture. */
  class PlannerTextProcessor {
    const normalizer: TN.TextNormalizer
    var year: Option<nat>
    var sections: seq<Section>
    var confidence: real

    constructor()
      ensures fresh(normalizer) && normalizer.properNames == TN.DefaultProperNames
      ensures year == None && sections == [] && confidence == 0.0
    {
      normalizer := new TN.TextNormalizer();
      year := None;
      sections := [];
      confidence := 0.0;
    }

    /** The event `processEventBlock` reads from a line: a time, and a title that normalises to something. */
    method ReadEvent(b: Block) returns (e: Option<Event>)
      requires b.text.Some?
      ensures e == EventFromBlock(b, normalizer.properNames)
    {
      var text := Trim(b.text.value);
      var (timing, description) := ReadLine(text);
      e := None;
      if timing.Some? {
        var title := normalizer.NormalizeText(description);
        if title != [] {
          e := Some(Event(title, b.bounding, BlockConfidence(b), timing.value));
        }
      }
    }

    /** `processEventBlock`: appends the line's event, if it has one, to section `i`. */
    method ProcessEventBlock(i: nat, b: Block)
      requires i < |sections| && b.text.Some?
      modifies this
      ensures EventFromBlock(b, normalizer.properNames).None? ==> sections == old(sections)
      ensures EventFromBlock(b, normalizer.properNames).Some? ==>
        sections == old(sections)[i := old(sections)[i].(events := old(sections)[i].events
                                                              + [EventFromBlock(b, normalizer.properNames).value])]
      ensures year == old(year) && confidence == old(confidence)
    {
      var e := ReadEvent(b);
      if e.Some? {
        sections := sections[i := sections[i].(events := sections[i].events + [e.value])];
      }
    }

    /** The section pass: a section for every day-heading line, in the given order. */
    method ReadHeaders(sorted: seq<Block>) returns (r: seq<Section>)
      ensures r == HeaderSections(sorted)
    {
      r := [];
      var k := 0;
      while k < |sorted|
        invariant 0 <= k <= |sorted|
        invariant r == HeaderSections(sorted[..k])
      {
        var b := sorted[k];
        assert sorted[..k + 1][..k] == sorted[..k];
        if b.text.Some? && b.text.value != [] {
          var header := DayHeader(Trim(b.text.value));
          if header.Some? {
            r := r + [SectionOf(b, header.value.0, header.value.1)];
          }
        }
        k := k + 1;
      }
      assert sorted[..|sorted|] == sorted;
    }

    /** One line of the event pass: unless skipped, its event joins the section it lies in. */
    method ProcessLine(b: Block)
      requires SortedBy(sections, TopPos)
      modifies this
      ensures sections == AssignOne(old(sections), b, normalizer.properNames)
      ensures year == old(year) && confidence == old(confidence)
    {
      if b.text.Some? && !SkipForEvents(Trim(b.text.value)) {
        var found := FindSectionForBlock(sections, b);
        if found.Some? {
          ProcessEventBlock(found.value, b);
        }
      }
    }

    /** The event pass: every line that is not skipped adds its event to its section. */
    method FillSections(sorted: seq<Block>)
      requires SortedBy(sections, TopPos)
      modifies this
      ensures sections == AssignEvents(old(sections), sorted, normalizer.properNames)
      ensures year == old(year) && confidence == old(confidence)
    {
      var k := 0;
      while k < |sorted|
        invariant 0 <= k <= |sorted|
        invariant sections == AssignEvents(old(sections), sorted[..k], normalizer.properNames)
        invariant SortedBy(sections, TopPos)
        invariant year == old(year) && confidence == old(confidence)
      {
        AssignEventsSnoc(old(sections), sorted, k, normalizer.properNames, sections);
        ProcessLine(sorted[k]);
        k := k + 1;
      }
      assert sorted[..|sorted|] == sorted;
    }

    /** The clean-up: each section keeps its valid events, ordered by time of day. */
    method CleanSections()
      modifies this
      ensures sections == Cleaned(old(sections))
      ensures year == old(year) && confidence == old(confidence)
    {
      var j := 0;
      while j < |sections|
        invariant 0 <= j <= |sections| == |old(sections)|
        invariant forall i :: 0 <= i < j ==> sections[i] == Cleaned(old(sections))[i]
        invariant forall i :: j <= i < |sections| ==> sections[i] == old(sections)[i]
        invariant year == old(year) && confidence == old(confidence)
      {
        sections := sections[j := sections[j].(events := CleanEvents(sections[j].events))];
        j := j + 1;
      }
    }

    /** `processPage` after recognition: year, sections, events, clean-up and confidence. */
    method ProcessPage(blocks: seq<Block>)
      requires sections == [] && year == None
      modifies this
      ensures year == FindYear(blocks)
      ensures sections == PageSections(blocks, normalizer.properNames)
      ensures confidence == PageConfidence(sections)
    {
      year := FindYear(blocks);
      var sorted := SortBy(blocks, Top);
      SortBySorted(blocks, Top);
      HeaderSectionsSorted(sorted);
      sections := ReadHeaders(sorted);
      FillSections(sorted);
      CleanSections();
      confidence := PageConfidence(sections);
    }
  }
}
