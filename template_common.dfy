/**
 * What the two grid templates (the two-page 4×3 layout and the single-page 2×3 layout)
 * share word for word: the half-open region test, the regular expressions that recognise
 * header, day and to-do content, and the header and day validators built on them.
 * Coordinates and percentages are exact reals.
 */
module TemplateCommon {
  import opened Wrappers
  import opened Text
  import opened Ocr
  import opened Rewrite
  import opened Clock

  /** The `type` of a region; `Other` stands for any type a template does not know. */
  datatype RegionKind = Header | Day | Todo | Other

  /** Where a region sits: absolute `top`/`left`, or a grid `row`/`column`. */
  datatype Placement = Fixed(top: real, left: real) | Cell(row: int, column: int)

  /** A layout entry: its key in the layout, its display name, its type, place and size. */
  datatype Region = Region(key: string, name: string, kind: RegionKind, place: Placement, width: real, height: real)

  /** What `getRegionForCoordinates` answers: the header, or a day or to-do region. */
  datatype Match = HeaderMatch | RegionMatch(kind: RegionKind, day: string, name: string)

  function MatchOf(r: Region): Match
  {
    RegionMatch(r.kind, r.key, r.name)
  }

  /** `{valid, confidence}` as the validators return it. */
  datatype Validation = Validation(valid: bool, confidence: real)

  /** `isInRegion`: half-open on both axes. */
  predicate InRegion(x: real, y: real, r: Box)
  {
    r.left <= x < r.left + r.width && r.top <= y < r.top + r.height
  }

  /** The pixel-to-percent conversion; `None` where a zero image side makes it Infinity or NaN, which no region contains. */
  function Percent(v: real, side: real): (r: Option<real>)
    ensures side != 0.0 <==> r.Some?
    ensures r.Some? ==> r.value * side == v * 100.0
  {
    if side == 0.0 then None else Some(v / side * 100.0)
  }

  /** The `for … of Object.entries(…)` scan: the first region, in layout order, that `holds`. */
  function FirstRegion(regions: seq<Region>, holds: Region -> bool): (r: Option<nat>)
    ensures r.Some? ==> r.value < |regions| && holds(regions[r.value])
    ensures r.Some? ==> forall k :: 0 <= k < r.value ==> !holds(regions[k])
    ensures r.None? ==> forall k :: 0 <= k < |regions| ==> !holds(regions[k])
  {
    if regions == [] then None
    else if holds(regions[0]) then Some(0)
    else match FirstRegion(regions[1..], holds)
      case None => None
      case Some(k) => Some(k + 1)
  }

  /**
   * `getRegionForCoordinates`: pixels become percentages of the image, which `atPercent`
   * looks up. A zero image side turns the percentage into Infinity or NaN, and no region
   * contains that.
   */
  function RegionForCoordinates(imageWidth: real, imageHeight: real, x: real, y: real,
                                atPercent: (real, real) -> Option<Match>): (r: Option<Match>)
    ensures imageWidth == 0.0 || imageHeight == 0.0 ==> r.None?
    ensures imageWidth != 0.0 && imageHeight != 0.0 ==> r == atPercent(x / imageWidth * 100.0, y / imageHeight * 100.0)
  {
    match (Percent(x, imageWidth), Percent(y, imageHeight))
    case (Some(px), Some(py)) => atPercent(px, py)
    case _ => None
  }

  // ------------------------------------------------------------ the content patterns

  const MonthNames: seq<string> := ["january", "february", "march", "april", "may", "june", "july",
                                    "august", "september", "october", "november", "december"]

  /** `\bword\b` with the `i` flag, matching at `i`. */
  predicate WholeWordAt(s: string, w: string, i: nat)
  {
    OccursCIAt(s, w, i) && WordBoundary(s, i) && WordBoundary(s, i + |w|)
  }

  /** `/\b(?:january|…|december)\b/i.test(text)`. */
  predicate HasMonth(text: string)
  {
    exists k, i :: 0 <= k < |MonthNames| && 0 <= i <= |text| && WholeWordAt(text, MonthNames[k], i)
  }

  /** `new RegExp('\\b' + day + '\\b', 'i').test(text)`. */
  predicate HasWord(text: string, w: string)
  {
    exists i :: 0 <= i <= |text| && WholeWordAt(text, w, i)
  }

  /** The optional `\s*-\s*\d{1,2}\b` tail of a date range, starting at `e`. */
  predicate RangeTail(s: string, e: nat)
  {
    e <= |s| &&
    var j := SkipSpaces(s, e);
    j < |s| && s[j] == '-' &&
    var k := SkipSpaces(s, j + 1);
    exists m :: 1 <= m <= 2 && DigitsAt(s, k, m) && WordBoundary(s, k + m)
  }

  /** `/\b\d{1,2}(?:\s*-\s*\d{1,2})?\b/` matching at `i`. */
  predicate DateRangeAt(s: string, i: nat)
  {
    WordBoundary(s, i)
    && exists n :: 1 <= n <= 2 && DigitsAt(s, i, n) && (WordBoundary(s, i + n) || RangeTail(s, i + n))
  }

  predicate HasDateRange(text: string)
  {
    exists i :: 0 <= i <= |text| && DateRangeAt(text, i)
  }

  /** `/\b20\d{2}\b/` matching at `i`. */
  predicate YearAt(s: string, i: nat)
  {
    WordBoundary(s, i) && i + 4 <= |s| && s[i] == '2' && s[i + 1] == '0'
    && IsDigit(s[i + 2]) && IsDigit(s[i + 3]) && WordBoundary(s, i + 4)
  }

  predicate HasYear(text: string)
  {
    exists i :: 0 <= i <= |text| && YearAt(text, i)
  }

  /**
   * The `\s*(?:am|pm)?\b` end of the time pattern after the minutes at `e`: some amount
   * of the white space there (backtracking may give any back), then a boundary, with or
   * without a meridian before it.
   */
  predicate TimeEnd(s: string, e: nat)
  {
    e <= |s| &&
    exists j :: e <= j <= SkipSpaces(s, e) && (WordBoundary(s, j) || (MeridianAt(s, j).Some? && WordBoundary(s, j + 2)))
  }

  /** `/\b\d{1,2}[:\.]\d{2}\s*(?:am|pm)?\b/i` matching at `i`. */
  predicate TimeAt(s: string, i: nat)
  {
    WordBoundary(s, i)
    && exists n :: 1 <= n <= 2 && DigitsAt(s, i, n) && i + n < |s| && (s[i + n] == ':' || s[i + n] == '.')
                   && DigitsAt(s, i + n + 1, 2) && TimeEnd(s, i + n + 3)
  }

  predicate HasTime(text: string)
  {
    exists i :: 0 <= i <= |text| && TimeAt(text, i)
  }

  /** `/\bthings\s+to\s+do\b/i` at `i`: where the match ends. */
  function TodoHeaderAt(s: string, i: nat): (r: Option<nat>)
    ensures r.Some? ==> i + 12 <= r.value <= |s|
  {
    if !(WordBoundary(s, i) && OccursCIAt(s, "things", i)) then None
    else
      var k := SkipSpaces(s, i + 6);
      if !(k > i + 6 && OccursCIAt(s, "to", k)) then None
      else
        var l := SkipSpaces(s, k + 2);
        if l > k + 2 && OccursCIAt(s, "do", l) && WordBoundary(s, l + 2) then Some(l + 2) else None
  }

  /** The leftmost "things to do" from `from` on, as start and end. */
  function FirstTodoHeader(s: string, from: nat): (r: Option<(nat, nat)>)
    requires from <= |s|
    ensures r.Some? ==> from <= r.value.0 < r.value.1 <= |s| && TodoHeaderAt(s, r.value.0) == Some(r.value.1)
    ensures r.Some? ==> forall i :: from <= i < r.value.0 ==> TodoHeaderAt(s, i).None?
    ensures r.None? ==> forall i :: from <= i <= |s| ==> TodoHeaderAt(s, i).None?
    decreases |s| - from
  {
    if TodoHeaderAt(s, from).Some? then Some((from, TodoHeaderAt(s, from).value))
    else if from == |s| then None
    else FirstTodoHeader(s, from + 1)
  }

  predicate HasTodoHeader(text: string)
  {
    FirstTodoHeader(text, 0).Some?
  }

  /** `text.replace(todoHeader, '')`: the first "things to do" removed. */
  function RemoveTodoHeader(text: string): (r: string)
    ensures HasTodoHeader(text) ==> |r| <= |text| - 12
    ensures !HasTodoHeader(text) ==> r == text
  {
    match FirstTodoHeader(text, 0)
    case None => text
    case Some((i, e)) => text[..i] + text[e..]
  }

  // ------------------------------------------------------------ validators

  /** `validateHeaderContent`: month, date range and year weigh 0.4, 0.4 and 0.2. */
  function ValidateHeader(text: string): (r: Validation)
    ensures r.valid <==> HasMonth(text) || HasDateRange(text) || HasYear(text)
    ensures 0.0 <= r.confidence <= 1.0
    ensures r.valid <==> r.confidence > 0.0
  {
    Validation(HasMonth(text) || HasDateRange(text) || HasYear(text),
               (if HasMonth(text) then 0.4 else 0.0) + (if HasDateRange(text) then 0.4 else 0.0)
               + (if HasYear(text) then 0.2 else 0.0))
  }

  /** `validateDayContent`: a time and the expected day name weigh 0.4 each, any content 0.2. */
  function ValidateDay(text: string, expectedDay: string): (r: Validation)
    ensures r.valid <==> text != [] && (HasTime(text) || HasWord(text, expectedDay))
    ensures 0.0 <= r.confidence <= 1.0
    ensures r.valid ==> r.confidence >= 0.6
    ensures text != [] && !r.valid ==> r.confidence == 0.2
  {
    Validation(|text| > 0 && (HasTime(text) || HasWord(text, expectedDay)),
               (if HasTime(text) then 0.4 else 0.0) + (if HasWord(text, expectedDay) then 0.4 else 0.0)
               + (if |text| > 0 then 0.2 else 0.0))
  }

  /** A standalone one- or two-digit number, which is all the date-range test really asks for. */
  predicate ShortNumberAt(s: string, i: nat)
  {
    exists n :: 1 <= n <= 2 && DigitsAt(s, i, n) && WordBoundary(s, i) && WordBoundary(s, i + n)
  }

  /** A range tail starts at white space or '-', so after a digit it starts at a boundary. */
  lemma RangeTailIsBoundary(s: string, e: nat)
    requires 0 < e <= |s| && IsDigit(s[e - 1]) && RangeTail(s, e)
    ensures WordBoundary(s, e)
  {
    var j := SkipSpaces(s, e);
    assert e < |s| && !IsWordChar(s[e]) by {
      if j == e { assert s[e] == '-'; } else { assert IsSpace(s[e]); }
    }
  }

  /**
   * The optional range tail never decides the date-range test: the text after the first
   * number of a range starts with white space or '-', which is already a word boundary.
   */
  lemma DateRangeIsShortNumber(text: string)
    ensures HasDateRange(text) <==> exists i :: 0 <= i <= |text| && ShortNumberAt(text, i)
  {
    if HasDateRange(text) {
      var i :| 0 <= i <= |text| && DateRangeAt(text, i);
      RangeIsShort(text, i);
    }
    if exists i :: 0 <= i <= |text| && ShortNumberAt(text, i) {
      var i :| 0 <= i <= |text| && ShortNumberAt(text, i);
      ShortIsRange(text, i);
    }
  }

  lemma RangeIsShort(s: string, i: nat)
    requires DateRangeAt(s, i)
    ensures ShortNumberAt(s, i)
  {
    var n :| 1 <= n <= 2 && DigitsAt(s, i, n) && (WordBoundary(s, i + n) || RangeTail(s, i + n));
    assert IsDigit(s[i + n - 1]);
    if RangeTail(s, i + n) {
      RangeTailIsBoundary(s, i + n);
    }
    assert DigitsAt(s, i, n) && WordBoundary(s, i) && WordBoundary(s, i + n);
  }

  lemma ShortIsRange(s: string, i: nat)
    requires ShortNumberAt(s, i)
    ensures DateRangeAt(s, i)
  {
  }
}
