/**
 * The 17×11 weekly planner. Two anchor marks fix the page; a header strip, seven day
 * columns and twenty-four hour rows are laid out relative to them. Recognised text
 * blocks are filed into the header or a day column by the centre of their bounding box,
 * then each day's events are cleaned and sorted by hour and an overall confidence is
 * averaged. Coordinates are exact reals.
 */
module PlannerTemplate17x11 {
  import opened Wrappers
  import opened Text
  import opened Ocr
  import opened Sorting
  import opened Numbers
  import opened Clock
  import opened Rewrite
  import opened Seqs

  datatype Point = Point(x: real, y: real)

  /** The page's registration marks. */
  datatype Anchors = Anchors(topLeft: Point, bottomRight: Point)

  /** `this.regions`: the header, the seven day columns and the twenty-four hour rows. */
  datatype Layout = Layout(header: Box, dayColumns: seq<Box>, hourRows: seq<Box>)

  function Right(b: Box): real { b.left + b.width }

  function Bottom(b: Box): real { b.top + b.height }

  function PageWidth(a: Anchors): real { a.bottomRight.x - a.topLeft.x }

  function PageHeight(a: Anchors): real { a.bottomRight.y - a.topLeft.y }

  /** The left edge of day column `k`; edge 7 is the right edge of the last column. */
  function ColumnEdge(a: Anchors, k: nat): real
  {
    a.topLeft.x + PageWidth(a) * (k as real / 7.0)
  }

  /** The top edge of hour row `k`; edge 24 is the bottom edge of the last row. */
  function RowEdge(a: Anchors, k: nat): real
  {
    a.topLeft.y + PageHeight(a) * 0.15 + PageHeight(a) * 0.85 * (k as real / 24.0)
  }

  /** `calculateRegions`. */
  function CalculateRegions(a: Anchors): (l: Layout)
    ensures |l.dayColumns| == 7 && |l.hourRows| == 24
  {
    Layout(Box(a.topLeft.y, a.topLeft.x + PageWidth(a) * 0.1, PageWidth(a) * 0.8, PageHeight(a) * 0.1),
           seq(7, i => DayColumn(a, i)),
           seq(24, i => HourRow(a, i)))
  }

  /** Day column `i`: a seventh of the page wide, from 15% down to the bottom anchor. */
  function DayColumn(a: Anchors, i: int): Box
  {
    Box(a.topLeft.y + PageHeight(a) * 0.15, a.topLeft.x + PageWidth(a) * (i as real / 7.0), PageWidth(a) / 7.0, PageHeight(a) * 0.85)
  }

  /** Hour row `i`: the full page width, a twenty-fourth of the day band tall. */
  function HourRow(a: Anchors, i: int): Box
  {
    Box(a.topLeft.y + PageHeight(a) * 0.15 + PageHeight(a) * 0.85 * (i as real / 24.0), a.topLeft.x, PageWidth(a), PageHeight(a) * 0.85 / 24.0)
  }

  /** The day columns tile the band below the 15% line from the left anchor to the right one. */
  lemma ColumnsTile(a: Anchors)
    ensures ColumnEdge(a, 0) == a.topLeft.x && ColumnEdge(a, 7) == a.bottomRight.x
    ensures RowEdge(a, 0) == a.topLeft.y + 0.15 * PageHeight(a)
    ensures forall k :: 0 <= k < 7 ==> ColumnEdge(a, k + 1) == ColumnEdge(a, k) + PageWidth(a) / 7.0
    ensures forall k :: 0 <= k < 7 ==> CalculateRegions(a).dayColumns[k] == DayColumn(a, k)
    ensures forall k :: 0 <= k < 7 ==>
              DayColumn(a, k).left == ColumnEdge(a, k) && Right(DayColumn(a, k)) == ColumnEdge(a, k + 1)
              && DayColumn(a, k).top == RowEdge(a, 0) && Bottom(DayColumn(a, k)) == a.bottomRight.y
  {
    var w := PageWidth(a);
    forall k: nat | k < 7
      ensures ColumnEdge(a, k + 1) == ColumnEdge(a, k) + w / 7.0
    {
      assert w * ((k + 1) as real / 7.0) == w * (k as real / 7.0) + w / 7.0;
    }
  }

  /** The hour rows tile the same band from the 15% line down to the bottom anchor, across the whole page. */
  lemma RowsTile(a: Anchors)
    ensures RowEdge(a, 0) == a.topLeft.y + 0.15 * PageHeight(a) && RowEdge(a, 24) == a.bottomRight.y
    ensures forall k :: 0 <= k < 24 ==> RowEdge(a, k + 1) == RowEdge(a, k) + PageHeight(a) * 0.85 / 24.0
    ensures forall k :: 0 <= k < 24 ==> CalculateRegions(a).hourRows[k] == HourRow(a, k)
    ensures forall k :: 0 <= k < 24 ==>
              HourRow(a, k).top == RowEdge(a, k) && Bottom(HourRow(a, k)) == RowEdge(a, k + 1)
              && HourRow(a, k).left == a.topLeft.x && Right(HourRow(a, k)) == a.bottomRight.x
  {
    var h := PageHeight(a);
    forall k: nat | k < 24
      ensures RowEdge(a, k + 1) == RowEdge(a, k) + h * 0.85 / 24.0
    {
      assert h * 0.85 * ((k + 1) as real / 24.0) == h * 0.85 * (k as real / 24.0) + h * 0.85 / 24.0;
    }
  }

  /** The header is the middle 80% of the top tenth of the page. */
  lemma HeaderPlacement(a: Anchors)
    ensures var hd := CalculateRegions(a).header;
            hd.top == a.topLeft.y && Bottom(hd) == a.topLeft.y + 0.1 * PageHeight(a)
            && hd.left == a.topLeft.x + 0.1 * PageWidth(a) && Right(hd) == a.bottomRight.x - 0.1 * PageWidth(a)
  {
  }

  /** `isPointInRegion`: closed on all four sides. */
  predicate PointIn(x: real, y: real, b: Box)
  {
    b.left <= x <= Right(b) && b.top <= y <= Bottom(b)
  }

  /** `Array.prototype.find` over boxes: the index of the first one containing the point. */
  function FirstPointIn(boxes: seq<Box>, x: real, y: real): (r: Option<nat>)
    ensures r.Some? ==> r.value < |boxes| && PointIn(x, y, boxes[r.value])
    ensures r.Some? ==> forall k :: 0 <= k < r.value ==> !PointIn(x, y, boxes[k])
    ensures r.None? ==> forall k :: 0 <= k < |boxes| ==> !PointIn(x, y, boxes[k])
  {
    if boxes == [] then None
    else if PointIn(x, y, boxes[0]) then Some(0)
    else match FirstPointIn(boxes[1..], x, y)
      case None => None
      case Some(k) => Some(k + 1)
  }

  /** The region a block is filed under. */
  datatype Hit = HeaderHit | DayHit(dayIndex: nat)

  function CentreX(b: Box): real { b.left + b.width / 2.0 }

  function CentreY(b: Box): real { b.top + b.height / 2.0 }

  /** `findMatchingRegion`: by the centre of the bounds, the header first, then the first day column. */
  function FindMatchingRegion(a: Anchors, bounds: Box): (r: Option<Hit>)
    ensures r == Some(HeaderHit) <==> PointIn(CentreX(bounds), CentreY(bounds), CalculateRegions(a).header)
    ensures r.Some? && r.value.DayHit? ==>
              r.value.dayIndex < 7 && PointIn(CentreX(bounds), CentreY(bounds), CalculateRegions(a).dayColumns[r.value.dayIndex])
    ensures r.None? ==> forall k :: 0 <= k < 7 ==> !PointIn(CentreX(bounds), CentreY(bounds), CalculateRegions(a).dayColumns[k])
  {
    var l := CalculateRegions(a);
    var x := CentreX(bounds);
    var y := CentreY(bounds);
    if PointIn(x, y, l.header) then Some(HeaderHit)
    else match FirstPointIn(l.dayColumns, x, y)
      case Some(k) => Some(DayHit(k))
      case None => None
  }

  /** `getHourFromBounds`: the first hour row containing the left edge at the block's vertical centre. */
  function GetHourFromBounds(a: Anchors, bounds: Box): (r: Option<nat>)
    ensures r.Some? ==> r.value < 24 && PointIn(bounds.left, CentreY(bounds), CalculateRegions(a).hourRows[r.value])
    ensures r.None? ==> forall k :: 0 <= k < 24 ==> !PointIn(bounds.left, CentreY(bounds), CalculateRegions(a).hourRows[k])
  {
    FirstPointIn(CalculateRegions(a).hourRows, bounds.left, CentreY(bounds))
  }

  /** Some pair of consecutive edges brackets a value that lies between the first edge and the last. */
  lemma {:induction false} Bracket(edges: seq<real>, v: real, i: nat)
    requires i < |edges| && edges[i] <= v
    ensures exists k :: i <= k < |edges| && edges[k] <= v && (k == |edges| - 1 || v < edges[k + 1])
    decreases |edges| - i
  {
    if i < |edges| - 1 && edges[i + 1] <= v {
      Bracket(edges, v, i + 1);
    }
  }

  /** Of two columns the point lies in, only the first can be the answer: `k` is the column whose left edge the point is strictly past, or column 0. */
  lemma FirstColumnIsLeftmost(a: Anchors, x: real, y: real, k: nat)
    requires PageWidth(a) > 0.0
    requires k < 7 && PointIn(x, y, CalculateRegions(a).dayColumns[k])
    requires forall j :: 0 <= j < k ==> !PointIn(x, y, CalculateRegions(a).dayColumns[j])
    ensures ColumnEdge(a, k) <= x <= ColumnEdge(a, k + 1)
    ensures k == 0 || ColumnEdge(a, k) < x
  {
    ColumnsTile(a);
    if k > 0 {
      var cols := CalculateRegions(a).dayColumns;
      assert !PointIn(x, y, cols[k - 1]);
    }
  }

  /**
   * Every block whose centre lies in the day band of the page is filed under a day
   * column: the one whose edges bracket the centre, a centre on a shared edge going to
   * the left-hand column.
   */
  lemma {:induction false} CentreFindsColumn(a: Anchors, bounds: Box)
    requires PageWidth(a) > 0.0 && PageHeight(a) > 0.0
    requires a.topLeft.x <= CentreX(bounds) <= a.bottomRight.x
    requires RowEdge(a, 0) <= CentreY(bounds) <= a.bottomRight.y
    ensures exists k :: 0 <= k < 7 && FindMatchingRegion(a, bounds) == Some(DayHit(k))
                        && ColumnEdge(a, k) <= CentreX(bounds) <= ColumnEdge(a, k + 1)
                        && (k == 0 || ColumnEdge(a, k) < CentreX(bounds))
  {
    HeaderPlacement(a);
    var l := CalculateRegions(a);
    var x := CentreX(bounds);
    var y := CentreY(bounds);
    var edges := seq(8, k requires 0 <= k => ColumnEdge(a, k));
    Bracket(edges, x, 0);
    var k :| 0 <= k < 8 && edges[k] <= x && (k == 7 || x < edges[k + 1]);
    if k == 7 {
      LastColumnEdges(a);
      ColumnContains(a, x, y, 6);
    } else {
      ColumnContains(a, x, y, k);
    }
    assert !PointIn(x, y, l.header);
    var r := FirstPointIn(l.dayColumns, x, y);
    assert r.Some?;
    FirstColumnIsLeftmost(a, x, y, r.value);
  }

  /** The last day column ends at the right anchor and has positive width. */
  lemma LastColumnEdges(a: Anchors)
    requires PageWidth(a) > 0.0
    ensures ColumnEdge(a, 7) == a.bottomRight.x && ColumnEdge(a, 6) < ColumnEdge(a, 7)
  {
    ColumnsTile(a);
  }

  /** A point of the day band between the edges of column `k` lies in that column. */
  lemma ColumnContains(a: Anchors, x: real, y: real, k: nat)
    requires k < 7 && ColumnEdge(a, k) <= x <= ColumnEdge(a, k + 1) && RowEdge(a, 0) <= y <= a.bottomRight.y
    ensures PointIn(x, y, CalculateRegions(a).dayColumns[k])
  {
    ColumnsTile(a);
  }

  /** The strip between the header and the day columns (10% to 15% down) files nothing. */
  lemma HeaderGapIsIgnored(a: Anchors, bounds: Box)
    requires PageHeight(a) > 0.0
    requires a.topLeft.y + 0.1 * PageHeight(a) < CentreY(bounds) < RowEdge(a, 0)
    ensures FindMatchingRegion(a, bounds).None?
  {
    ColumnsTile(a);
    HeaderPlacement(a);
  }

  /** Within the day band some hour row contains any point across the page. */
  lemma SomeRowContains(a: Anchors, x: real, y: real)
    requires PageHeight(a) > 0.0
    requires a.topLeft.x <= x <= a.bottomRight.x && RowEdge(a, 0) <= y <= a.bottomRight.y
    ensures exists c :: 0 <= c < 24 && PointIn(x, y, CalculateRegions(a).hourRows[c])
  {
    var edges := seq(25, k requires 0 <= k => RowEdge(a, k));
    Bracket(edges, y, 0);
    var k :| 0 <= k < 25 && edges[k] <= y && (k == 24 || y < edges[k + 1]);
    if k == 24 {
      LastRowEdges(a);
      RowContains(a, x, y, 23);
    } else {
      RowContains(a, x, y, k);
    }
  }

  /** The last hour row ends at the bottom anchor and has positive height. */
  lemma LastRowEdges(a: Anchors)
    requires PageHeight(a) > 0.0
    ensures RowEdge(a, 24) == a.bottomRight.y && RowEdge(a, 23) < RowEdge(a, 24)
  {
    RowsTile(a);
  }

  /** A point across the page between the edges of hour row `k` lies in that row. */
  lemma RowContains(a: Anchors, x: real, y: real, k: nat)
    requires k < 24 && a.topLeft.x <= x <= a.bottomRight.x && RowEdge(a, k) <= y <= RowEdge(a, k + 1)
    ensures PointIn(x, y, CalculateRegions(a).hourRows[k])
  {
    RowsTile(a);
  }

  /** The first hour row containing a point is the one whose top edge the point is strictly below, or row 0. */
  lemma FirstRowIsEarliest(a: Anchors, x: real, y: real, k: nat)
    requires PageHeight(a) > 0.0
    requires k < 24 && PointIn(x, y, CalculateRegions(a).hourRows[k])
    requires forall j :: 0 <= j < k ==> !PointIn(x, y, CalculateRegions(a).hourRows[j])
    ensures RowEdge(a, k) <= y <= RowEdge(a, k + 1)
    ensures k == 0 || RowEdge(a, k) < y
  {
    RowsTile(a);
    if k > 0 {
      var rows := CalculateRegions(a).hourRows;
      assert !PointIn(x, y, rows[k - 1]);
    }
  }

  /** Within the day band every left edge on the page finds an hour row: the one bracketing the centre, a shared edge going to the earlier hour. */
  lemma HourOfBlock(a: Anchors, bounds: Box)
    requires PageWidth(a) > 0.0 && PageHeight(a) > 0.0
    requires a.topLeft.x <= bounds.left <= a.bottomRight.x
    requires RowEdge(a, 0) <= CentreY(bounds) <= a.bottomRight.y
    ensures exists k :: 0 <= k < 24 && GetHourFromBounds(a, bounds) == Some(k)
                        && RowEdge(a, k) <= CentreY(bounds) <= RowEdge(a, k + 1)
                        && (k == 0 || RowEdge(a, k) < CentreY(bounds))
  {
    SomeRowContains(a, bounds.left, CentreY(bounds));
    var r := GetHourFromBounds(a, bounds);
    assert r.Some?;
    FirstRowIsEarliest(a, bounds.left, CentreY(bounds), r.value);
  }

  // ------------------------------------------------------------ the text patterns

  /** One attempt of `(\d{1,2})[:\.]\d{2}\s*(am|pm)?` (case-insensitive) at position `i`. */
  datatype TimeMatch = TimeMatch(start: nat, hourEnd: nat, end: nat, meridian: Option<Meridian>)

  function TimeAt(s: string, i: nat): (r: Option<TimeMatch>)
    ensures r.Some? ==> r.value.start == i && i < r.value.hourEnd <= i + 2 && r.value.hourEnd + 3 <= r.value.end <= |s|
    ensures r.Some? ==> DigitsAt(s, i, r.value.hourEnd - i)
  {
    var n := if DigitsAt(s, i, 2) && i + 2 < |s| && (s[i + 2] == ':' || s[i + 2] == '.') && DigitsAt(s, i + 3, 2) then 2
             else if DigitsAt(s, i, 1) && i + 1 < |s| && (s[i + 1] == ':' || s[i + 1] == '.') && DigitsAt(s, i + 2, 2) then 1
             else 0;
    if n == 0 then None
    else
      var j := SkipSpaces(s, i + n + 3);
      var m := MeridianAt(s, j);
      Some(TimeMatch(i, i + n, if m.Some? then j + 2 else j, m))
  }

  /** No time starts at or past the end of the text. */
  lemma TimeAtEnd(s: string, i: nat)
    requires |s| <= i
    ensures TimeAt(s, i).None?
  {
    assert !DigitsAt(s, i, 2) && !DigitsAt(s, i, 1);
  }

  /** The leftmost time in `s` from `from` on. */
  function FindTime(s: string, from: nat): (r: Option<TimeMatch>)
    ensures r.Some? ==> from <= r.value.start && TimeAt(s, r.value.start) == r
    ensures r.Some? ==> forall i :: from <= i < r.value.start ==> TimeAt(s, i).None?
    ensures r.None? ==> forall i :: from <= i ==> TimeAt(s, i).None?
    decreases |s| - from
  {
    if from >= |s| then
      assert forall i :: from <= i ==> TimeAt(s, i).None? by {
        forall i | from <= i ensures TimeAt(s, i).None? { TimeAtEnd(s, i); }
      }
      None
    else if TimeAt(s, from).Some? then TimeAt(s, from)
    else FindTime(s, from + 1)
  }

  /** `parseHour`: the 24-hour hour of the first time in the text, 0 when there is none. */
  function ParseHour(s: string): (r: nat)
    ensures FindTime(s, 0).None? ==> r == 0
    ensures FindTime(s, 0).Some? ==>
              var t := FindTime(s, 0).value;
              var h := ParseDigits(s[t.start..t.hourEnd]);
              r == if t.meridian == Some(PM) && h < 12 then h + 12
                   else if t.meridian == Some(AM) && h == 12 then 0
                   else h
    ensures r < 100
  {
    match FindTime(s, 0)
    case None => 0
    case Some(t) =>
      ParseDigitsBound(s[t.start..t.hourEnd]);
      var hour := ParseDigits(s[t.start..t.hourEnd]);
      match t.meridian
      case None => hour
      case Some(m) => To24(ClockTime(hour, 0, m))
  }

  /** A time written exactly as `h:mmam` or `h:mmpm` has the 24-hour hour of that clock. */
  lemma {:induction false} ParseHourOfClock(s: string)
    requires ParseClock(s).Some?
    ensures ParseHour(s) == To24(ParseClock(s).value)
  {
    if |s| == 6 {
      assert s[2] == s[2..4][0] && s[3] == s[2..4][1];
      assert !IsSpace(s[4]) by { assert MeridianAt(s, 4).Some?; assert Lower(s[4..6])[0] == LowerChar(s[4]); }
      assert SkipSpaces(s, 4) == 4;
      assert TimeAt(s, 0).Some?;
      assert FindTime(s, 0).value.hourEnd == 1 && s[0..1] == s[..1];
    } else {
      assert s[0] == s[..2][0] && s[1] == s[..2][1];
      assert s[3] == s[3..5][0] && s[4] == s[3..5][1];
      assert !IsSpace(s[5]) by { assert MeridianAt(s, 5).Some?; assert Lower(s[5..7])[0] == LowerChar(s[5]); }
      assert SkipSpaces(s, 5) == 5;
      assert TimeAt(s, 0).Some?;
      assert FindTime(s, 0).value.hourEnd == 2 && s[0..2] == s[..2];
    }
  }

  /** Reading the hour back from a formatted clock gives its 24-hour hour. */
  lemma ParseHourOfFormat(t: ClockTime)
    requires Proper(t)
    ensures ParseHour(Format(t)) == To24(t)
  {
    ParseFormat(t);
    ParseHourOfClock(Format(t));
  }

  /** The end of the run of letters (`[a-z]*` with the `i` flag) from `i`. */
  function SkipLetters(s: string, i: nat): (j: nat)
    requires i <= |s|
    ensures i <= j <= |s|
    ensures forall k :: i <= k < j ==> IsLetter(s[k])
    ensures j < |s| ==> !IsLetter(s[j])
    decreases |s| - i
  {
    if i < |s| && IsLetter(s[i]) then SkipLetters(s, i + 1) else i
  }

  const DayPrefixes: seq<string> := ["mon", "tue", "wed", "thu", "fri", "sat", "sun"]

  const OrdinalSuffixes: seq<string> := ["th", "st", "nd", "rd"]

  /**
   * `/^(?:mon|…|sun)[a-z]*\s*\d{1,2}(?:th|st|nd|rd)?$/i`: the whole text is a day name,
   * a day of the month and an optional ordinal suffix.
   */
  predicate IsDayHeader(s: string)
  {
    3 <= |s| && (exists p :: p in DayPrefixes && EqualsCI(s[..3], p))
    && DayOfMonthEnds(s, SkipSpaces(s, SkipLetters(s, 3)))
  }

  /** `\d{1,2}(?:th|st|nd|rd)?$` at `k`. */
  predicate DayOfMonthEnds(s: string, k: nat)
  {
    exists n :: 1 <= n <= 2 && DigitsAt(s, k, n)
                && (k + n == |s| || (k + n + 2 == |s| && Lower(s[k + n..]) in OrdinalSuffixes))
  }

  /** A day's name, a space and a one- or two-digit day of the month make a day header. */
  lemma {:induction false} DayNameWithDateIsHeader(name: string, day: nat)
    requires 3 <= |name| && forall k :: 0 <= k < |name| ==> IsLowerLetter(name[k])
    requires name[..3] in DayPrefixes
    requires 1 <= day <= 31
    ensures IsDayHeader(name + " " + NatToString(day))
  {
    var s := name + " " + NatToString(day);
    var d := NatToString(day);
    NatToStringLength(day);
    assert s[..3] == name[..3];
    LowerOfNoUpper(name[..3]);
    assert EqualsCI(s[..3], name[..3]);
    assert SkipLetters(s, 3) == |name| by {
      SkipLettersOver(s, 3, |name|);
    }
    assert SkipSpaces(s, |name|) == |name| + 1 by {
      assert s[|name|] == ' ';
      assert s[|name| + 1] == d[0];
    }
    var k := |name| + 1;
    assert DigitsAt(s, k, |d|) by {
      forall j | k <= j < k + |d| ensures IsDigit(s[j]) {
        assert s[j] == d[j - k];
      }
    }
  }

  lemma {:induction false} SkipLettersOver(s: string, i: nat, j: nat)
    requires i <= j < |s|
    requires forall k :: i <= k < j ==> IsLetter(s[k])
    requires !IsLetter(s[j])
    ensures SkipLetters(s, i) == j
    decreases j - i
  {
    if i < j {
      SkipLettersOver(s, i + 1, j);
    }
  }

  /**
   * After a date keyword at `p`: `\s*([A-Za-z]+\s+\d{1,2}(?:[,-]\s*\d{1,2})?)`. The result
   * is the span of the captured group. No quantifier here can give back characters to
   * let a later piece match, so the greedy reading is the only one.
   */
  function DateTailAt(s: string, p: nat): (r: Option<(nat, nat)>)
    requires p <= |s|
    ensures r.Some? ==> p <= r.value.0 < r.value.1 <= |s| && IsLetter(s[r.value.0]) && IsDigit(s[r.value.1 - 1])
  {
    var j := SkipSpaces(s, p);
    var l := SkipLetters(s, j);
    var k := SkipSpaces(s, l);
    var n := if DigitsAt(s, k, 2) then 2 else if DigitsAt(s, k, 1) then 1 else 0;
    if l == j || k == l || n == 0 then None
    else
      var d := k + n;
      var end :=
        if d < |s| && (s[d] == ',' || s[d] == '-') then
          var t := SkipSpaces(s, d + 1);
          if DigitsAt(s, t, 2) then t + 2 else if DigitsAt(s, t, 1) then t + 1 else d
        else d;
      Some((j, end))
  }

  /** A captured date after position `i`: it starts with a letter and ends with a digit. */
  predicate DateSpan(s: string, i: nat, span: (nat, nat))
  {
    i < span.0 < span.1 <= |s| && IsLetter(s[span.0]) && IsDigit(s[span.1 - 1])
  }

  /** One keyword alternative at `i`, followed by the captured date. */
  function KeywordDate(s: string, i: nat, keyword: string): (r: Option<(nat, nat)>)
    ensures r.Some? ==> DateSpan(s, i, r.value)
  {
    if 0 < |keyword| && OccursCIAt(s, keyword, i) then DateTailAt(s, i + |keyword|) else None
  }

  /** The keyword alternatives of the date pattern, in the order they are tried. */
  const DateKeywords: seq<string> := ["week of", "week", "date:", "date"]

  /** The first of `keywords` that matches at `i` with a date after it. */
  function FirstKeywordDate(s: string, i: nat, keywords: seq<string>): (r: Option<(nat, nat)>)
    ensures r.Some? ==> DateSpan(s, i, r.value)
  {
    if keywords == [] then None
    else match KeywordDate(s, i, keywords[0])
      case Some(m) => Some(m)
      case None => FirstKeywordDate(s, i, keywords[1..])
  }

  /** `(?:week of|week|date:?)` at `i`, tried in that order, followed by the captured date. */
  function DateAt(s: string, i: nat): (r: Option<(nat, nat)>)
    ensures r.Some? ==> DateSpan(s, i, r.value)
  {
    FirstKeywordDate(s, i, DateKeywords)
  }

  /** The leftmost date match in `s` from `from` on. */
  function FindDate(s: string, from: nat): (r: Option<(nat, nat)>)
    ensures r.Some? ==> r.value.0 < r.value.1 <= |s| && IsLetter(s[r.value.0]) && IsDigit(s[r.value.1 - 1])
    decreases |s| - from
  {
    if from >= |s| then None
    else if DateAt(s, from).Some? then DateAt(s, from)
    else FindDate(s, from + 1)
  }

  /** `FindDate` answers with the match at the first position from `from` on where the pattern matches, and with nothing when there is none. */
  lemma FindDateLeftmost(s: string, from: nat)
    ensures FindDate(s, from).Some? ==> exists i :: from <= i && DateAt(s, i) == FindDate(s, from)
                                                  && forall j :: from <= j < i ==> DateAt(s, j).None?
    ensures FindDate(s, from).None? ==> forall i :: from <= i ==> DateAt(s, i).None?
  {
    if FindDate(s, from).Some? {
      var i := DateIndex(s, from);
      forall j | from <= j < i
        ensures DateAt(s, j).None?
      {
        BeforeDateIndex(s, from, j);
      }
    } else {
      forall i | from <= i
        ensures DateAt(s, i).None?
      {
        NoDateAt(s, from, i);
      }
    }
  }

  /** Where `FindDate` found its match. */
  function DateIndex(s: string, from: nat): (i: nat)
    requires FindDate(s, from).Some?
    ensures from <= i && DateAt(s, i) == FindDate(s, from)
    decreases |s| - from
  {
    if DateAt(s, from).Some? then from else DateIndex(s, from + 1)
  }

  /** No date matches between `from` and where `FindDate` found one. */
  lemma {:induction false} BeforeDateIndex(s: string, from: nat, j: nat)
    requires FindDate(s, from).Some? && from <= j < DateIndex(s, from)
    ensures DateAt(s, j).None?
    decreases j - from
  {
    if j > from {
      BeforeDateIndex(s, from + 1, j);
    }
  }

  /** When `FindDate` finds nothing, no date matches from `from` on. */
  lemma {:induction false} NoDateAt(s: string, from: nat, i: nat)
    requires FindDate(s, from).None? && from <= i
    ensures DateAt(s, i).None?
    decreases |s| - from
  {
    if from >= |s| {
      DateAtEnd(s, i);
    } else if i > from {
      NoDateAt(s, from + 1, i);
    }
  }

  /** No date starts at or past the end of the text. */
  lemma DateAtEnd(s: string, i: nat)
    requires |s| <= i
    ensures DateAt(s, i).None?
  {
  }

  /** `text.match(patterns.date)[1]`: the captured date, which starts with a letter and ends with a digit. */
  function DateCapture(s: string): (r: Option<string>)
    ensures r.Some? ==> |r.value| >= 2 && IsLetter(r.value[0]) && IsDigit(r.value[|r.value| - 1])
  {
    match FindDate(s, 0)
    case None => None
    case Some((b, e)) => Some(s[b..e])
  }

  // ------------------------------------------------------------ confidence

  datatype ContentKind = DateContent | DayContentKind | EventContent | OtherContent

  /** `calculateConfidence`: high when the text has the kind's pattern, low otherwise. */
  function CalculateConfidence(text: string, kind: ContentKind): (r: real)
    ensures 0.5 <= r <= 0.9
    ensures kind == DateContent ==> (r == 0.9 <==> DateCapture(text).Some?)
    ensures kind == DayContentKind ==> (r == 0.9 <==> IsDayHeader(text))
    ensures kind == EventContent ==> (r == 0.8 <==> FindTime(text, 0).Some?)
  {
    match kind
    case DateContent => if DateCapture(text).Some? then 0.9 else 0.5
    case DayContentKind => if IsDayHeader(text) then 0.9 else 0.5
    case EventContent => if FindTime(text, 0).Some? then 0.8 else 0.6
    case OtherContent => 0.5
  }

  // ------------------------------------------------------------ mapping blocks

  datatype TextBlock = TextBlock(text: string, bounding: Box)

  datatype DateHeader = DateHeader(date: string, confidence: real)

  datatype DayHeading = DayHeading(text: string, confidence: real)

  datatype Event = Event(time: string, text: string, hour: Option<nat>, confidence: real)

  datatype DayContent = DayContent(dayHeader: Option<DayHeading>, events: seq<Event>)

  /** `mappedContent`: the header and one entry per day of the week. */
  datatype Mapped = Mapped(header: Option<DateHeader>, days: seq<DayContent>)

  const NoDay: DayContent := DayContent(None, [])

  const NoDays: seq<DayContent> := [NoDay, NoDay, NoDay, NoDay, NoDay, NoDay, NoDay]

  /** The event a day-column block yields, if it contains a time. */
  function EventOf(a: Anchors, b: TextBlock): (r: Option<Event>)
    ensures r.Some? <==> FindTime(b.text, 0).Some?
    ensures r.Some? ==> r.value.confidence == 0.8 && r.value.time != []
  {
    match FindTime(b.text, 0)
    case None => None
    case Some(t) =>
      var time := b.text[t.start..t.end];
      Some(Event(time, Trim(ReplaceFirst(b.text, time, "")), GetHourFromBounds(a, b.bounding),
                 CalculateConfidence(b.text, EventContent)))
  }

  /** One step of the `forEach` in `mapTextToRegions`. */
  function MapBlock(a: Anchors, m: Mapped, b: TextBlock): (r: Mapped)
    requires |m.days| == 7
    ensures |r.days| == 7
  {
    match FindMatchingRegion(a, b.bounding)
    case None => m
    case Some(HeaderHit) =>
      if DateCapture(b.text).Some? then
        m.(header := Some(DateHeader(DateCapture(b.text).value, CalculateConfidence(b.text, DateContent))))
      else m
    case Some(DayHit(i)) =>
      if IsDayHeader(b.text) then
        m.(days := m.days[i := m.days[i].(dayHeader := Some(DayHeading(Trim(b.text), CalculateConfidence(b.text, DayContentKind))))])
      else
        match EventOf(a, b)
        case Some(e) => m.(days := m.days[i := m.days[i].(events := m.days[i].events + [e])])
        case None => m
  }

  /** The mapping after the blocks, in order. */
  function MapBlocks(a: Anchors, blocks: seq<TextBlock>): (r: Mapped)
    ensures |r.days| == 7
  {
    if blocks == [] then Mapped(None, NoDays)
    else MapBlock(a, MapBlocks(a, blocks[..|blocks| - 1]), blocks[|blocks| - 1])
  }

  /** Every score the mapping records is the one for text that has the kind's pattern. */
  predicate ConfidentScores(m: Mapped)
  {
    (m.header.Some? ==> m.header.value.confidence == 0.9)
    && forall i :: 0 <= i < |m.days| ==>
         (m.days[i].dayHeader.Some? ==> m.days[i].dayHeader.value.confidence == 0.9)
         && forall e :: e in m.days[i].events ==> e.confidence == 0.8 && e.time != []
  }

  lemma {:induction false} MapBlocksConfident(a: Anchors, blocks: seq<TextBlock>)
    ensures ConfidentScores(MapBlocks(a, blocks))
    decreases |blocks|
  {
    if blocks != [] {
      MapBlocksConfident(a, blocks[..|blocks| - 1]);
      MapBlockConfident(a, MapBlocks(a, blocks[..|blocks| - 1]), blocks[|blocks| - 1]);
    }
  }

  lemma MapBlockConfident(a: Anchors, m: Mapped, b: TextBlock)
    requires |m.days| == 7 && ConfidentScores(m)
    ensures ConfidentScores(MapBlock(a, m, b))
  {
    var r := MapBlock(a, m, b);
    match FindMatchingRegion(a, b.bounding)
    case None => IgnoredBlock(a, m, b);
    case Some(HeaderHit) => HeaderBlock(a, m, b);
    case Some(DayHit(i)) =>
      if IsDayHeader(b.text) {
        DayHeaderBlock(a, m, b, i);
        DayConfident(m, r, i);
      } else if FindTime(b.text, 0).Some? {
        EventBlock(a, m, b, i);
        assert r.days[i].events == m.days[i].events + [EventOf(a, b).value];
        DayConfident(m, r, i);
      } else {
        PlainDayBlock(a, m, b, i);
      }
  }

  /** Changing one day, with a heading scored 0.9 and events scored 0.8 with a time, keeps the scores confident. */
  lemma DayConfident(m: Mapped, r: Mapped, i: nat)
    requires ConfidentScores(m) && i < |m.days| == |r.days| && r.header == m.header
    requires forall j :: 0 <= j < |m.days| && j != i ==> r.days[j] == m.days[j]
    requires r.days[i].dayHeader.Some? ==> r.days[i].dayHeader.value.confidence == 0.9
    requires forall e :: e in r.days[i].events ==> e.confidence == 0.8 && e.time != []
    ensures ConfidentScores(r)
  {
  }

  /** The blocks are mapped in order: one more block is one more step. */
  lemma MapBlocksStep(a: Anchors, blocks: seq<TextBlock>, b: TextBlock)
    ensures MapBlocks(a, blocks + [b]) == MapBlock(a, MapBlocks(a, blocks), b)
  {
    assert (blocks + [b])[..|blocks|] == blocks;
  }

  /** A block whose centre is in no region changes nothing. */
  lemma IgnoredBlock(a: Anchors, m: Mapped, b: TextBlock)
    requires |m.days| == 7 && FindMatchingRegion(a, b.bounding).None?
    ensures MapBlock(a, m, b) == m
  {
  }

  /** A day-header block sets that day's heading, scored 0.9, and touches nothing else. */
  lemma DayHeaderBlock(a: Anchors, m: Mapped, b: TextBlock, i: nat)
    requires |m.days| == 7
    requires FindMatchingRegion(a, b.bounding) == Some(DayHit(i)) && IsDayHeader(b.text)
    ensures var after := MapBlock(a, m, b);
            i < 7 && after.header == m.header
            && after.days[i] == m.days[i].(dayHeader := Some(DayHeading(Trim(b.text), 0.9)))
            && forall j :: 0 <= j < 7 && j != i ==> after.days[j] == m.days[j]
  {
    assert CalculateConfidence(b.text, DayContentKind) == 0.9;
  }

  /** Any other day-column block with a time appends one event to that day, the time removed from its text. */
  lemma EventBlock(a: Anchors, m: Mapped, b: TextBlock, i: nat)
    requires |m.days| == 7
    requires FindMatchingRegion(a, b.bounding) == Some(DayHit(i)) && !IsDayHeader(b.text)
    requires FindTime(b.text, 0).Some?
    ensures var after := MapBlock(a, m, b);
            var t := FindTime(b.text, 0).value;
            i < 7 && after.header == m.header
            && after.days[i].dayHeader == m.days[i].dayHeader
            && after.days[i].events == m.days[i].events
               + [Event(b.text[t.start..t.end], Trim(ReplaceFirst(b.text, b.text[t.start..t.end], "")),
                        GetHourFromBounds(a, b.bounding), 0.8)]
            && forall j :: 0 <= j < 7 && j != i ==> after.days[j] == m.days[j]
  {
  }

  /**
   * A header-centred block with a date sets the header to that date, scored 0.9, replacing
   * any earlier one; without a date it leaves the header as it was. The days are untouched.
   */
  lemma HeaderBlock(a: Anchors, m: Mapped, b: TextBlock)
    requires |m.days| == 7 && FindMatchingRegion(a, b.bounding) == Some(HeaderHit)
    ensures var after := MapBlock(a, m, b);
            after.days == m.days
            && (DateCapture(b.text).Some? ==> after.header == Some(DateHeader(DateCapture(b.text).value, 0.9)))
            && (DateCapture(b.text).None? ==> after.header == m.header)
  {
  }

  /** A day-column block that is neither a day heading nor holds a time changes nothing. */
  lemma PlainDayBlock(a: Anchors, m: Mapped, b: TextBlock, i: nat)
    requires |m.days| == 7
    requires FindMatchingRegion(a, b.bounding) == Some(DayHit(i)) && !IsDayHeader(b.text)
    requires FindTime(b.text, 0).None?
    ensures MapBlock(a, m, b) == m
  {
  }

  /** A block that sets the header: centred in the header band, with a date in it. */
  predicate HeaderDate(a: Anchors, b: TextBlock)
  {
    FindMatchingRegion(a, b.bounding) == Some(HeaderHit) && DateCapture(b.text).Some?
  }

  /** Filing one block changes the header exactly when the block sets it. */
  lemma BlockHeader(a: Anchors, m: Mapped, b: TextBlock)
    requires |m.days| == 7
    ensures MapBlock(a, m, b).header
            == if HeaderDate(a, b) then Some(DateHeader(DateCapture(b.text).value, 0.9)) else m.header
  {
  }

  /** The header after one more block: that block's date if it sets one, else the header before it. */
  lemma HeaderStep(a: Anchors, blocks: seq<TextBlock>)
    requires blocks != []
    ensures var b := blocks[|blocks| - 1];
            MapBlocks(a, blocks).header
            == if HeaderDate(a, b) then Some(DateHeader(DateCapture(b.text).value, 0.9))
               else MapBlocks(a, blocks[..|blocks| - 1]).header
  {
    BlockHeader(a, MapBlocks(a, blocks[..|blocks| - 1]), blocks[|blocks| - 1]);
  }

  /** Block `k` sets the header and no later block does. */
  predicate LastSetter(a: Anchors, blocks: seq<TextBlock>, k: int)
  {
    0 <= k < |blocks| && HeaderDate(a, blocks[k]) && forall j :: k < j < |blocks| ==> !HeaderDate(a, blocks[j])
  }

  /** The header the blocks leave: the date of the last block that sets one, scored 0.9. */
  function LastDate(a: Anchors, blocks: seq<TextBlock>): Option<DateHeader>
  {
    var k := LastWhere(blocks, b => HeaderDate(a, b));
    if k < 0 then None else Some(DateHeader(DateCapture(blocks[k].text).value, 0.9))
  }

  /** Filing the blocks leaves the header `LastDate` names. */
  lemma {:induction false} MapBlocksHeader(a: Anchors, blocks: seq<TextBlock>)
    ensures MapBlocks(a, blocks).header == LastDate(a, blocks)
    decreases |blocks|
  {
    if blocks != [] {
      var init := blocks[..|blocks| - 1];
      MapBlocksHeader(a, init);
      HeaderStep(a, blocks);
      var k := LastWhere(init, b => HeaderDate(a, b));
      if k >= 0 {
        assert init[k] == blocks[k];
      }
    }
  }

  /**
   * After filing, there is no header exactly when no block sets one; otherwise the header is
   * the date of the last block that sets one, scored 0.9: a later date overrides an earlier one.
   */
  lemma LastHeaderWins(a: Anchors, blocks: seq<TextBlock>)
    ensures MapBlocks(a, blocks).header.None? <==> forall k :: 0 <= k < |blocks| ==> !HeaderDate(a, blocks[k])
    ensures MapBlocks(a, blocks).header.Some? ==>
              exists k :: LastSetter(a, blocks, k)
                          && MapBlocks(a, blocks).header.value == DateHeader(DateCapture(blocks[k].text).value, 0.9)
  {
    MapBlocksHeader(a, blocks);
    var k := LastWhere(blocks, b => HeaderDate(a, b));
    if k >= 0 {
      assert LastSetter(a, blocks, k);
    }
  }

  // ------------------------------------------------------------ cleaning

  predicate KeepEvent(e: Event)
  {
    e.text != [] && e.time != []
  }

  function EventHour(e: Event): real
  {
    ParseHour(e.time) as real
  }

  /** A day with its empty events dropped and the rest sorted by hour. */
  function CleanDay(d: DayContent): (r: DayContent)
    ensures r.dayHeader == d.dayHeader
    ensures SortedBy(r.events, EventHour)
    ensures multiset(r.events) == multiset(Filter(d.events, KeepEvent))
    ensures forall e :: e in r.events ==> KeepEvent(e) && e in d.events
  {
    var kept := Filter(d.events, KeepEvent);
    var sorted := SortBy(kept, EventHour);
    SortBySorted(kept, EventHour);
    SortByPermutation(kept, EventHour);
    assert forall e :: e in sorted ==> e in kept by {
      forall e | e in sorted ensures e in kept {
        assert e in multiset(sorted);
      }
    }
    DayContent(d.dayHeader, sorted)
  }

  function EventScores(events: seq<Event>): (r: seq<real>)
    ensures |r| == |events|
  {
    if events == [] then [] else EventScores(events[..|events| - 1]) + [events[|events| - 1].confidence]
  }

  function DayScores(days: seq<DayContent>): seq<real>
  {
    if days == [] then []
    else
      var d := days[|days| - 1];
      DayScores(days[..|days| - 1]) + [if d.dayHeader.Some? then d.dayHeader.value.confidence else 0.0] + EventScores(d.events)
  }

  /** `confidenceScores`: the header's, then each day's heading and events, 0 for a missing heading. */
  function Scores(m: Mapped): seq<real>
  {
    [if m.header.Some? then m.header.value.confidence else 0.0] + DayScores(m.days)
  }

  function EventCount(days: seq<DayContent>): nat
  {
    if days == [] then 0 else EventCount(days[..|days| - 1]) + |days[|days| - 1].events|
  }

  /** The scores number one for the header, one per day and one per event. */
  lemma {:induction false} ScoresCount(days: seq<DayContent>)
    ensures |DayScores(days)| == |days| + EventCount(days)
    decreases |days|
  {
    if days != [] {
      ScoresCount(days[..|days| - 1]);
    }
  }

  predicate DayScoresWithin(days: seq<DayContent>)
  {
    forall i :: 0 <= i < |days| ==>
      (days[i].dayHeader.Some? ==> 0.0 <= days[i].dayHeader.value.confidence <= 1.0)
      && forall e :: e in days[i].events ==> 0.0 <= e.confidence <= 1.0
  }

  lemma {:induction false} EventScoresWithin(events: seq<Event>)
    requires forall e :: e in events ==> 0.0 <= e.confidence <= 1.0
    ensures AllWithin(EventScores(events), 0.0, 1.0)
    decreases |events|
  {
    if events != [] {
      EventScoresWithin(events[..|events| - 1]);
    }
  }

  lemma {:induction false} DayScoresAllWithin(days: seq<DayContent>)
    requires DayScoresWithin(days)
    ensures AllWithin(DayScores(days), 0.0, 1.0)
    decreases |days|
  {
    if days != [] {
      var d := days[|days| - 1];
      DayScoresAllWithin(days[..|days| - 1]);
      EventScoresWithin(d.events);
    }
  }

  /** `validateAndCleanMapping`, without the processing timestamp. */
  datatype Cleaned = Cleaned(header: Option<DateHeader>, days: seq<DayContent>, confidence: real)

  function ValidateAndClean(m: Mapped): (r: Cleaned)
    ensures r.header == m.header && |r.days| == |m.days|
    ensures forall i :: 0 <= i < |m.days| ==> r.days[i] == CleanDay(m.days[i])
    ensures |Scores(Mapped(r.header, r.days))| >= 1 + |m.days|
  {
    var days := seq(|m.days|, i requires 0 <= i < |m.days| => CleanDay(m.days[i]));
    ScoresCount(days);
    Cleaned(m.header, days, Mean(Scores(Mapped(m.header, days))))
  }

  /** The overall confidence is a mean of scores in [0, 1], so it lies in [0, 1]. */
  lemma CleanConfidenceWithin(m: Mapped)
    requires m.header.Some? ==> 0.0 <= m.header.value.confidence <= 1.0
    requires DayScoresWithin(m.days)
    ensures 0.0 <= ValidateAndClean(m).confidence <= 1.0
  {
    var r := ValidateAndClean(m);
    assert DayScoresWithin(r.days) by {
      forall i | 0 <= i < |r.days|
        ensures forall e :: e in r.days[i].events ==> 0.0 <= e.confidence <= 1.0
      {
        assert r.days[i] == CleanDay(m.days[i]);
      }
    }
    DayScoresAllWithin(r.days);
    var xs := Scores(Mapped(r.header, r.days));
    assert AllWithin(xs, 0.0, 1.0);
    MeanBounds(xs, 0.0, 1.0);
  }

  /** The mapping after `k + 1` blocks files block `k` into the mapping after `k`. */
  lemma MapBlocksSnoc(a: Anchors, blocks: seq<TextBlock>, k: nat, prior: Mapped)
    requires k < |blocks| && prior == MapBlocks(a, blocks[..k])
    ensures MapBlocks(a, blocks[..k + 1]) == MapBlock(a, prior, blocks[k])
  {
    assert blocks[..k + 1][..k] == blocks[..k];
  }

  /** One iteration of the loop in `mapTextToRegions`: the block goes to the region its centre lies in. */
  method FileBlock(a: Anchors, header: Option<DateHeader>, days: seq<DayContent>, b: TextBlock)
    returns (header': Option<DateHeader>, days': seq<DayContent>)
    requires |days| == 7
    ensures Mapped(header', days') == MapBlock(a, Mapped(header, days), b)
  {
    header', days' := header, days;
    var region := FindMatchingRegion(a, b.bounding);
    if region == Some(HeaderHit) {
      var date := DateCapture(b.text);
      if date.Some? {
        header' := Some(DateHeader(date.value, CalculateConfidence(b.text, DateContent)));
      }
    } else if region.Some? {
      var i := region.value.dayIndex;
      if IsDayHeader(b.text) {
        days' := days[i := days[i].(dayHeader := Some(DayHeading(Trim(b.text), CalculateConfidence(b.text, DayContentKind))))];
      } else {
        var event := EventOf(a, b);
        if event.Some? {
          days' := days[i := days[i].(events := days[i].events + [event.value])];
        }
      }
    }
  }

  /**
   * `mapTextToRegions`: files every block in turn, then cleans the mapping. The result
   * has seven days, each day's events sorted by hour, and a confidence in [0, 1].
   */
  method MapTextToRegions(a: Anchors, blocks: seq<TextBlock>) returns (r: Cleaned)
    ensures r == ValidateAndClean(MapBlocks(a, blocks))
    ensures |r.days| == 7
    ensures forall i :: 0 <= i < 7 ==> SortedBy(r.days[i].events, EventHour)
    ensures 0.0 <= r.confidence <= 1.0
  {
    var header: Option<DateHeader> := None;
    var days := NoDays;
    var k := 0;
    while k < |blocks|
      invariant 0 <= k <= |blocks|
      invariant Mapped(header, days) == MapBlocks(a, blocks[..k])
    {
      MapBlocksSnoc(a, blocks, k, Mapped(header, days));
      header, days := FileBlock(a, header, days, blocks[k]);
      k := k + 1;
    }
    assert blocks[..|blocks|] == blocks;
    var m := Mapped(header, days);
    MapBlocksConfident(a, blocks);
    CleanConfidenceWithin(m);
    r := ValidateAndClean(m);
  }
}
