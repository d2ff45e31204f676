/**
 * The template code printed at the bottom of every planner page: eleven digits
 * giving the template, the page side and the first date on the page. The decoder
 * looks for it in text the page's OCR already produced.
 */
module QRDecoder {
  import opened Wrappers
  import opened Text
  import opened Sorting
  import opened Dates

  datatype Template = Template(name: string, leftPageDays: nat, rightPageDays: nat, sections: seq<string>)

  /** The known templates by two-digit code; there is one. */
  const TemplateFormats: map<string, Template> :=
    map["01" := Template("Standard Weekly", 4, 3, ["calendar", "todos"])]

  datatype QRData = QRData(
    templateCode: string, template: Template, pageType: nat, isLeftPage: bool, isRightPage: bool,
    startDate: int, year: nat, month: nat, day: nat, daysOnPage: nat, sections: seq<string>, raw: string)

  /** What `parseQRData` throws. */
  datatype ParseError = WrongLength(count: nat) | UnknownTemplate(code: string) | InvalidPageType(pageType: nat)

  // ------------------------------------------------------------ format and parse

  /** `text.replace(/\D/g, '')`. */
  function DigitsOf(s: string): (r: string)
    ensures AllDigits(r) && |r| <= |s|
  {
    Filter(s, IsDigit)
  }

  /** `isValidQRFormat`: exactly eleven digits, the first two a known template code. */
  predicate IsValidQRFormat(text: string)
  {
    |DigitsOf(text)| == 11 && DigitsOf(text)[..2] in TemplateFormats
  }

  /** `parseQRData`: the fixed digit positions, or the error it throws. */
  function ParseQRData(qr: string): (r: Result<QRData, ParseError>)
    ensures r.Failure? ==> (r.error.WrongLength? <==> |DigitsOf(qr)| != 11)
    ensures r.Success? ==> IsValidQRFormat(qr) && r.value.raw == DigitsOf(qr)
                           && r.value.templateCode == r.value.raw[..2]
                           && r.value.template == TemplateFormats[r.value.templateCode]
    ensures r.Success? ==> (r.value.pageType == 0 || r.value.pageType == 1)
                           && r.value.isLeftPage == (r.value.pageType == 0)
                           && r.value.isRightPage == !r.value.isLeftPage
    ensures r.Success? ==> r.value.daysOnPage == (if r.value.isLeftPage then r.value.template.leftPageDays
                                                  else r.value.template.rightPageDays)
                           && r.value.sections == r.value.template.sections
    ensures r.Success? ==> r.value.startDate == JsDate(r.value.year, r.value.month - 1, r.value.day)
                           && r.value.year < 10000 && r.value.month < 100 && r.value.day < 100
    ensures r.Success? ==> |r.value.raw| == 11
                           && r.value.pageType == ParseDigits(r.value.raw[2..3])
                           && r.value.year == ParseDigits(r.value.raw[3..7])
                           && r.value.month == ParseDigits(r.value.raw[7..9])
                           && r.value.day == ParseDigits(r.value.raw[9..11])
  {
    var c := DigitsOf(qr);
    if |c| != 11 then Failure(WrongLength(|c|))
    else
      DigitSlices(c);
      var code := c[..2];
      var pageType := ParseDigits(c[2..3]);
      if code !in TemplateFormats then Failure(UnknownTemplate(code))
      else if pageType != 0 && pageType != 1 then Failure(InvalidPageType(pageType))
      else Success(Decoded(c))
  }

  /** The fixed fields of an eleven-digit code are digits. */
  lemma DigitSlices(c: string)
    requires |c| == 11 && AllDigits(c)
    ensures AllDigits(c[2..3]) && AllDigits(c[3..7]) && AllDigits(c[7..9]) && AllDigits(c[9..11])
  {
  }

  /** The fields of an eleven-digit code with a known template and page type 0 or 1. */
  function Decoded(c: string): (d: QRData)
    requires |c| == 11 && AllDigits(c) && c[..2] in TemplateFormats
    requires ParseDigits(c[2..3]) == 0 || ParseDigits(c[2..3]) == 1
    ensures d.raw == c && d.templateCode == c[..2] && d.template == TemplateFormats[c[..2]]
    ensures d.pageType == ParseDigits(c[2..3]) && d.year == ParseDigits(c[3..7])
            && d.month == ParseDigits(c[7..9]) && d.day == ParseDigits(c[9..11])
    ensures d.isLeftPage == (d.pageType == 0) && d.isRightPage == !d.isLeftPage
    ensures d.daysOnPage == (if d.isLeftPage then d.template.leftPageDays else d.template.rightPageDays)
            && d.sections == d.template.sections
    ensures d.startDate == JsDate(d.year, d.month - 1, d.day)
            && d.year < 10000 && d.month < 100 && d.day < 100
  {
    var code := c[..2];
    var pageType := ParseDigits(c[2..3]);
    var year := ParseDigits(c[3..7]);
    var month := ParseDigits(c[7..9]);
    var day := ParseDigits(c[9..11]);
    ParseDigitsBound(c[7..9]);
    ParseDigitsBound(c[9..11]);
    ParseDigitsBound4(c[3..7]);
    var template := TemplateFormats[code];
    var isLeft := pageType == 0;
    QRData(code, template, pageType, isLeft, !isLeft, JsDate(year, month - 1, day),
           year, month, day, if isLeft then template.leftPageDays else template.rightPageDays,
           template.sections, c)
  }

  lemma ParseDigitsBound4(s: string)
    requires AllDigits(s) && |s| == 4
    ensures ParseDigits(s) < 10000
  {
    ParseDigitsBound(s[..2]);
    assert s[..3][..2] == s[..2];
    assert s[..4] == s;
  }

  /** A page code that parses is a valid one, and a valid one fails only on its page-type digit. */
  lemma ValidFormatParses(qr: string)
    ensures ParseQRData(qr).Success? ==> IsValidQRFormat(qr)
    ensures IsValidQRFormat(qr) ==> ParseQRData(qr).Success? || ParseQRData(qr).error.InvalidPageType?
  {
  }

  /** `n` written with exactly `width` digits, leading zeros included. */
  function Fixed(n: nat, width: nat): (r: string)
    ensures |r| == width && AllDigits(r)
  {
    if width == 0 then [] else Fixed(n / 10, width - 1) + [DigitChar(n % 10)]
  }

  function Pow10(k: nat): (r: nat)
    ensures r >= 1
  {
    if k == 0 then 1 else 10 * Pow10(k - 1)
  }

  lemma {:induction false} ParseFixed(n: nat, width: nat)
    requires n < Pow10(width)
    ensures ParseDigits(Fixed(n, width)) == n
  {
    if width > 0 {
      var s := Fixed(n, width);
      assert s[..|s| - 1] == Fixed(n / 10, width - 1);
      ParseFixed(n / 10, width - 1);
    }
  }

  /** The eleven digits a page carries: template, side, year, month and day. */
  function Encode(code: string, pageType: nat, year: nat, month: nat, day: nat): (r: string)
    requires |code| == 2 && AllDigits(code)
    ensures |r| == 11 && AllDigits(r)
  {
    code + Fixed(pageType, 1) + Fixed(year, 4) + Fixed(month, 2) + Fixed(day, 2)
  }

  /** Decoding a printed code gives back what was printed. */
  lemma {:induction false} ParseEncode(pageType: nat, year: nat, month: nat, day: nat)
    requires pageType <= 1 && year < 10000 && month < 100 && day < 100
    ensures ParseQRData(Encode("01", pageType, year, month, day)).Success?
    ensures var d := ParseQRData(Encode("01", pageType, year, month, day)).value;
            d.templateCode == "01" && d.pageType == pageType && d.year == year && d.month == month
            && d.day == day && d.startDate == JsDate(year, month - 1, day)
            && d.raw == Encode("01", pageType, year, month, day)
  {
    EncodeFields("01", pageType, year, month, day);
    assert "01" in TemplateFormats;
  }

  /** Each field of a printed code sits at its fixed position and reads back as printed. */
  lemma EncodeFields(code: string, pageType: nat, year: nat, month: nat, day: nat)
    requires |code| == 2 && AllDigits(code)
    requires pageType <= 1 && year < 10000 && month < 100 && day < 100
    ensures var s := Encode(code, pageType, year, month, day);
            DigitsOf(s) == s && s[..2] == code && ParseDigits(s[2..3]) == pageType && ParseDigits(s[3..7]) == year
            && ParseDigits(s[7..9]) == month && ParseDigits(s[9..11]) == day
  {
    var s := Encode(code, pageType, year, month, day);
    FilterAll(s, IsDigit);
    assert s[..2] == code;
    assert s[2..3] == Fixed(pageType, 1);
    assert s[3..7] == Fixed(year, 4);
    assert s[7..9] == Fixed(month, 2);
    assert s[9..11] == Fixed(day, 2);
    ParseFixed(pageType, 1);
    ParseFixed(year, 4);
    ParseFixed(month, 2);
    ParseFixed(day, 2);
  }

  /** For a real calendar date the decoded start is that date's day number. */
  lemma PrintedDateIsCalendarDate(pageType: nat, year: nat, month: nat, day: nat)
    requires pageType <= 1 && 100 <= year < 10000 && 1 <= month <= 12 && day < 100
    ensures ParseQRData(Encode("01", pageType, year, month, day)).Success?
    ensures ParseQRData(Encode("01", pageType, year, month, day)).value.startDate == DaysFromCivil(year, month, day)
  {
    ParseEncode(pageType, year, month, day);
    JsDateInRange(year, month, day);
  }

  /** A left page of the standard template shows four days, a right page three. */
  lemma DaysOnPage(qr: string)
    requires ParseQRData(qr).Success?
    ensures ParseQRData(qr).value.isLeftPage ==> ParseQRData(qr).value.daysOnPage == 4
    ensures ParseQRData(qr).value.isRightPage ==> ParseQRData(qr).value.daysOnPage == 3
    ensures ParseQRData(qr).value.sections == ["calendar", "todos"]
  {
    var d := ParseQRData(qr).value;
    assert d.templateCode in TemplateFormats;
    assert d.templateCode == "01";
  }

  // ------------------------------------------------------------ searching the OCR text

  /** Eleven digits in a row at position `i`. */
  predicate Run11At(s: string, i: nat)
  {
    i + 11 <= |s| && AllDigits(s[i..i + 11])
  }

  /** The first match of `/\d{11}/`. */
  function FindRun11(s: string, from: nat): (r: Option<nat>)
    ensures r.Some? ==> from <= r.value && Run11At(s, r.value)
                        && forall i :: from <= i < r.value ==> !Run11At(s, i)
    ensures r.None? ==> forall i :: from <= i ==> !Run11At(s, i)
    decreases |s| - from
  {
    if from + 11 > |s| then None
    else if Run11At(s, from) then Some(from)
    else FindRun11(s, from + 1)
  }

  function FirstRun11(s: string): (r: Option<string>)
    ensures r.Some? ==> |r.value| == 11 && AllDigits(r.value)
  {
    match FindRun11(s, 0)
    case None => None
    case Some(i) => Some(s[i..i + 11])
  }

  /** One candidate text: whole if valid, otherwise its first run of eleven digits if that is valid. */
  function TryCandidate(text: string): (r: Option<string>)
    ensures r.Some? ==> IsValidQRFormat(r.value)
  {
    if IsValidQRFormat(text) then Some(text)
    else
      match FirstRun11(text)
      case Some(run) => if IsValidQRFormat(run) then Some(run) else None
      case None => None
  }

  /** A line's edges, in image pixels. */
  datatype Bounds = Bounds(top: real, bottom: real, left: real, right: real)

  /** A box scaled to the page: 0..1 on both axes when it lies inside the text's extent. */
  datatype NormBox = NormBox(top: real, bottom: real, left: real, right: real)

  /** A recognised line; either part may be missing. */
  datatype QRBlock = QRBlock(text: Option<string>, bounding: Option<Bounds>)

  /** `Math.max(...xs)` for a non-empty list. */
  function Largest(xs: seq<real>): (r: real)
    requires xs != []
    ensures (exists i :: 0 <= i < |xs| && xs[i] == r) && forall i :: 0 <= i < |xs| ==> xs[i] <= r
    decreases |xs|
  {
    if |xs| == 1 then xs[0]
    else
      var m := Largest(xs[..|xs| - 1]);
      var last := xs[|xs| - 1];
      assert forall i :: 0 <= i < |xs| - 1 ==> xs[i] == xs[..|xs| - 1][i];
      if last > m then last else m
  }

  /** The page's extent: the largest right and bottom edges, a missing box counting as 0. */
  datatype Extent = Extent(maxRight: real, maxBottom: real)

  /** `bounding?.right || 0` and `bounding?.bottom || 0`. */
  function RightOf(b: QRBlock): real { if b.bounding.Some? then b.bounding.value.right else 0.0 }

  function BottomOf(b: QRBlock): real { if b.bounding.Some? then b.bounding.value.bottom else 0.0 }

  function ExtentOf(blocks: seq<QRBlock>): (r: Extent)
    requires blocks != []
    ensures exists i :: 0 <= i < |blocks| && RightOf(blocks[i]) == r.maxRight
    ensures exists i :: 0 <= i < |blocks| && BottomOf(blocks[i]) == r.maxBottom
    ensures forall i :: 0 <= i < |blocks| ==> RightOf(blocks[i]) <= r.maxRight && BottomOf(blocks[i]) <= r.maxBottom
  {
    var rights := seq(|blocks|, i requires 0 <= i < |blocks| => RightOf(blocks[i]));
    var bottoms := seq(|blocks|, i requires 0 <= i < |blocks| => BottomOf(blocks[i]));
    var r := Extent(Largest(rights), Largest(bottoms));
    forall i | 0 <= i < |blocks| ensures RightOf(blocks[i]) <= r.maxRight && BottomOf(blocks[i]) <= r.maxBottom {
      assert rights[i] == RightOf(blocks[i]) && bottoms[i] == BottomOf(blocks[i]);
    }
    r
  }

  /**
   * `normalizeBoundingBox`: each edge divided by the page's extent. With a zero extent
   * JavaScript divides by zero; for non-negative pixels that gives NaN on the
   * bottom or right edge, which fails the area test, so the box is absent here.
   */
  function NormalizeBoundingBox(b: Bounds, e: Extent): (r: Option<NormBox>)
    ensures r.Some? <==> e.maxRight != 0.0 && e.maxBottom != 0.0
    ensures r.Some? ==> r.value.top * e.maxBottom == b.top && r.value.bottom * e.maxBottom == b.bottom
                        && r.value.left * e.maxRight == b.left && r.value.right * e.maxRight == b.right
  {
    if e.maxRight == 0.0 || e.maxBottom == 0.0 then None
    else Some(NormBox(b.top / e.maxBottom, b.bottom / e.maxBottom, b.left / e.maxRight, b.right / e.maxRight))
  }

  /** A box inside the page's extent lands in the unit square. */
  lemma NormalizedInUnitSquare(b: Bounds, e: Extent)
    requires e.maxRight > 0.0 && e.maxBottom > 0.0
    requires 0.0 <= b.top <= b.bottom <= e.maxBottom && 0.0 <= b.left <= b.right <= e.maxRight
    ensures var n := NormalizeBoundingBox(b, e).value;
            0.0 <= n.top <= n.bottom <= 1.0 && 0.0 <= n.left <= n.right <= 1.0
  {
    Scaled(b.top, b.bottom, e.maxBottom);
    Scaled(b.left, b.right, e.maxRight);
  }

  lemma Scaled(x: real, y: real, d: real)
    requires 0.0 <= x <= y <= d && d > 0.0
    ensures 0.0 <= x / d <= y / d <= 1.0
  {
    DivMonotone(0.0, x, d);
    DivMonotone(x, y, d);
    DivMonotone(y, d, d);
  }

  lemma DivMonotone(x: real, y: real, d: real)
    requires x <= y && d > 0.0
    ensures x / d <= y / d
  {
    var qx, qy := x / d, y / d;
    assert qx * d == x && qy * d == y;
    assert (qy - qx) * d == y - x;
  }

  const ExpectedBottom: real := 0.92
  const ExpectedLeft: real := 0.4375
  const ExpectedRight: real := 0.5625
  const Tolerance: real := 0.1

  /**
   * The expected top edge: the bottom less one eighth of the width, scaled by the
   * 8.5 : 11 page ratio. A zero screen width makes it NaN, which no box passes.
   */
  function ExpectedTop(screenWidth: real): (r: Option<real>)
    ensures screenWidth == 0.0 <==> r.None?
  {
    if screenWidth == 0.0 then None
    else Some(ExpectedBottom - ((screenWidth / 8.0) / screenWidth) * (8.5 / 11.0))
  }

  /** `isInQRArea`: inside the expected rectangle widened by the tolerance on every side. */
  predicate IsInQRArea(b: NormBox, top: real, bottom: real, left: real, right: real)
  {
    b.top >= top - Tolerance && b.bottom <= bottom + Tolerance
    && b.left >= left - Tolerance && b.right <= right + Tolerance
  }

  /** The tolerance only widens the area: a box inside the expected rectangle always qualifies. */
  lemma InsideExpectedIsInArea(b: NormBox, top: real, bottom: real, left: real, right: real)
    requires top <= b.top && b.bottom <= bottom && left <= b.left && b.right <= right
    ensures IsInQRArea(b, top, bottom, left, right)
  {
  }

  /** The expected top does not depend on the screen width, as long as there is one. */
  lemma ExpectedTopIsFixed(screenWidth: real)
    requires screenWidth != 0.0
    ensures ExpectedTop(screenWidth) == Some(0.92 - 8.5 / 88.0)
  {
    assert (screenWidth / 8.0) / screenWidth == 1.0 / 8.0;
  }

  /** A line that takes part in the search: it has both text and a box. */
  predicate Usable(b: QRBlock)
  {
    b.bounding.Some? && b.text.Some? && b.text.value != []
  }

  predicate InArea(b: QRBlock, e: Extent, screenWidth: real)
  {
    Usable(b) && ExpectedTop(screenWidth).Some? && NormalizeBoundingBox(b.bounding.value, e).Some?
    && IsInQRArea(NormalizeBoundingBox(b.bounding.value, e).value, ExpectedTop(screenWidth).value,
                  ExpectedBottom, ExpectedLeft, ExpectedRight)
  }

  /** The texts of the lines in the QR area, in recognition order. */
  function Candidates(blocks: seq<QRBlock>, e: Extent, screenWidth: real): (r: seq<string>)
    ensures |r| <= |blocks|
    ensures forall i :: 0 <= i < |r| ==> r[i] != []
    decreases |blocks|
  {
    if blocks == [] then []
    else
      var prior := Candidates(blocks[..|blocks| - 1], e, screenWidth);
      var b := blocks[|blocks| - 1];
      if InArea(b, e, screenWidth) then prior + [b.text.value] else prior
  }

  /** The first candidate that yields a code, and what it yields. */
  function FirstAccepted(cands: seq<string>): (r: Option<string>)
    ensures r.Some? ==> IsValidQRFormat(r.value)
    ensures r.Some? ==> exists k :: 0 <= k < |cands| && TryCandidate(cands[k]) == r
                          && forall j :: 0 <= j < k ==> TryCandidate(cands[j]).None?
    ensures r.None? ==> forall k :: 0 <= k < |cands| ==> TryCandidate(cands[k]).None?
    decreases |cands|
  {
    if cands == [] then None
    else if TryCandidate(cands[0]).Some? then TryCandidate(cands[0])
    else
      var r := FirstAccepted(cands[1..]);
      FirstAcceptedTail(cands, r);
      r
  }

  lemma FirstAcceptedTail(cands: seq<string>, r: Option<string>)
    requires cands != [] && TryCandidate(cands[0]).None?
    requires r.Some? ==> exists k :: 0 <= k < |cands[1..]| && TryCandidate(cands[1..][k]) == r
                           && forall j :: 0 <= j < k ==> TryCandidate(cands[1..][j]).None?
    requires r.None? ==> forall k :: 0 <= k < |cands[1..]| ==> TryCandidate(cands[1..][k]).None?
    ensures r.Some? ==> exists k :: 0 <= k < |cands| && TryCandidate(cands[k]) == r
                          && forall j :: 0 <= j < k ==> TryCandidate(cands[j]).None?
    ensures r.None? ==> forall k :: 0 <= k < |cands| ==> TryCandidate(cands[k]).None?
  {
    assert forall k :: 1 <= k < |cands| ==> cands[k] == cands[1..][k - 1];
    if r.Some? {
      var k :| 0 <= k < |cands[1..]| && TryCandidate(cands[1..][k]) == r
               && forall j :: 0 <= j < k ==> TryCandidate(cands[1..][j]).None?;
      assert TryCandidate(cands[k + 1]) == r;
    }
  }

  /** `blocks.map(b => b.text).join('')`: a missing text joins as nothing. */
  function JoinTexts(blocks: seq<QRBlock>): string
    decreases |blocks|
  {
    if blocks == [] then []
    else JoinTexts(blocks[..|blocks| - 1]) + blocks[|blocks| - 1].text.GetOr([])
  }

  /** The fallback: the first eleven-digit run of all the text, with white space removed. */
  function Fallback(blocks: seq<QRBlock>): (r: Option<string>)
    ensures r.Some? ==> IsValidQRFormat(r.value) && |r.value| == 11
  {
    match FirstRun11(Filter(JoinTexts(blocks), (c: char) => !IsSpace(c)))
    case Some(run) => if IsValidQRFormat(run) then Some(run) else None
    case None => None
  }

  /** A parse failure is thrown and caught: the search ends with nothing. */
  function ParseOrNothing(qr: string): (r: Option<QRData>)
    ensures r.Some? <==> ParseQRData(qr).Success?
    ensures r.Some? ==> r.value == ParseQRData(qr).value
  {
    match ParseQRData(qr)
    case Success(d) => Some(d)
    case Failure(_) => None
  }

  /**
   * `extractQRFromOCRResults`: nothing without blocks; else the first QR-area candidate
   * that yields a code decides (a decoding error gives nothing, with no fallback); else
   * the fallback over all the text.
   */
  function Extract(blocks: Option<seq<QRBlock>>, screenWidth: real): (r: Option<QRData>)
    ensures blocks.None? ==> r.None?
    ensures r.Some? ==> IsValidQRFormat(r.value.raw) && (r.value.pageType == 0 || r.value.pageType == 1)
  {
    match blocks
    case None => None
    case Some(bs) =>
      var r := if bs == [] then None else match FirstAccepted(Candidates(bs, ExtentOf(bs), screenWidth))
        case Some(qr) => ParseOrNothing(qr)
        case None => match Fallback(bs) { case Some(qr) => ParseOrNothing(qr) case None => None };
      if r.Some? then
        RawIsValid(r.value.raw);
        r
      else r
  }

  /** A decoded code's own digits are a valid code again. */
  lemma RawIsValid(raw: string)
    requires AllDigits(raw)
    ensures DigitsOf(raw) == raw
  {
    FilterAll(raw, IsDigit);
  }

  /** The QR area is searched before the fallback: an accepted candidate always wins. */
  lemma CandidatesFirst(bs: seq<QRBlock>, screenWidth: real)
    requires bs != [] && FirstAccepted(Candidates(bs, ExtentOf(bs), screenWidth)).Some?
    ensures Extract(Some(bs), screenWidth) == ParseOrNothing(FirstAccepted(Candidates(bs, ExtentOf(bs), screenWidth)).value)
  {
  }

  /** A zero screen width rules out every candidate; only the fallback can find a code. */
  lemma ZeroWidthUsesFallback(bs: seq<QRBlock>)
    requires bs != []
    ensures Candidates(bs, ExtentOf(bs), 0.0) == []
    ensures Extract(Some(bs), 0.0) == match Fallback(bs) { case Some(qr) => ParseOrNothing(qr) case None => None }
  {
    ZeroWidthNoCandidates(bs, ExtentOf(bs));
  }

  lemma {:induction false} ZeroWidthNoCandidates(bs: seq<QRBlock>, e: Extent)
    ensures Candidates(bs, e, 0.0) == []
    decreases |bs|
  {
    if bs != [] {
      ZeroWidthNoCandidates(bs[..|bs| - 1], e);
    }
  }

  datatype ProcessedQR = ProcessedQR(data: QRData, processingTimestamp: string, source: string)

  /** `processQRFromOCRResults`: the extracted code stamped with its source; the clock reading is a parameter. */
  function ProcessQR(blocks: Option<seq<QRBlock>>, screenWidth: real, now: string): (r: Option<ProcessedQR>)
    ensures r.Some? <==> Extract(blocks, screenWidth).Some?
    ensures r.Some? ==> r.value.data == Extract(blocks, screenWidth).value
                        && r.value.source == "main_ocr" && r.value.processingTimestamp == now
  {
    match Extract(blocks, screenWidth)
    case Some(d) => Some(ProcessedQR(d, now, "main_ocr"))
    case None => None
  }

  // ------------------------------------------------------------ the page's dates

  /** The loop collecting the area's candidate texts. */
  method CollectCandidates(blocks: seq<QRBlock>, screenWidth: real) returns (cands: seq<string>)
    requires blocks != []
    ensures cands == Candidates(blocks, ExtentOf(blocks), screenWidth)
  {
    cands := [];
    var extent := ExtentOf(blocks);
    var top := ExpectedTop(screenWidth);
    var k := 0;
    while k < |blocks|
      invariant 0 <= k <= |blocks|
      invariant cands == Candidates(blocks[..k], extent, screenWidth)
    {
      var b := blocks[k];
      assert blocks[..k + 1][..k] == blocks[..k];
      if b.bounding.Some? && b.text.Some? && b.text.value != [] {
        var box := NormalizeBoundingBox(b.bounding.value, extent);
        if top.Some? && box.Some? && IsInQRArea(box.value, top.value, ExpectedBottom, ExpectedLeft, ExpectedRight) {
          cands := cands + [b.text.value];
        }
      }
      k := k + 1;
    }
    assert blocks[..|blocks|] == blocks;
  }

  /** `extractQRFromOCRResults` as the loops it is written with. */
  method ExtractQRFromOCRResults(blocks: Option<seq<QRBlock>>, screenWidth: real) returns (r: Option<QRData>)
    ensures r == Extract(blocks, screenWidth)
  {
    if blocks.None? || blocks.value == [] {
      return None;
    }
    var cands := CollectCandidates(blocks.value, screenWidth);
    var k := 0;
    while k < |cands|
      invariant 0 <= k <= |cands|
      invariant FirstAccepted(cands) == FirstAccepted(cands[k..])
    {
      assert cands[k..][1..] == cands[k + 1..];
      if IsValidQRFormat(cands[k]) {
        return ParseOrNothing(cands[k]);
      }
      var run := FirstRun11(cands[k]);
      if run.Some? && IsValidQRFormat(run.value) {
        return ParseOrNothing(run.value);
      }
      k := k + 1;
    }
    assert cands[|cands|..] == [];
    var fallback := Fallback(blocks.value);
    if fallback.Some? {
      r := ParseOrNothing(fallback.value);
    } else {
      r := None;
    }
  }

  /** `getPageDateRange`: `daysOnPage` consecutive days from the start date. */
  method PageDateRange(data: QRData) returns (dates: seq<int>)
    ensures |dates| == data.daysOnPage
    ensures forall i :: 0 <= i < |dates| ==> dates[i] == data.startDate + i
  {
    dates := [];
    var i := 0;
    while i < data.daysOnPage
      invariant 0 <= i <= data.daysOnPage
      invariant |dates| == i && forall j :: 0 <= j < i ==> dates[j] == data.startDate + j
    {
      dates := dates + [data.startDate + i];
      i := i + 1;
    }
  }

  datatype DayName = DayName(date: int, dayName: string, shortName: string)

  function NameOf(date: int): (r: DayName)
    ensures r.date == date && r.dayName == DayNames[Weekday(date)]
    ensures |r.shortName| == 3 && r.shortName == r.dayName[..3]
  {
    var name := DayNames[Weekday(date)];
    DayNameLengths();
    DayName(date, name, name[..3])
  }

  lemma DayNameLengths()
    ensures forall i :: 0 <= i < 7 ==> |DayNames[i]| >= 6
  {
  }

  /** `getPageDayNames`: each date of the page with its weekday name and that name's first three letters. */
  method PageDayNames(data: QRData) returns (names: seq<DayName>)
    ensures |names| == data.daysOnPage
    ensures forall i :: 0 <= i < |names| ==> names[i] == NameOf(data.startDate + i)
  {
    var dates := PageDateRange(data);
    names := seq(|dates|, i requires 0 <= i < |dates| => NameOf(dates[i]));
  }

  /** Successive days of a page have successive weekdays. */
  lemma NamesAdvance(start: int, i: nat)
    ensures Weekday(NameOf(start + i + 1).date) == (Weekday(NameOf(start + i).date) + 1) % 7
  {
    WeekdayNext(start + i);
  }

  /** A left page starting on 6 January 2025 shows Monday to Thursday. */
  lemma LeftPageFromMonday()
    ensures var start := DaysFromCivil(2025, 1, 6);
            [NameOf(start).dayName, NameOf(start + 1).dayName, NameOf(start + 2).dayName, NameOf(start + 3).dayName]
            == ["Monday", "Tuesday", "Wednesday", "Thursday"]
  {
    KnownMonday();
    var start := DaysFromCivil(2025, 1, 6);
    WeekdayNext(start);
    WeekdayNext(start + 1);
    WeekdayNext(start + 2);
  }
}
