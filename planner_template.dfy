/**
 * The single-page planner layout: a full-width header strip over a 2×3 grid whose left
 * column holds Monday to Wednesday and whose right column holds their "things to do"
 * lists. Grid positions are 0-based here, and the lookup and the validators know only
 * the header and the day regions.
 */
module PlannerTemplate {
  import opened Wrappers
  import opened Ocr
  import opened TemplateCommon

  const Columns: real := 2.0
  const Rows: real := 3.0
  const HeaderHeight: real := 10.0
  const CellWidth: real := 100.0 / Columns
  const CellHeight: real := (100.0 - HeaderHeight) / Rows

  const HeaderRegion: Region := Region("header", "", Header, Fixed(0.0, 0.0), 100.0, HeaderHeight)

  const Days: seq<Region> := [
    Region("monday", "Monday", Day, Cell(0, 0), CellWidth, CellHeight),
    Region("tuesday", "Tuesday", Day, Cell(1, 0), CellWidth, CellHeight),
    Region("wednesday", "Wednesday", Day, Cell(2, 0), CellWidth, CellHeight)
  ]

  const TodoLists: seq<Region> := [
    Region("monday", "Monday Todo", Todo, Cell(0, 1), CellWidth, CellHeight),
    Region("tuesday", "Tuesday Todo", Todo, Cell(1, 1), CellWidth, CellHeight),
    Region("wednesday", "Wednesday Todo", Todo, Cell(2, 1), CellWidth, CellHeight)
  ]

  /** `getAbsoluteRegion`: a grid position, 0 included, always yields a box. */
  function AbsoluteRegion(r: Region): (b: Box)
    ensures b.width == r.width && b.height == r.height
    ensures r.place.Fixed? ==> b.top == r.place.top && b.left == r.place.left
    ensures r.place.Cell? ==> b.top == 10.0 + 30.0 * r.place.row as real && b.left == 50.0 * r.place.column as real
  {
    match r.place
    case Fixed(top, left) => Box(top, left, r.width, r.height)
    case Cell(row, column) =>
      Box(HeaderHeight + row as real * (100.0 - HeaderHeight) / Rows, column as real * (100.0 / Columns), r.width, r.height)
  }

  predicate Contains(r: Region, x: real, y: real)
  {
    InRegion(x, y, AbsoluteRegion(r))
  }

  /** The lookup on percentages: the header, then the days; the to-do column is not looked at. */
  function RegionAtPercent(x: real, y: real): (r: Option<Match>)
    ensures r == Some(HeaderMatch) <==> Contains(HeaderRegion, x, y)
    ensures r.Some? && r.value.RegionMatch? ==>
              exists reg :: reg in Days && Contains(reg, x, y) && r.value == MatchOf(reg)
    ensures r.None? ==> !Contains(HeaderRegion, x, y) && forall reg :: reg in Days ==> !Contains(reg, x, y)
  {
    if Contains(HeaderRegion, x, y) then Some(HeaderMatch)
    else match FirstRegion(Days, reg => Contains(reg, x, y))
      case Some(k) => Some(MatchOf(Days[k]))
      case None => None
  }

  /** `getRegionForCoordinates` over this layout. */
  function GetRegionForCoordinates(imageWidth: real, imageHeight: real, x: real, y: real): (r: Option<Match>)
    ensures imageWidth == 0.0 || imageHeight == 0.0 ==> r.None?
    ensures imageWidth != 0.0 && imageHeight != 0.0 ==> r == RegionAtPercent(x / imageWidth * 100.0, y / imageHeight * 100.0)
  {
    RegionForCoordinates(imageWidth, imageHeight, x, y, RegionAtPercent)
  }

  /**
   * What the lookup answers anywhere on the page: the header across the top tenth, then
   * Monday, Tuesday and Wednesday in 30-point bands down the left half, and nothing in the
   * right half below the header, where the to-do lists are drawn.
   */
  lemma {:induction false} PageMap(x: real, y: real)
    requires 0.0 <= x < 100.0 && 0.0 <= y < 100.0
    ensures y < 10.0 ==> RegionAtPercent(x, y) == Some(HeaderMatch)
    ensures 10.0 <= y < 40.0 && x < 50.0 ==> RegionAtPercent(x, y) == Some(RegionMatch(Day, "monday", "Monday"))
    ensures 40.0 <= y < 70.0 && x < 50.0 ==> RegionAtPercent(x, y) == Some(RegionMatch(Day, "tuesday", "Tuesday"))
    ensures 70.0 <= y && x < 50.0 ==> RegionAtPercent(x, y) == Some(RegionMatch(Day, "wednesday", "Wednesday"))
    ensures 10.0 <= y && 50.0 <= x ==> RegionAtPercent(x, y).None?
  {
    if 10.0 <= y && 50.0 <= x {
      assert forall reg :: reg in Days ==> !Contains(reg, x, y);
    } else if 40.0 <= y < 70.0 && x < 50.0 {
      assert !Contains(Days[0], x, y) && Contains(Days[1], x, y);
      assert FirstRegion(Days, reg => Contains(reg, x, y)) == Some(1);
    } else if 70.0 <= y && x < 50.0 {
      assert !Contains(Days[0], x, y) && !Contains(Days[1], x, y) && Contains(Days[2], x, y);
      assert FirstRegion(Days, reg => Contains(reg, x, y)) == Some(2);
    }
  }

  /** Every point of a to-do region is invisible to the lookup. */
  lemma TodoListsIgnored(reg: Region, x: real, y: real)
    requires reg in TodoLists && Contains(reg, x, y)
    ensures RegionAtPercent(x, y).None?
  {
    assert 50.0 <= x < 100.0 && 10.0 <= y < 100.0;
    PageMap(x, y);
  }

  /** `validateContent`: only the header and day types are known; to-do text is never valid. */
  function ValidateContent(kind: RegionKind, name: string, text: string): (r: Validation)
    ensures text == [] || kind == Todo || kind == Other ==> r == Validation(false, 0.0)
    ensures 0.0 <= r.confidence <= 1.0
    ensures r.valid ==> r.confidence > 0.0
    ensures text != [] && kind == Header ==> r == ValidateHeader(text)
    ensures text != [] && kind == Day ==> r == ValidateDay(text, name)
  {
    if text == [] then Validation(false, 0.0)
    else match kind
      case Header => ValidateHeader(text)
      case Day => ValidateDay(text, name)
      case _ => Validation(false, 0.0)
  }
}
