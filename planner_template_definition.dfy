/**
 * The two-page planner layout: a header strip over the left half of the page and a 4×3
 * grid below it, whose cells hold the seven days and five "things to do" lists.
 * Positions are percentages of the image; a region is either placed absolutely or by a
 * 1-based grid cell.
 */
module PlannerTemplateDefinition {
  import opened Wrappers
  import opened Text
  import opened Ocr
  import opened TemplateCommon

  const Columns: real := 4.0
  const Rows: real := 3.0
  const HeaderHeight: real := 10.0
  const CellWidth: real := 100.0 / Columns
  const CellHeight: real := (100.0 - HeaderHeight) / Rows

  const HeaderRegion: Region := Region("header", "", Header, Fixed(0.0, 0.0), 50.0, HeaderHeight)

  const Days: seq<Region> := [
    Region("monday", "Monday", Day, Cell(1, 1), CellWidth, CellHeight),
    Region("tuesday", "Tuesday", Day, Cell(2, 1), CellWidth, CellHeight),
    Region("wednesday", "Wednesday", Day, Cell(3, 1), CellWidth, CellHeight),
    Region("thursday", "Thursday", Day, Cell(1, 3), CellWidth, CellHeight),
    Region("friday", "Friday", Day, Cell(2, 3), CellWidth, CellHeight),
    Region("saturday", "Saturday", Day, Cell(3, 3), CellWidth, CellHeight),
    Region("sunday", "Sunday", Day, Cell(3, 4), CellWidth, CellHeight)
  ]

  const TodoLists: seq<Region> := [
    Region("monday", "Monday Todo", Todo, Cell(1, 2), CellWidth, CellHeight),
    Region("tuesday", "Tuesday Todo", Todo, Cell(2, 2), CellWidth, CellHeight),
    Region("wednesday", "Wednesday Todo", Todo, Cell(3, 2), CellWidth, CellHeight),
    Region("thursday", "Thursday Todo", Todo, Cell(1, 4), CellWidth, CellHeight),
    Region("friday", "Friday Todo", Todo, Cell(2, 4), CellWidth, CellHeight)
  ]

  /**
   * `getAbsoluteRegion`. A row or column of 0 is falsy, so the source falls back to a
   * `top`/`left` the entry does not have; that undefined box contains no point (`None`).
   */
  function AbsoluteRegion(r: Region): (b: Option<Box>)
    ensures b.Some? ==> b.value.width == r.width && b.value.height == r.height
    ensures r.place.Fixed? ==> b == Some(Box(r.place.top, r.place.left, r.width, r.height))
    ensures r.place.Cell? ==> (b.Some? <==> r.place.row != 0 && r.place.column != 0)
    ensures r.place.Cell? && b.Some? ==>
              b.value.top == 10.0 + 30.0 * (r.place.row - 1) as real && b.value.left == 25.0 * (r.place.column - 1) as real
  {
    match r.place
    case Fixed(top, left) => Some(Box(top, left, r.width, r.height))
    case Cell(row, column) =>
      if row == 0 || column == 0 then None
      else Some(Box(HeaderHeight + (row - 1) as real * (100.0 - HeaderHeight) / Rows,
                    (column - 1) as real * (100.0 / Columns), r.width, r.height))
  }

  predicate Contains(r: Region, x: real, y: real)
  {
    AbsoluteRegion(r).Some? && InRegion(x, y, AbsoluteRegion(r).value)
  }

  /** The lookup on percentages: header first, then the days, then the to-do lists. */
  function RegionAtPercent(x: real, y: real): (r: Option<Match>)
    ensures r == Some(HeaderMatch) <==> Contains(HeaderRegion, x, y)
    ensures r.Some? && r.value.RegionMatch? ==>
              exists reg :: reg in Grid && Contains(reg, x, y) && r.value == MatchOf(reg)
    ensures r.None? ==> !Contains(HeaderRegion, x, y) && forall reg :: reg in Grid ==> !Contains(reg, x, y)
  {
    if Contains(HeaderRegion, x, y) then Some(HeaderMatch)
    else match FirstRegion(Days, reg => Contains(reg, x, y))
      case Some(k) => assert Days[k] in Grid; Some(MatchOf(Days[k]))
      case None =>
        match FirstRegion(TodoLists, reg => Contains(reg, x, y))
        case Some(k) => assert TodoLists[k] in Grid; Some(MatchOf(TodoLists[k]))
        case None => None
  }

  /** `getRegionForCoordinates` over this layout. */
  function GetRegionForCoordinates(imageWidth: real, imageHeight: real, x: real, y: real): (r: Option<Match>)
    ensures imageWidth == 0.0 || imageHeight == 0.0 ==> r.None?
    ensures imageWidth != 0.0 && imageHeight != 0.0 ==> r == RegionAtPercent(x / imageWidth * 100.0, y / imageHeight * 100.0)
  {
    RegionForCoordinates(imageWidth, imageHeight, x, y, RegionAtPercent)
  }

  // ------------------------------------------------------------ the grid is a partition

  /** The 1-based grid column of a percentage across the page. */
  function ColumnOf(x: real): (c: int)
    requires 0.0 <= x < 100.0
    ensures 1 <= c <= 4
    ensures 25.0 * (c - 1) as real <= x < 25.0 * c as real
  {
    if x < 25.0 then 1 else if x < 50.0 then 2 else if x < 75.0 then 3 else 4
  }

  /** The 1-based grid row of a percentage down the page, below the header band. */
  function RowOf(y: real): (r: int)
    requires 10.0 <= y < 100.0
    ensures 1 <= r <= 3
    ensures 10.0 + 30.0 * (r - 1) as real <= y < 10.0 + 30.0 * r as real
  {
    if y < 40.0 then 1 else if y < 70.0 then 2 else 3
  }

  /** The day and to-do regions together, in lookup order. */
  const Grid: seq<Region> := Days + TodoLists

  /** Where each cell's region sits in `Grid`. */
  function CellIndex(row: int, column: int): (k: nat)
    requires 1 <= row <= 3 && 1 <= column <= 4
    ensures k < 12
  {
    [[0, 7, 3, 10], [1, 8, 4, 11], [2, 9, 5, 6]][row - 1][column - 1]
  }

  /** Every day and to-do region occupies its own cell of the 3×4 grid, and every cell is taken. */
  lemma {:induction false} LayoutFillsGrid()
    ensures |Grid| == 12
    ensures forall k :: 0 <= k < 12 ==>
              Grid[k].place.Cell? && 1 <= Grid[k].place.row <= 3 && 1 <= Grid[k].place.column <= 4
              && CellIndex(Grid[k].place.row, Grid[k].place.column) == k
              && Grid[k].width == 25.0 && Grid[k].height == 30.0
    ensures forall row, column :: 1 <= row <= 3 && 1 <= column <= 4 ==>
              Grid[CellIndex(row, column)].place == Cell(row, column)
  {
    assert Grid[0] == Days[0] && Grid[6] == Days[6] && Grid[7] == TodoLists[0] && Grid[11] == TodoLists[4];
  }

  /** A grid region contains exactly the points whose row and column bands are its cell. */
  lemma CellContains(reg: Region, x: real, y: real)
    requires reg in Grid
    requires 0.0 <= x < 100.0 && 10.0 <= y < 100.0
    ensures Contains(reg, x, y) <==> reg.place == Cell(RowOf(y), ColumnOf(x))
  {
    LayoutFillsGrid();
  }

  /**
   * Below the header band every point of the page lies in exactly one day or to-do
   * region, and the lookup answers with the region of its cell.
   */
  lemma {:induction false} GridLookup(x: real, y: real)
    requires 0.0 <= x < 100.0 && 10.0 <= y < 100.0
    ensures exists reg :: reg in Grid && reg.place == Cell(RowOf(y), ColumnOf(x))
                          && RegionAtPercent(x, y) == Some(MatchOf(reg))
    ensures forall reg1, reg2 ::
              reg1 in Grid && reg2 in Grid && Contains(reg1, x, y) && Contains(reg2, x, y) ==> reg1 == reg2
  {
    LayoutFillsGrid();
    var all := Grid;
    var r := RegionAtPercent(x, y);
    assert !Contains(HeaderRegion, x, y);
    var cell := Cell(RowOf(y), ColumnOf(x));
    var home :| home in all && home.place == cell;
    CellContains(home, x, y);
    assert r.Some?;
    var found :| found in all && Contains(found, x, y) && r.value == MatchOf(found);
    CellContains(found, x, y);
    forall reg1, reg2 | reg1 in all && reg2 in all && Contains(reg1, x, y) && Contains(reg2, x, y)
      ensures reg1 == reg2
    {
      CellContains(reg1, x, y);
      CellContains(reg2, x, y);
      var i :| 0 <= i < |all| && all[i] == reg1;
      var j :| 0 <= j < |all| && all[j] == reg2;
      assert i == j;
    }
  }

  /** The header band is the left half of the top tenth; its right half belongs to no region. */
  lemma HeaderBand(x: real, y: real)
    requires 0.0 <= y < 10.0
    ensures 0.0 <= x < 50.0 ==> RegionAtPercent(x, y) == Some(HeaderMatch)
    ensures (x < 0.0 || 50.0 <= x) ==> RegionAtPercent(x, y).None?
  {
    LayoutFillsGrid();
    if x < 0.0 || 50.0 <= x {
      assert forall reg :: reg in Grid ==> !Contains(reg, x, y);
    }
  }

  /** Off the page there is no region. */
  lemma OffPage(x: real, y: real)
    requires x < 0.0 || 100.0 <= x || y < 0.0 || 100.0 <= y
    ensures RegionAtPercent(x, y).None?
  {
    LayoutFillsGrid();
    assert forall reg :: reg in Grid ==> !Contains(reg, x, y);
  }

  // ------------------------------------------------------------ validation

  /** `validateTodoContent`: a "things to do" heading weighs 0.8, other text 0.6. */
  function ValidateTodo(text: string): (r: Validation)
    ensures r.valid <==> HasTodoHeader(text) || Trim(RemoveTodoHeader(text)) != []
    ensures r.valid <==> r.confidence > 0.0
    ensures 0.0 <= r.confidence <= 0.8
    ensures HasTodoHeader(text) ==> r.confidence == 0.8
  {
    var hasHeader := HasTodoHeader(text);
    var hasContent := |Trim(RemoveTodoHeader(text))| > 0;
    Validation(hasHeader || hasContent, if hasHeader then 0.8 else if hasContent then 0.6 else 0.0)
  }

  /** `validateContent`: empty text and unknown region types are invalid with no confidence. */
  function ValidateContent(kind: RegionKind, name: string, text: string): (r: Validation)
    ensures text == [] || kind == Other ==> r == Validation(false, 0.0)
    ensures 0.0 <= r.confidence <= 1.0
    ensures r.valid ==> r.confidence > 0.0
    ensures text != [] && kind == Header ==> r == ValidateHeader(text)
    ensures text != [] && kind == Day ==> r == ValidateDay(text, name)
    ensures text != [] && kind == Todo ==> r == ValidateTodo(text)
  {
    if text == [] then Validation(false, 0.0)
    else match kind
      case Header => ValidateHeader(text)
      case Day => ValidateDay(text, name)
      case Todo => ValidateTodo(text)
      case Other => Validation(false, 0.0)
  }

  /** Text that is only white space and a heading is still a valid to-do region. */
  lemma TodoHeadingAloneIsValid(text: string)
    requires HasTodoHeader(text)
    ensures ValidateContent(Todo, "", text) == Validation(true, 0.8)
  {
  }
}
