/** `DragHandler`: the period bar of a project-control or milestone row is
 *  dragged by its left edge, its right edge or its middle. On release the
 *  pixel distance becomes a whole number of day columns, the bar's merged
 *  cell is found, the new column range is checked, turned into two day
 *  keys and sent to the project or the version date endpoint. */
module DragHandler {
  import opened Optional
  import opened Constants
  import opened Calendar
  import opened Js
  import opened Grid
  import MergeCells

  /** Which handle is dragged. */
  datatype Side = Left | Right | Center

  const PROJECT_DATE_URL: string := "detailed_schedule_gantt/update_project_date"
  const VERSION_DATE_URL: string := "detailed_schedule_gantt/update_version_date"

  /** `Math.round(deltaX / DAY_COLUMN_WIDTH)` for a whole number of pixels:
   *  the nearest number of day columns, a half rounded up. */
  function ColumnDelta(deltaX: int): (d: int)
    ensures DAY_COLUMN_WIDTH * d - DAY_COLUMN_WIDTH / 2 <= deltaX < DAY_COLUMN_WIDTH * d + DAY_COLUMN_WIDTH / 2
  {
    (deltaX + DAY_COLUMN_WIDTH / 2) / DAY_COLUMN_WIDTH
  }

  /** The column the handle is dropped on (`onMouseUp`): the left edge
   *  stops at the first day column, the other handles at the last column. */
  function DropColumn(side: Side, startCol: int, delta: int, countCols: int): (c: int)
    ensures side == Left ==> c >= COL_FIRST_DAY && c >= startCol + delta && (c == COL_FIRST_DAY || c == startCol + delta)
    ensures side != Left ==> c <= countCols - 1 && c <= startCol + delta && (c == countCols - 1 || c == startCol + delta)
  {
    if side == Left then Max(COL_FIRST_DAY, startCol + delta) else Min(countCols - 1, startCol + delta)
  }

  /** The column the preview is drawn for while dragging (`onMouseMove`). */
  function PreviewColumn(side: Side, startCol: int, delta: int, countCols: int): (c: int)
    ensures side == Left ==> c >= COL_FIRST_DAY && c >= startCol + delta - 1 && (c == COL_FIRST_DAY || c == startCol + delta - 1)
    ensures side != Left ==> c <= countCols - 1 && c <= startCol + delta - 1 && (c == countCols - 1 || c == startCol + delta - 1)
  {
    if side == Left then Max(COL_FIRST_DAY, startCol + delta - 1) else Min(countCols - 1, startCol + delta - 1)
  }

  /** The preview is computed one column to the left of where the drop
   *  lands. */
  lemma PreviewIsOneColumnLeft(side: Side, startCol: int, delta: int, countCols: int)
    ensures PreviewColumn(side, startCol, delta, countCols) == DropColumn(side, startCol, delta - 1, countCols)
  {
  }

  /** The new `(start, end)` columns from the merged cell and the drop
   *  column. */
  function NewRange(cell: MergeCell, newCol: int, side: Side): (r: (int, int))
    ensures side != Right ==> r.0 == newCol
    ensures side == Right ==> r.0 == cell.col
    ensures side == Left ==> r.1 == cell.col + cell.colspan - 1
    ensures side != Left ==> r.1 - newCol == cell.colspan - 1
  {
    match side
    case Left => (newCol, cell.col + cell.colspan - 1)
    case Right => (cell.col, newCol + cell.colspan - 1)
    case Center => (newCol, newCol + cell.colspan - 1)
  }

  /** Left moves only the start, right only the end, the middle moves both
   *  and keeps the length. */
  lemma NewRangeBySide(cell: MergeCell, newCol: int, side: Side)
    ensures var (s, e) := NewRange(cell, newCol, side);
      && (side == Left ==> s == newCol && e == cell.col + cell.colspan - 1)
      && (side == Right ==> s == cell.col && e - newCol == cell.colspan - 1)
      && (side == Center ==> s == newCol && e - s == cell.colspan - 1)
  {
  }

  /** A handle sits on the bar's first column. Dragged by `delta` columns
   *  without reaching a clamp, the left handle moves the start by `delta`,
   *  the right one the end, and the middle one both. */
  lemma DragMovesByDelta(cell: MergeCell, side: Side, delta: int, countCols: int)
    requires side == Left ==> cell.col + delta >= COL_FIRST_DAY
    requires side != Left ==> cell.col + delta <= countCols - 1
    ensures var (s, e) := NewRange(cell, DropColumn(side, cell.col, delta, countCols), side);
      var end := cell.col + cell.colspan - 1;
      && (side == Left ==> s == cell.col + delta && e == end)
      && (side == Right ==> s == cell.col && e == end + delta)
      && (side == Center ==> s == cell.col + delta && e == end + delta)
  {
  }

  /** The drop's range check: a start strictly before the end, on a day
   *  column. */
  predicate DropAccepted(start: int, end: int)
    ensures DropAccepted(start, end) ==> PreviewAccepted(start, end)
    ensures DropAccepted(start, end) ==> end - start + 1 >= 2
  {
    start < end && start >= COL_FIRST_DAY
  }

  /** The preview's range check. */
  predicate PreviewAccepted(start: int, end: int)
    ensures PreviewAccepted(start, end) <==> start < end && (start == COL_FIRST_DAY - 1 || start >= COL_FIRST_DAY)
  {
    start < end && start >= COL_FIRST_DAY - 1
  }

  /** The preview check admits every range the drop admits, and also a
   *  start on the last static column, which the drop refuses. */
  lemma PreviewLooserThanDrop(start: int, end: int)
    ensures DropAccepted(start, end) ==> PreviewAccepted(start, end)
    ensures PreviewAccepted(COL_FIRST_DAY - 1, COL_FIRST_DAY) && !DropAccepted(COL_FIRST_DAY - 1, COL_FIRST_DAY)
  {
  }

  /** `data.findIndex(...)` for the milestone row of `versionId`. */
  function MilestoneRowIndex(data: seq<Row>, versionId: JsValue): (i: int)
    ensures -1 <= i < |data|
    ensures i >= 0 ==> IsMilestoneOf(data[i], versionId)
    ensures forall j :: 0 <= j < |data| && (i == -1 || j < i) ==> !IsMilestoneOf(data[j], versionId)
  {
    if data == [] then -1
    else if IsMilestoneOf(data[0], versionId) then 0
    else
      var k := MilestoneRowIndex(data[1..], versionId);
      assert forall j :: 1 <= j < |data| ==> data[j] == data[1..][j - 1];
      if k < 0 then -1 else k + 1
  }

  predicate IsMilestoneOf(row: Row, versionId: JsValue)
  {
    Truthy(Get(row, "is_milestone_row")) && StrictEquals(Get(row, "version_id"), versionId)
  }

  /** `data.findIndex(...)` for the control row of `projectId`. */
  function ProjectControlRowIndex(data: seq<Row>, projectId: JsValue): (i: int)
    ensures -1 <= i < |data|
    ensures i >= 0 ==> IsControlRowOf(data[i], projectId)
    ensures forall j :: 0 <= j < |data| && (i == -1 || j < i) ==> !IsControlRowOf(data[j], projectId)
  {
    if data == [] then -1
    else if IsControlRowOf(data[0], projectId) then 0
    else
      var k := ProjectControlRowIndex(data[1..], projectId);
      assert forall j :: 1 <= j < |data| ==> data[j] == data[1..][j - 1];
      if k < 0 then -1 else k + 1
  }

  predicate IsControlRowOf(row: Row, projectId: JsValue)
  {
    Truthy(Get(row, "is_project_control_row")) && StrictEquals(Get(row, "project_id"), projectId)
  }

  /** `cells.find(cell => cell.row === row)`. */
  function CellAtRow(cells: seq<MergeCell>, row: int): (c: Option<MergeCell>)
    ensures c.Some? ==> c.value in cells && c.value.row == row
    ensures c.None? ==> forall k :: 0 <= k < |cells| ==> cells[k].row != row
  {
    if cells == [] then None
    else if cells[0].row == row then Some(cells[0])
    else
      assert forall k :: 1 <= k < |cells| ==> cells[k] == cells[1..][k - 1];
      CellAtRow(cells[1..], row)
  }

  /** The bar's merged cell: the one on the version's milestone row, else
   *  the one on the project's control row. */
  function TargetCell(cells: seq<MergeCell>, data: seq<Row>, projectId: JsValue, versionId: JsValue): (t: Option<MergeCell>)
    ensures t.Some? ==> t.value in cells
    ensures t.Some? ==> t.value.row == MilestoneRowIndex(data, versionId) || t.value.row == ProjectControlRowIndex(data, projectId)
    ensures t.None? <==> forall k :: 0 <= k < |cells| ==>
      cells[k].row != MilestoneRowIndex(data, versionId) && cells[k].row != ProjectControlRowIndex(data, projectId)
  {
    var m := CellAtRow(cells, MilestoneRowIndex(data, versionId));
    if m.None? then CellAtRow(cells, ProjectControlRowIndex(data, projectId)) else m
  }

  /** The target is a merged cell on the first milestone row of the
   *  version or, when that row has none, on the first control row of the
   *  project. */
  lemma TargetCellRow(cells: seq<MergeCell>, data: seq<Row>, projectId: JsValue, versionId: JsValue)
    requires forall k :: 0 <= k < |cells| ==> cells[k].row >= 0
    ensures var t := TargetCell(cells, data, projectId, versionId);
      t.Some? ==> (t.value in cells && 0 <= t.value.row < |data|
                   && (IsMilestoneOf(data[t.value.row], versionId) || IsControlRowOf(data[t.value.row], projectId)))
    ensures var m := MilestoneRowIndex(data, versionId);
      (exists k :: 0 <= k < |cells| && cells[k].row == m && m >= 0) ==>
        TargetCell(cells, data, projectId, versionId) == CellAtRow(cells, m)
  {
  }

  /** The preview's row: the version's milestone row, else, only when there
   *  is no such row, the project's control row. */
  function PreviewRow(data: seq<Row>, projectId: JsValue, versionId: JsValue): (r: int)
    ensures -1 <= r < |data|
    ensures r >= 0 ==> IsMilestoneOf(data[r], versionId) || IsControlRowOf(data[r], projectId)
    ensures (exists j :: 0 <= j < |data| && IsMilestoneOf(data[j], versionId)) ==> r >= 0 && IsMilestoneOf(data[r], versionId)
    ensures (forall j :: 0 <= j < |data| ==> !IsMilestoneOf(data[j], versionId)) ==>
              (r == -1 <==> forall j :: 0 <= j < |data| ==> !IsControlRowOf(data[j], projectId))
  {
    var m := MilestoneRowIndex(data, versionId);
    if m == -1 then ProjectControlRowIndex(data, projectId) else m
  }

  /** The outline drawn while dragging. */
  datatype Preview = NoPreview | Rectangle(row: int, startCol: int, endCol: int)

  /** `showMergePreview(projectId, versionId, newCol, side)`. */
  function ShowMergePreview(cells: seq<MergeCell>, data: seq<Row>, projectId: JsValue, versionId: JsValue,
                            newCol: int, side: Side): (p: Preview)
    ensures p.Rectangle? ==>
      && p.row == PreviewRow(data, projectId, versionId)
      && CellAtRow(cells, p.row).Some?
      && (p.startCol, p.endCol) == NewRange(CellAtRow(cells, p.row).value, newCol, side)
      && PreviewAccepted(p.startCol, p.endCol)
  {
    var r := PreviewRow(data, projectId, versionId);
    match CellAtRow(cells, r)
    case None => NoPreview
    case Some(cell) =>
      var (s, e) := NewRange(cell, newCol, side);
      if PreviewAccepted(s, e) then Rectangle(r, s, e) else NoPreview
  }

  /** The preview and the drop look for the same merged cell except when
   *  the version has a milestone row without one: the drop then falls
   *  back to the control row's cell, the preview shows nothing. */
  lemma {:induction false} PreviewCellAgreesWithDrop(cells: seq<MergeCell>, data: seq<Row>, projectId: JsValue, versionId: JsValue)
    requires forall k :: 0 <= k < |cells| ==> cells[k].row >= 0
    ensures var m := MilestoneRowIndex(data, versionId);
      (m == -1 || CellAtRow(cells, m).Some?) ==>
        CellAtRow(cells, PreviewRow(data, projectId, versionId)) == TargetCell(cells, data, projectId, versionId)
    ensures var m := MilestoneRowIndex(data, versionId);
      (m >= 0 && CellAtRow(cells, m).None?) ==>
        ShowMergePreview(cells, data, projectId, versionId, 0, Left) == NoPreview
  {
    var m := MilestoneRowIndex(data, versionId);
    if m == -1 {
      assert forall k :: 0 <= k < |cells| ==> cells[k].row != m;
    }
  }

  /** The request `updateDatesInBackend` sends. */
  datatype DateRequest = DateRequest(url: string, id: JsValue, startDate: string, endDate: string)

  /** What a drop ends in. */
  datatype DropEffect =
    | NoEffect              // not dragging, no merged cell, or a range the check refuses
    | ColumnRangeAlert      // a column outside the day keys
    | ReversedDatesAlert    // a start date after the end date
      /** The dates are posted and, without waiting for the answer, the
       *  chart is reloaded and the preview cleared. */
    | RequestAndReload(request: DateRequest)

  /** `updateDatesInBackend`: a version's dates when there is a version id,
   *  else the project's. */
  function Route(projectId: JsValue, versionId: JsValue, startDate: string, endDate: string): (r: DateRequest)
    ensures r.startDate == startDate && r.endDate == endDate
    ensures IsNullish(versionId) ==> r.url == PROJECT_DATE_URL && r.id == projectId
    ensures !IsNullish(versionId) ==> r.url == VERSION_DATE_URL && r.id == versionId
  {
    if IsNullish(versionId) then DateRequest(PROJECT_DATE_URL, projectId, startDate, endDate)
    else DateRequest(VERSION_DATE_URL, versionId, startDate, endDate)
  }

  /** `a > b` between two dates; false when either is invalid. */
  predicate Later(a: Option<Date>, b: Option<Date>)
  {
    a.Some? && b.Some? && Earlier(b.value, a.value)
  }

  /** `updateDates(projectId, versionId, startCol, endCol)`. */
  function UpdateDates(dayKeys: seq<string>, projectId: JsValue, versionId: JsValue, startCol: int, endCol: int): (r: DropEffect)
    ensures r != NoEffect
    ensures r == ColumnRangeAlert <==>
      !(COL_FIRST_DAY <= startCol < COL_FIRST_DAY + |dayKeys| && COL_FIRST_DAY <= endCol < COL_FIRST_DAY + |dayKeys|)
    ensures r.RequestAndReload? ==>
      && COL_FIRST_DAY <= startCol < COL_FIRST_DAY + |dayKeys| && COL_FIRST_DAY <= endCol < COL_FIRST_DAY + |dayKeys|
      && r.request.startDate == dayKeys[startCol - COL_FIRST_DAY] && r.request.endDate == dayKeys[endCol - COL_FIRST_DAY]
      && !Later(DayOf(Str(r.request.startDate)), DayOf(Str(r.request.endDate)))
  {
    var s := startCol - COL_FIRST_DAY;
    var e := endCol - COL_FIRST_DAY;
    if !(0 <= s < |dayKeys| && 0 <= e < |dayKeys|) then ColumnRangeAlert
    else if Later(DayOf(Str(dayKeys[s])), DayOf(Str(dayKeys[e]))) then ReversedDatesAlert
    else RequestAndReload(Route(projectId, versionId, dayKeys[s], dayKeys[e]))
  }

  /** `updateMergeCell(projectId, versionId, newCol, side)` on the current
   *  merged cells and rows. */
  function UpdateMergeCell(cells: seq<MergeCell>, data: seq<Row>, dayKeys: seq<string>,
                           projectId: JsValue, versionId: JsValue, newCol: int, side: Side): (r: DropEffect)
    ensures TargetCell(cells, data, projectId, versionId).None? ==> r == NoEffect
    ensures TargetCell(cells, data, projectId, versionId).Some? ==>
      var (s, e) := NewRange(TargetCell(cells, data, projectId, versionId).value, newCol, side);
      (r == NoEffect <==> !DropAccepted(s, e))
      && (r == ColumnRangeAlert <==> DropAccepted(s, e) && e - COL_FIRST_DAY >= |dayKeys|)
  {
    match TargetCell(cells, data, projectId, versionId)
    case None => NoEffect
    case Some(cell) =>
      var (s, e) := NewRange(cell, newCol, side);
      if DropAccepted(s, e) then UpdateDates(dayKeys, projectId, versionId, s, e) else NoEffect
  }

  /** A request is sent only for a found bar, a range the check admits and
   *  columns inside the day keys; it carries the keys of the new start and
   *  end columns. */
  lemma DropRequest(cells: seq<MergeCell>, data: seq<Row>, dayKeys: seq<string>,
                    projectId: JsValue, versionId: JsValue, newCol: int, side: Side)
    ensures var effect := UpdateMergeCell(cells, data, dayKeys, projectId, versionId, newCol, side);
      var t := TargetCell(cells, data, projectId, versionId);
      effect.RequestAndReload? ==>
        && t.Some?
        && var (s, e) := NewRange(t.value, newCol, side);
        && DropAccepted(s, e) && e - COL_FIRST_DAY < |dayKeys|
        && effect.request == Route(projectId, versionId, dayKeys[s - COL_FIRST_DAY], dayKeys[e - COL_FIRST_DAY])
  {
  }

  /** A one-day range (start column equal to the end column) is never
   *  sent. */
  lemma OneDayRangeNeverSent(cells: seq<MergeCell>, data: seq<Row>, dayKeys: seq<string>,
                             projectId: JsValue, versionId: JsValue, newCol: int, side: Side)
    requires var t := TargetCell(cells, data, projectId, versionId);
      t.Some? && NewRange(t.value, newCol, side).0 == NewRange(t.value, newCol, side).1
    ensures UpdateMergeCell(cells, data, dayKeys, projectId, versionId, newCol, side) == NoEffect
  {
  }

  /** Two increasing day keys are never in reversed order. */
  lemma IncreasingKeysNotReversed(dayKeys: seq<string>, i: int, j: int)
    requires MergeCells.Increasing(MergeCells.KeyDays(dayKeys))
    requires 0 <= i < j < |dayKeys|
    ensures !Later(DayOf(Str(dayKeys[i])), DayOf(Str(dayKeys[j])))
  {
    var days := MergeCells.KeyDays(dayKeys);
    assert days[i] == DayOf(Str(dayKeys[i])) && days[j] == DayOf(Str(dayKeys[j]));
    assert Earlier(days[i].value, days[j].value);
  }

  /** With day keys in increasing order (as the chart has them), an
   *  admitted range inside the keys is always sent: the reversed-dates
   *  alert cannot fire. */
  lemma AdmittedRangeIsSent(cells: seq<MergeCell>, data: seq<Row>, dayKeys: seq<string>,
                            projectId: JsValue, versionId: JsValue, newCol: int, side: Side)
    requires MergeCells.Increasing(MergeCells.KeyDays(dayKeys))
    requires var t := TargetCell(cells, data, projectId, versionId);
      t.Some? && DropAccepted(NewRange(t.value, newCol, side).0, NewRange(t.value, newCol, side).1)
      && NewRange(t.value, newCol, side).1 - COL_FIRST_DAY < |dayKeys|
    ensures UpdateMergeCell(cells, data, dayKeys, projectId, versionId, newCol, side).RequestAndReload?
  {
    var (s, e) := NewRange(TargetCell(cells, data, projectId, versionId).value, newCol, side);
    IncreasingKeysNotReversed(dayKeys, s - COL_FIRST_DAY, e - COL_FIRST_DAY);
  }

  /** The drag state of one handle: `isDragging`, `startX`, `startCol`, and
   *  what the handle was created for. */
  class DragListener {
    const side: Side
    /** The column of the cell the handle is drawn in. */
    const col: int
    const projectId: JsValue
    const versionId: JsValue
    var isDragging: bool
    var startX: int
    var startCol: int

    /** `addDragListeners(handle, row, col, rowData, side)`. */
    constructor(side: Side, col: int, rowData: Row)
      ensures this.side == side && this.col == col
      ensures projectId == Get(rowData, "project_id") && versionId == Get(rowData, "version_id")
      ensures !isDragging && startX == 0 && startCol == 0
    {
      this.side := side;
      this.col := col;
      projectId := Get(rowData, "project_id");
      versionId := Get(rowData, "version_id");
      isDragging := false;
      startX := 0;
      startCol := 0;
    }

    /** `mousedown`: dragging starts only in edit mode. */
    method MouseDown(isEditMode: bool, clientX: int)
      modifies this
      ensures isEditMode ==> isDragging && startX == clientX && startCol == col
      ensures !isEditMode ==> isDragging == old(isDragging) && startX == old(startX) && startCol == old(startCol)
    {
      if !isEditMode {
        return;
      }
      isDragging := true;
      startX := clientX;
      startCol := col;
    }

    /** `mousemove`: while dragging, the preview for the column one to the
     *  left of the drop column; the drag state is unchanged. */
    method MouseMove(clientX: int, countCols: int, cells: seq<MergeCell>, data: seq<Row>) returns (preview: Preview)
      ensures !isDragging ==> preview == NoPreview
      ensures isDragging ==>
        preview == ShowMergePreview(cells, data, projectId, versionId,
                                    DropColumn(side, startCol, ColumnDelta(clientX - startX) - 1, countCols), side)
    {
      if !isDragging {
        return NoPreview;
      }
      var colDelta := (clientX - startX + DAY_COLUMN_WIDTH / 2) / DAY_COLUMN_WIDTH;
      var newCol := startCol;
      match side {
        case Left => newCol := Max(COL_FIRST_DAY, startCol + colDelta - 1);
        case Right => newCol := Min(countCols - 1, startCol + colDelta - 1);
        case Center => newCol := Min(countCols - 1, startCol + colDelta - 1);
      }
      preview := ShowMergePreview(cells, data, projectId, versionId, newCol, side);
    }

    /** `mouseup`: a drag in progress ends in `updateMergeCell` with the
     *  drop column; the drag is over either way. */
    method MouseUp(clientX: int, countCols: int, cells: seq<MergeCell>, data: seq<Row>, dayKeys: seq<string>)
      returns (effect: DropEffect)
      modifies this
      ensures !isDragging && startX == old(startX) && startCol == old(startCol)
      ensures !old(isDragging) ==> effect == NoEffect
      ensures old(isDragging) ==>
        effect == UpdateMergeCell(cells, data, dayKeys, projectId, versionId,
                                  DropColumn(side, old(startCol), ColumnDelta(clientX - old(startX)), countCols), side)
    {
      effect := NoEffect;
      if isDragging {
        var colDelta := (clientX - startX + DAY_COLUMN_WIDTH / 2) / DAY_COLUMN_WIDTH;
        var newCol := startCol;
        match side {
          case Left => newCol := Max(COL_FIRST_DAY, startCol + colDelta);
          case Right => newCol := Min(countCols - 1, startCol + colDelta);
          case Center => newCol := Min(countCols - 1, startCol + colDelta);
        }
        effect := UpdateMergeCell(cells, data, dayKeys, projectId, versionId, newCol, side);
      }
      isDragging := false;
    }
  }
}
