/** `CreateHandsontable`: builds the main grid (project-control rows,
 *  milestone rows, then issue rows, with their merged cells) and the
 *  footer grid of per-user totals, and keeps deleted cells from holding
 *  `null`. */
module CreateHandsontable {
  import opened Optional
  import opened Js
  import opened Grid
  import opened MergeCells
  import opened DataTransformer
  import opened UserTotalDaysGenerator
  import Control = ProjectControlRowsGenerator
  import Milestones = MilestoneRowsGenerator

  /** One entry of `beforeChange`'s `changes`: `[row, prop, oldValue,
   *  newValue]`. */
  datatype Change = Change(row: int, prop: string, oldValue: JsValue, newValue: JsValue)

  /** A change after `nullReplaceEmpty`: it never writes `null`; a `null`
   *  becomes `''`, any other new value and the other three fields stay. */
  function Blanked(c: Change): (d: Change)
    ensures d.newValue != Null
    ensures d.row == c.row && d.prop == c.prop && d.oldValue == c.oldValue
    ensures c.newValue != Null ==> d == c
  {
    if c.newValue == Null then c.(newValue := Str("")) else c
  }

  /** Blanking twice is blanking once. */
  lemma BlankedIdempotent(c: Change)
    ensures Blanked(Blanked(c)) == Blanked(c)
  {
  }

  /** `nullReplaceEmpty(changes, source)`: every change, in place; a `null`
   *  list is left alone. */
  method NullReplaceEmpty(changes: array?<Change>)
    modifies changes
    ensures changes != null ==> forall i :: 0 <= i < changes.Length ==> changes[i] == Blanked(old(changes[i]))
  {
    if changes == null {
      return;
    }
    for i := 0 to changes.Length
      invariant forall k :: 0 <= k < i ==> changes[k] == Blanked(old(changes[k]))
      invariant forall k :: i <= k < changes.Length ==> changes[k] == old(changes[k])
    {
      if changes[i].newValue == Null {
        changes[i] := changes[i].(newValue := Str(""));
      }
    }
  }

  /** A grid's data (after the merge passes marked it) and its `mergeCells`
   *  setting. */
  datatype Sheet = Sheet(data: seq<Row>, mergeCells: seq<MergeCell>)

  /** What `initialize()` left on the page: the no-data placeholder and no
   *  grids, an error (the issue list is missing, so `issueArray.map`
   *  throws), or the two grids. */
  datatype Start = Placeholder | Threw | Grids(main: Sheet, footer: Sheet)

  /** `projectControlRows.concat(milestoneRows).concat(issueData)`: every
   *  project's control row, then every version's milestone row, then every
   *  issue's row, each group in the order the page lists them. */
  function InitialRows(projects: seq<Row>, versions: seq<Row>, issues: seq<IssueJson>): (rows: seq<Row>)
    ensures |rows| == |projects| + |versions| + |issues|
    ensures forall i :: 0 <= i < |projects| ==> rows[i] == Control.ControlRow(projects[i])
    ensures forall i :: 0 <= i < |versions| ==> rows[|projects| + i] == Milestones.MilestoneRow(versions[i])
    ensures forall i :: 0 <= i < |issues| ==> rows[|projects| + |versions| + i] == TransformIssueToRow(issues[i])
  {
    ControlRows(projects) + MilestoneRows(versions) + IssueRows(issues)
  }

  /** `projectControlRowsGenerator.generate()`. */
  function ControlRows(projects: seq<Row>): (rows: seq<Row>)
    ensures |rows| == |projects|
  {
    seq(|projects|, i requires 0 <= i < |projects| => Control.ControlRow(projects[i]))
  }

  /** `milestoneRowsGenerator.generate()`. */
  function MilestoneRows(versions: seq<Row>): (rows: seq<Row>)
    ensures |rows| == |versions|
  {
    seq(|versions|, i requires 0 <= i < |versions| => Milestones.MilestoneRow(versions[i]))
  }

  /** `issues.map(issue => dataTransformer.transformIssueToRow(issue))`. */
  function IssueRows(issues: seq<IssueJson>): (rows: seq<Row>)
    ensures |rows| == |issues|
    ensures forall i :: 0 <= i < |issues| ==> rows[i] == TransformIssueToRow(issues[i])
  {
    seq(|issues|, i requires 0 <= i < |issues| => TransformIssueToRow(issues[i]))
  }

  /** The grid `createHandsontable` makes of `data`: the control rows'
   *  merge pass, then the milestone rows' pass over the marked rows; the
   *  cells of both, in that order. */
  function Built(controlKeys: seq<string>, milestoneKeys: seq<string>, data: seq<Row>): (sheet: Sheet)
    ensures |sheet.data| == |data|
    ensures forall r, k :: 0 <= r < |data| && k !in controlKeys && k !in milestoneKeys ==> Get(sheet.data[r], k) == Get(data[r], k)
    ensures forall r :: 0 <= r < |data| && !Spanned(data[r], Control.FLAG) && !Spanned(data[r], Milestones.FLAG) ==> sheet.data[r] == data[r]
  {
    var marked := MarkAll(controlKeys, data, Control.FLAG);
    Sheet(MarkAll(milestoneKeys, marked, Milestones.FLAG),
          PlanCells(controlKeys, data, Control.FLAG) + PlanCells(milestoneKeys, marked, Milestones.FLAG))
  }

  /** Each grid's merged cells: the control pass's first, each on a row
   *  flagged as a project-control row, then the milestone pass's, each on a
   *  row flagged as a milestone row. */
  lemma {:induction false} BuiltCellsBelongToTheirRows(controlKeys: seq<string>, milestoneKeys: seq<string>, data: seq<Row>)
    ensures var sheet := Built(controlKeys, milestoneKeys, data);
      var n := |PlanCells(controlKeys, data, Control.FLAG)|;
      && (forall i :: 0 <= i < n ==>
            0 <= sheet.mergeCells[i].row < |data| && Truthy(Get(data[sheet.mergeCells[i].row], Control.FLAG)))
      && (forall i :: n <= i < |sheet.mergeCells| ==>
            0 <= sheet.mergeCells[i].row < |data|
            && Truthy(Get(MarkAll(controlKeys, data, Control.FLAG)[sheet.mergeCells[i].row], Milestones.FLAG)))
  {
    CellsShape(controlKeys, data, Control.FLAG);
    CellsShape(milestoneKeys, MarkAll(controlKeys, data, Control.FLAG), Milestones.FLAG);
  }

  /** The object `initialize()` runs on, with the two generators whose
   *  `getMergeCells` both grids use. */
  class CreateHandsontable {
    const controlRows: Control.ProjectControlRowsGenerator
    const milestoneRows: Milestones.MilestoneRowsGenerator

    constructor(controlRows: Control.ProjectControlRowsGenerator, milestoneRows: Milestones.MilestoneRowsGenerator)
      ensures this.controlRows == controlRows && this.milestoneRows == milestoneRows
    {
      this.controlRows := controlRows;
      this.milestoneRows := milestoneRows;
    }

    /** `createHandsontable(..., data)`: the grid holds `data` itself, which
     *  the two `getMergeCells` calls mark in place. */
    method CreateSheet(data: seq<Row>) returns (sheet: Sheet)
      ensures sheet == Built(controlRows.dayKeys, milestoneRows.dayKeys, data)
    {
      var grid := new Row[|data|](r requires 0 <= r < |data| => data[r]);
      assert grid[..] == data;
      var controlCells := controlRows.GetMergeCells(grid);
      ghost var marked := grid[..];
      assert marked == MarkAll(controlRows.dayKeys, data, Control.FLAG);
      var milestoneCells := milestoneRows.GetMergeCells(grid);
      assert grid[..] == MarkAll(milestoneRows.dayKeys, marked, Milestones.FLAG);
      sheet := Sheet(grid[..], controlCells + milestoneCells);
    }

    /** `initialize()`: an empty issue list shows the placeholder and no
     *  grids; a missing one throws; otherwise the main grid holds the
     *  control, milestone and issue rows and the footer the users' totals. */
    method Initialize(issueArray: Option<seq<IssueJson>>, projects: seq<Row>, versions: seq<Row>,
                      allUsers: seq<Row>, userDailySchedules: seq<DailyTotal>) returns (start: Start)
      ensures issueArray == Some([]) ==> start == Placeholder
      ensures issueArray.None? ==> start == Threw
      ensures issueArray.Some? && issueArray.value != [] ==>
        start == Grids(Built(controlRows.dayKeys, milestoneRows.dayKeys, InitialRows(projects, versions, issueArray.value)),
                       Built(controlRows.dayKeys, milestoneRows.dayKeys, MergeTotals(TallyRows(allUsers), userDailySchedules)))
    {
      if issueArray == Some([]) {
        return Placeholder;
      }
      if issueArray.None? {
        return Threw;
      }
      var issueData := seq(|issueArray.value|, i requires 0 <= i < |issueArray.value| => TransformIssueToRow(issueArray.value[i]));
      var userTotalDaysRow := Generate(allUsers, userDailySchedules);
      var projectControlRows := controlRows.Generate(projects);
      var milestoneRowsData := milestoneRows.Generate(versions);
      assert projectControlRows == seq(|projects|, i requires 0 <= i < |projects| => Control.ControlRow(projects[i]));
      assert milestoneRowsData == seq(|versions|, i requires 0 <= i < |versions| => Milestones.MilestoneRow(versions[i]));
      var data := projectControlRows + milestoneRowsData + issueData;
      var hotMain := CreateSheet(data);
      var hotFooter := CreateSheet(userTotalDaysRow);
      start := Grids(hotMain, hotFooter);
    }
  }
}
