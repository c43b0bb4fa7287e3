/** `ReloadManager`: after a change, the chart fetches the whole payload
 *  again and rebuilds both grids from it: the main grid (project-control
 *  rows, milestone rows, issue rows, and their merged cells) and the
 *  footer of per-person daily totals. `autoReload` polls the latest-update
 *  stamp and reloads when it moves. */
module ReloadManager {
  import opened Optional
  import opened Js
  import opened Grid
  import opened MergeCells
  import opened DataTransformer
  import opened UserTotalDaysGenerator
  import Control = ProjectControlRowsGenerator
  import Milestones = MilestoneRowsGenerator
  import CreateHandsontable

  /** The JSON of `get_data`: `versions` is `None` when the object has no
   *  such property. */
  datatype GanttData = GanttData(issues: seq<IssueJson>, userDailySchedules: seq<DailyTotal>,
                                 projects: seq<Row>, versions: Option<seq<Row>>)

  /** `{ issues: [], user_daily_schedules: [], projects: [] }`, what `data`
   *  keeps when the fetch throws or answers with an error status: it has
   *  no `versions`. */
  const DEFAULT_DATA: GanttData := GanttData([], [], [], None)

  /** The default `reload` needs: the same, with an empty `versions`. */
  const FIXED_DEFAULT_DATA: GanttData := GanttData([], [], [], Some([]))

  /** The payload a reload works on: the response's JSON, or the default
   *  when there is none. */
  function Received(response: Option<GanttData>, default: GanttData): GanttData
  {
    if response.Some? then response.value else default
  }

  /** The footer row `reload` starts each user from. Unlike the row the
   *  page is first built with, it has no `project_id`. */
  function ReloadTallyRow(user: Row): (row: Row)
    ensures row == TallyRow(user) - {"project_id"}
    ensures "project_id" !in row
  {
    map[
      "id" := Null, "lock_version" := Null,
      "category_id" := Str("-"), "version_id" := Str("-"),
      "assigned_to_id" := Get(user, "id"),
      "subject" := Str("工数管理"), "description" := Str("1日の合計工数"),
      "done_ratio" := Str("-"), "is_tally_row" := Bool(true),
      "estimated_days" := Str("-"), "schedule_days" := Str("-"), "check_days" := Str("-")
    ]
  }

  /** `(window.allUsers || []).map(...)`. */
  function FreshTallyRows(users: seq<Row>): (rows: seq<Row>)
    ensures |rows| == |users|
    ensures forall k :: 0 <= k < |users| ==> rows[k] == ReloadTallyRow(users[k])
  {
    seq(|users|, k requires 0 <= k < |users| => ReloadTallyRow(users[k]))
  }

  /** The tally rows of a reload: one per user, each total written into
   *  its user's first row. */
  method BuildTallyRows(allUsers: seq<Row>, schedules: seq<DailyTotal>) returns (rows: seq<Row>)
    ensures rows == MergeTotals(FreshTallyRows(allUsers), schedules)
  {
    rows := FreshTallyRows(allUsers);
    for i := 0 to |schedules|
      invariant rows == MergeTotals(FreshTallyRows(allUsers), schedules[..i])
    {
      assert schedules[..i + 1][..i] == schedules[..i];
      var uds := schedules[i];
      var k := FirstRowOf(rows, uds.userId);
      if k >= 0 {
        rows := rows[k := rows[k][DateProp(uds) := uds.totalManDays]];
      }
    }
    assert schedules[..|schedules|] == schedules;
  }

  /** Two lists of rows that agree everywhere except on property `p`. */
  ghost predicate AgreeExcept(a: seq<Row>, b: seq<Row>, p: string)
  {
    |a| == |b| && forall k :: 0 <= k < |a| ==> a[k] - {p} == b[k] - {p}
  }

  /** Writing the same totals into two lists of rows that agree except on
   *  a property other than the user column keeps them in agreement. */
  lemma {:induction false} MergeTotalsAgreeExcept(a: seq<Row>, b: seq<Row>, totals: seq<DailyTotal>, p: string)
    requires AgreeExcept(a, b, p) && p != "assigned_to_id"
    ensures AgreeExcept(MergeTotals(a, totals), MergeTotals(b, totals), p)
  {
    if totals != [] {
      var prefix := totals[..|totals| - 1];
      var t := totals[|totals| - 1];
      MergeTotalsAgreeExcept(a, b, prefix, p);
      var a', b' := MergeTotals(a, prefix), MergeTotals(b, prefix);
      assert SameUsers(a', b') by {
        forall k | 0 <= k < |a'|
          ensures Get(a'[k], "assigned_to_id") == Get(b'[k], "assigned_to_id")
        {
          assert ("assigned_to_id" in a'[k]) == ("assigned_to_id" in a'[k] - {p});
          assert ("assigned_to_id" in b'[k]) == ("assigned_to_id" in b'[k] - {p});
          if "assigned_to_id" in a'[k] {
            assert a'[k]["assigned_to_id"] == (a'[k] - {p})["assigned_to_id"];
            assert b'[k]["assigned_to_id"] == (b'[k] - {p})["assigned_to_id"];
          }
        }
      }
      FirstRowOfSameUsers(a', b', t.userId);
      var k := FirstRowOf(a', t.userId);
      if k >= 0 {
        var d := DateProp(t);
        UpdateAgreesExcept(a'[k], b'[k], p, DateProp(t), t.totalManDays);
      }
    }
  }

  lemma UpdateAgreesExcept(x: Row, y: Row, p: string, d: string, v: JsValue)
    requires x - {p} == y - {p}
    ensures x[d := v] - {p} == y[d := v] - {p}
  {
    var x', y' := x[d := v] - {p}, y[d := v] - {p};
    forall k | k in x'
      ensures k in y' && x'[k] == y'[k]
    {
      if k != d {
        assert k in x - {p};
        assert (x - {p})[k] == (y - {p})[k];
      }
    }
    forall k | k in y'
      ensures k in x'
    {
      if k != d {
        assert k in y - {p};
      }
    }
  }

  /** The footer a reload builds equals the one the page was first built
   *  with, property for property, except for the `project_id` that only
   *  the first one sets. */
  lemma TallyMatchesFirstBuild(allUsers: seq<Row>, schedules: seq<DailyTotal>)
    ensures AgreeExcept(MergeTotals(FreshTallyRows(allUsers), schedules), MergeTotals(TallyRows(allUsers), schedules), "project_id")
  {
    var a, b := FreshTallyRows(allUsers), TallyRows(allUsers);
    forall k | 0 <= k < |a|
      ensures a[k] - {"project_id"} == b[k] - {"project_id"}
    {
      assert a[k] == TallyRow(allUsers[k]) - {"project_id"};
    }
    MergeTotalsAgreeExcept(a, b, schedules, "project_id");
  }

  /** The control row `reload` pushes for `project`. */
  function ReloadControlRow(project: Row): (row: Row)
    ensures row == Control.ControlRow(project)
  {
    map[
      "id" := Null,
      "project_id" := Get(project, "id"),
      "identifier" := Get(project, "identifier"),
      "name" := Get(project, "name"),
      "subject" := Get(project, "name"),
      "description" := Str("プロジェクト管理"),
      "estimated_days" := Get(project, "estimated_days"),
      "schedule_days" := Get(project, "schedule_days"),
      "check_days" := Get(project, "check_days"),
      "start_date" := Get(project, "project_start_date"),
      "end_date" := Get(project, "end_date"),
      "is_project_control_row" := Bool(true)
    ][ToText(Get(project, "start_date")) := Str("1")][ToText(Get(project, "end_date")) := Str("1")]
  }

  /** The milestone row literal of `reload`: the same fields as the first
   *  build's. */
  function ReloadMilestoneLiteral(version: Row): (row: Row)
    ensures row == Milestones.MilestoneRowLiteral(version)
  {
    map[
      "id" := Null,
      "project_id" := Get(version, "project_id"),
      "version_id" := Get(version, "id"),
      "subject" := Get(version, "name"),
      "description" := Str("マイルストーン"),
      "estimated_days" := Str("-"),
      "schedule_days" := Str("-"),
      "check_days" := Str("-"),
      "start_date" := Get(version, "version_start_date"),
      "end_date" := Get(version, "effective_date"),
      "is_milestone_row" := Bool(true)
    ]
  }

  /** The milestone row `reload` pushes for `version`: its two `'1'`
   *  markers go under the version's `start_date` and `end_date`
   *  properties. */
  function ReloadMilestoneRow(version: Row): (row: Row)
    ensures Get(row, ToText(Get(version, "start_date"))) == Str("1")
    ensures Get(row, ToText(Get(version, "end_date"))) == Str("1")
    ensures forall k :: k != ToText(Get(version, "start_date")) && k != ToText(Get(version, "end_date")) ==>
      Get(row, k) == Get(ReloadMilestoneLiteral(version), k)
  {
    ReloadMilestoneLiteral(version)[ToText(Get(version, "start_date")) := Str("1")][ToText(Get(version, "end_date")) := Str("1")]
  }

  /** Two `'1'` markers leave every other property as it was. */
  lemma MarkersKeepFields(literal: Row, a: string, b: string, k: string)
    requires k != a && k != b
    ensures Get(literal[a := Str("1")][b := Str("1")], k) == Get(literal, k)
  {
  }

  /** The reload's milestone row is the first build's when the version's
   *  `start_date`/`end_date` carry its start and effective dates. */
  lemma ReloadMilestoneRowWithVersionDates(version: Row)
    requires Get(version, "start_date") == Get(version, "version_start_date")
    requires Get(version, "end_date") == Get(version, "effective_date")
    ensures ReloadMilestoneRow(version) == Milestones.MilestoneRow(version)
  {
  }

  /** For a version record without `start_date` and `end_date`
   *  properties, the only marker is the one under `"undefined"`. */
  lemma ReloadMilestoneRowWithoutVersionDates(version: Row)
    requires "start_date" !in version && "end_date" !in version
    ensures ReloadMilestoneRow(version).Keys == Milestones.ROW_KEYS + {"undefined"}
    ensures ReloadMilestoneRow(version)["undefined"] == Str("1")
  {
    assert ToText(Undefined) == "undefined";
  }

  /** Whatever its markers, the reload's milestone row spans the same
   *  merged cell as the first build's: both read `start_date` and
   *  `end_date`, which the markers do not overwrite. */
  lemma ReloadMilestoneRowSameCell(version: Row, dayKeys: seq<string>, r: int)
    requires ToText(Get(version, "start_date")) !in Milestones.ROW_KEYS && ToText(Get(version, "end_date")) !in Milestones.ROW_KEYS
    requires ToText(Get(version, "version_start_date")) !in Milestones.ROW_KEYS
    requires ToText(Get(version, "effective_date")) !in Milestones.ROW_KEYS
    ensures CellOf(dayKeys, ReloadMilestoneRow(version), r, Milestones.FLAG) == CellOf(dayKeys, Milestones.MilestoneRow(version), r, Milestones.FLAG)
  {
    var literal := Milestones.MilestoneRowLiteral(version);
    var a, b := ToText(Get(version, "start_date")), ToText(Get(version, "end_date"));
    var a', b' := ToText(Get(version, "version_start_date")), ToText(Get(version, "effective_date"));
    var row, first := ReloadMilestoneRow(version), Milestones.MilestoneRow(version);
    assert Milestones.FLAG in Milestones.ROW_KEYS && "start_date" in Milestones.ROW_KEYS && "end_date" in Milestones.ROW_KEYS;
    MarkersKeepFields(literal, a, b, Milestones.FLAG);
    MarkersKeepFields(literal, a', b', Milestones.FLAG);
    MarkersKeepFields(literal, a, b, "start_date");
    MarkersKeepFields(literal, a', b', "start_date");
    MarkersKeepFields(literal, a, b, "end_date");
    MarkersKeepFields(literal, a', b', "end_date");
    SameCell(dayKeys, row, first, r, Milestones.FLAG);
  }

  /** A merged cell reads only the flag and the two date properties. */
  lemma SameCell(dayKeys: seq<string>, x: Row, y: Row, r: int, flag: string)
    requires Get(x, flag) == Get(y, flag)
    requires Get(x, "start_date") == Get(y, "start_date") && Get(x, "end_date") == Get(y, "end_date")
    ensures CellOf(dayKeys, x, r, flag) == CellOf(dayKeys, y, r, flag)
  {
    assert Spanned(x, flag) == Spanned(y, flag);
    assert RowStart(dayKeys, x) == RowStart(dayKeys, y) && RowEnd(dayKeys, x) == RowEnd(dayKeys, y);
  }

  /** The control rows `reload` builds: the rows the page first built. */
  function ControlRowsOf(projects: seq<Row>): (rows: seq<Row>)
    ensures |rows| == |projects|
    ensures forall i :: 0 <= i < |projects| ==> rows[i] == Control.ControlRow(projects[i])
  {
    seq(|projects|, i requires 0 <= i < |projects| => ReloadControlRow(projects[i]))
  }

  /** The milestone rows `reload` builds, in payload order. */
  function MilestoneRowsOf(versions: seq<Row>): (rows: seq<Row>)
    ensures |rows| == |versions|
    ensures forall i :: 0 <= i < |versions| ==> rows[i] == ReloadMilestoneRow(versions[i])
  {
    seq(|versions|, i requires 0 <= i < |versions| => ReloadMilestoneRow(versions[i]))
  }

  /** `projectControlRows.concat(milestoneRows).concat(issueRows)`: the
   *  control rows, then the milestone rows, then the issue rows, each group
   *  in payload order, with control rows as the page first builds them. */
  function RowsData(data: GanttData, versions: seq<Row>): (rows: seq<Row>)
    ensures |rows| == |data.projects| + |versions| + |data.issues|
    ensures forall i :: 0 <= i < |data.projects| ==> rows[i] == Control.ControlRow(data.projects[i])
    ensures forall i :: 0 <= i < |versions| ==> rows[|data.projects| + i] == ReloadMilestoneRow(versions[i])
    ensures forall i :: 0 <= i < |data.issues| ==> rows[|data.projects| + |versions| + i] == TransformIssueToRow(data.issues[i])
  {
    ControlRowsOf(data.projects) + MilestoneRowsOf(versions) + CreateHandsontable.IssueRows(data.issues)
  }

  /** What a reload shows. */
  datatype Screen = Screen(mainData: seq<Row>, mergeCells: seq<MergeCell>, footerData: seq<Row>)

  /** The grids rebuilt from `data`, or `None` when `data.versions.forEach`
   *  throws because the payload has no `versions`. */
  function Rebuilt(controlKeys: seq<string>, milestoneKeys: seq<string>, data: GanttData, allUsers: seq<Row>): (r: Option<Screen>)
    ensures r.None? <==> data.versions.None?
    ensures r.Some? ==>
      var sheet := CreateHandsontable.Built(controlKeys, milestoneKeys, RowsData(data, data.versions.value));
      r.value.mainData == sheet.data && r.value.mergeCells == sheet.mergeCells
    ensures r.Some? ==> |r.value.footerData| == |allUsers|
  {
    if data.versions.None? then None
    else
      var rows := RowsData(data, data.versions.value);
      var marked := MarkAll(controlKeys, rows, Control.FLAG);
      Some(Screen(MarkAll(milestoneKeys, marked, Milestones.FLAG),
                  PlanCells(controlKeys, rows, Control.FLAG) + PlanCells(milestoneKeys, marked, Milestones.FLAG),
                  MergeTotals(FreshTallyRows(allUsers), data.userDailySchedules)))
  }

  /** As written, a reload whose fetch fails keeps the default without
   *  `versions` and stops with a `TypeError` before either grid is
   *  updated. */
  lemma FailedReloadThrowsAsWritten(controlKeys: seq<string>, milestoneKeys: seq<string>, allUsers: seq<Row>)
    ensures Rebuilt(controlKeys, milestoneKeys, Received(None, DEFAULT_DATA), allUsers) == None
  {
  }

  /** With an empty `versions` in the default, a failed fetch empties the
   *  main grid, leaves no merged cells, and resets the footer to the
   *  users' bare tally rows. */
  lemma FailedReloadEmptiesGrid(controlKeys: seq<string>, milestoneKeys: seq<string>, allUsers: seq<Row>)
    ensures Rebuilt(controlKeys, milestoneKeys, Received(None, FIXED_DEFAULT_DATA), allUsers)
      == Some(Screen([], [], FreshTallyRows(allUsers)))
  {
    var rows := RowsData(FIXED_DEFAULT_DATA, []);
    assert ControlRowsOf([]) == [] && MilestoneRowsOf([]) == [] && CreateHandsontable.IssueRows([]) == [];
    assert rows == [];
    assert MarkAll(controlKeys, rows, Control.FLAG) == [];
    assert MergeTotals(FreshTallyRows(allUsers), []) == FreshTallyRows(allUsers);
  }

  /** The merged cells of a rebuilt grid: the control rows' first, then
   *  the milestone rows', each set only on rows of its own kind. */
  lemma {:induction false} RebuiltCellsBelongToTheirRows(controlKeys: seq<string>, milestoneKeys: seq<string>, data: GanttData, allUsers: seq<Row>)
    requires data.versions.Some?
    ensures var screen := Rebuilt(controlKeys, milestoneKeys, data, allUsers).value;
      var rows := RowsData(data, data.versions.value);
      var n := |PlanCells(controlKeys, rows, Control.FLAG)|;
      && (forall i :: 0 <= i < n ==>
            0 <= screen.mergeCells[i].row < |rows| && Truthy(Get(rows[screen.mergeCells[i].row], Control.FLAG)))
      && (forall i :: n <= i < |screen.mergeCells| ==>
            0 <= screen.mergeCells[i].row < |rows|
            && Truthy(Get(MarkAll(controlKeys, rows, Control.FLAG)[screen.mergeCells[i].row], Milestones.FLAG)))
  {
    var rows := RowsData(data, data.versions.value);
    var marked := MarkAll(controlKeys, rows, Control.FLAG);
    CellsShape(controlKeys, rows, Control.FLAG);
    CellsShape(milestoneKeys, marked, Milestones.FLAG);
  }

  class ReloadManager {
    const controlRows: Control.ProjectControlRowsGenerator
    const milestoneRows: Milestones.MilestoneRowsGenerator
    /** The main grid's data and merged cells. */
    var mainData: seq<Row>
    var mergeCells: seq<MergeCell>
    /** The footer grid's data. */
    var footerData: seq<Row>
    /** `window.issueArray`. */
    var issueArray: seq<IssueJson>
    /** Whether the loading indicator is displayed. */
    var loadingShown: bool

    constructor(controlRows: Control.ProjectControlRowsGenerator, milestoneRows: Milestones.MilestoneRowsGenerator,
                mainData: seq<Row>, mergeCells: seq<MergeCell>, footerData: seq<Row>, issueArray: seq<IssueJson>)
      ensures this.controlRows == controlRows && this.milestoneRows == milestoneRows
      ensures this.mainData == mainData && this.mergeCells == mergeCells
      ensures this.footerData == footerData && this.issueArray == issueArray
      ensures !loadingShown
    {
      this.controlRows := controlRows;
      this.milestoneRows := milestoneRows;
      this.mainData := mainData;
      this.mergeCells := mergeCells;
      this.footerData := footerData;
      this.issueArray := issueArray;
      loadingShown := false;
    }

    /** `reloadTallyRows()`: only the footer is rebuilt. */
    method ReloadTallyRows(response: Option<GanttData>, allUsers: seq<Row>)
      modifies this
      ensures footerData == MergeTotals(FreshTallyRows(allUsers), Received(response, DEFAULT_DATA).userDailySchedules)
      ensures mainData == old(mainData) && mergeCells == old(mergeCells) && issueArray == old(issueArray)
      ensures !loadingShown
    {
      loadingShown := true;
      var data := Received(response, DEFAULT_DATA);
      var tallyRows := BuildTallyRows(allUsers, data.userDailySchedules);
      footerData := tallyRows;
      loadingShown := false;
    }

    /** `reload()`. A payload without `versions` throws once
     *  `window.issueArray` is set: the grids stay as they were and the
     *  loading indicator stays up. */
    method Reload(response: Option<GanttData>, allUsers: seq<Row>) returns (threw: bool)
      modifies this
      ensures var data := Received(response, FIXED_DEFAULT_DATA);
        var screen := Rebuilt(controlRows.dayKeys, milestoneRows.dayKeys, data, allUsers);
        && threw == screen.None?
        && issueArray == data.issues
        && loadingShown == threw
        && (screen.Some? ==> mainData == screen.value.mainData && mergeCells == screen.value.mergeCells
                             && footerData == screen.value.footerData)
        && (screen.None? ==> mainData == old(mainData) && mergeCells == old(mergeCells) && footerData == old(footerData))
    {
      loadingShown := true;
      var data := Received(response, FIXED_DEFAULT_DATA);
      var screen := Rebuild(data, allUsers);
      issueArray := data.issues;
      if screen.None? {
        return true;
      }
      mainData := screen.value.mainData;
      mergeCells := screen.value.mergeCells;
      footerData := screen.value.footerData;
      loadingShown := false;
      threw := false;
    }

    /** The rows, merged cells and footer rows `reload` builds from `data`:
     *  the footer's tally rows first, then, unless `data.versions.forEach`
     *  throws, the main rows and both generators' merge passes over them. */
    method Rebuild(data: GanttData, allUsers: seq<Row>) returns (screen: Option<Screen>)
      ensures screen == Rebuilt(controlRows.dayKeys, milestoneRows.dayKeys, data, allUsers)
    {
      var tallyRows := BuildTallyRows(allUsers, data.userDailySchedules);
      if data.versions.None? {
        return None;
      }
      var rowsData := BuildRows(data);
      var rows, cells := MarkGrid(rowsData);
      screen := Some(Screen(rows, cells, tallyRows));
    }

    /** The two `getMergeCells` passes over the rows, the control rows'
     *  generator first. */
    method MarkGrid(rowsData: seq<Row>) returns (rows: seq<Row>, cells: seq<MergeCell>)
      ensures var marked := MarkAll(controlRows.dayKeys, rowsData, Control.FLAG);
        && rows == MarkAll(milestoneRows.dayKeys, marked, Milestones.FLAG)
        && cells == PlanCells(controlRows.dayKeys, rowsData, Control.FLAG) + PlanCells(milestoneRows.dayKeys, marked, Milestones.FLAG)
    {
      var grid := new Row[|rowsData|](r requires 0 <= r < |rowsData| => rowsData[r]);
      assert grid[..] == rowsData;
      var controlCells := controlRows.GetMergeCells(grid);
      ghost var marked := grid[..];
      assert marked == MarkAll(controlRows.dayKeys, rowsData, Control.FLAG);
      var milestoneCells := milestoneRows.GetMergeCells(grid);
      assert grid[..] == MarkAll(milestoneRows.dayKeys, marked, Milestones.FLAG);
      rows := grid[..];
      cells := controlCells + milestoneCells;
    }
  }

  /** The loops over `data.projects` and `data.versions`, then the issue
   *  rows, concatenated. */
  method BuildRows(data: GanttData) returns (rowsData: seq<Row>)
    requires data.versions.Some?
    ensures rowsData == RowsData(data, data.versions.value)
  {
    var projectControlRows := PushControlRows(data.projects);
    var milestoneRows := PushMilestoneRows(data.versions.value);
    var issueRows := CreateHandsontable.IssueRows(data.issues);
    rowsData := projectControlRows + milestoneRows + issueRows;
  }

  /** `data.projects.forEach(project => { ...; projectControlRows.push(row) })`. */
  method PushControlRows(projects: seq<Row>) returns (rows: seq<Row>)
    ensures rows == ControlRowsOf(projects)
  {
    rows := [];
    for i := 0 to |projects|
      invariant |rows| == i
      invariant forall k :: 0 <= k < i ==> rows[k] == ReloadControlRow(projects[k])
    {
      rows := rows + [ReloadControlRow(projects[i])];
    }
  }

  /** `data.versions.forEach(version => { ...; milestoneRows.push(row) })`. */
  method PushMilestoneRows(versions: seq<Row>) returns (rows: seq<Row>)
    ensures rows == MilestoneRowsOf(versions)
  {
    rows := [];
    for i := 0 to |versions|
      invariant |rows| == i
      invariant forall k :: 0 <= k < i ==> rows[k] == ReloadMilestoneRow(versions[k])
    {
      rows := rows + [ReloadMilestoneRow(versions[i])];
    }
  }

  /** `getLatestUpdateTimeStamp()`: the `results` of the answer, or
   *  `undefined` when the fetch fails. */
  function Probe(response: Option<JsValue>): (stamp: JsValue)
    ensures response.None? ==> stamp.Undefined?
  {
    if response.Some? then response.value else Undefined
  }

  /** How many reloads `checkUpdate` starts over successive probes, from
   *  the last seen stamp `current`. */
  function ReloadCount(current: JsValue, stamps: seq<JsValue>): nat
    decreases |stamps|
  {
    if stamps == [] then 0
    else if !StrictEquals(current, stamps[0]) then 1 + ReloadCount(stamps[0], stamps[1..])
    else ReloadCount(current, stamps[1..])
  }

  /** The last seen stamp after successive probes. */
  function LastSeen(current: JsValue, stamps: seq<JsValue>): JsValue
    decreases |stamps|
  {
    if stamps == [] then current
    else if !StrictEquals(current, stamps[0]) then LastSeen(stamps[0], stamps[1..])
    else LastSeen(current, stamps[1..])
  }

  /** No reload happens exactly when every probe equals the stamp seen
   *  first. */
  lemma {:induction false} NoReloadIffUnchanged(current: JsValue, stamps: seq<JsValue>)
    ensures ReloadCount(current, stamps) == 0 <==> forall i :: 0 <= i < |stamps| ==> StrictEquals(current, stamps[i])
  {
    if stamps != [] {
      NoReloadIffUnchanged(current, stamps[1..]);
      assert forall i :: 1 <= i < |stamps| ==> stamps[i] == stamps[1..][i - 1];
    }
  }

  /** A failed probe after a real stamp reloads; a second failed probe in
   *  a row does not. */
  lemma FailedProbesReloadOnce(stamp: string)
    ensures ReloadCount(Str(stamp), [Probe(None), Probe(None)]) == 1
  {
    var stamps := [Probe(None), Probe(None)];
    assert stamps[1..] == [Undefined] && [Undefined][1..] == [];
    assert ReloadCount(Undefined, [Undefined]) == ReloadCount(Undefined, []);
  }

  /** The `current` that `autoReload`'s timer callback keeps. */
  class UpdateWatcher {
    var current: JsValue

    constructor(first: JsValue)
      ensures current == first
    {
      current := first;
    }

    /** `checkUpdate()` with the probed stamp: a reload when it differs
     *  from the last seen one, which it then replaces. */
    method CheckUpdate(timeStamp: JsValue) returns (reload: bool)
      modifies this
      ensures reload <==> !StrictEquals(old(current), timeStamp)
      ensures current == (if reload then timeStamp else old(current))
    {
      reload := false;
      if !StrictEquals(current, timeStamp) {
        reload := true;
        current := timeStamp;
      }
    }

    /** The timer chain over successive probes. */
    method Poll(stamps: seq<JsValue>) returns (reloads: nat)
      modifies this
      ensures reloads == ReloadCount(old(current), stamps)
      ensures current == LastSeen(old(current), stamps)
    {
      reloads := 0;
      var i := 0;
      while i < |stamps|
        invariant 0 <= i <= |stamps|
        invariant reloads + ReloadCount(current, stamps[i..]) == ReloadCount(old(current), stamps)
        invariant LastSeen(current, stamps[i..]) == LastSeen(old(current), stamps)
      {
        assert stamps[i..][1..] == stamps[i + 1..];
        var reload := CheckUpdate(stamps[i]);
        if reload {
          reloads := reloads + 1;
        }
        i := i + 1;
      }
    }
  }
}
