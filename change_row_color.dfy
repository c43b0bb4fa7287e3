/** `ChangeRowColor`: sends a new background colour for the issues of the
 *  selected rows, with each row's lock version, and reloads the grid. */
module ChangeRowColor {
  import opened Optional
  import opened Js
  import opened Grid
  import opened HotTable
  import opened Constants
  import Control = ProjectControlRowsGenerator
  import Milestones = MilestoneRowsGenerator

  /** `fillYellow`, `fillRed`, `fillGray` and `fillNormal`. */
  datatype Fill = FillYellow | FillRed | FillGray | FillNormal

  /** The `color_id` each command sends. */
  function ColorId(fill: Fill): (c: int)
    ensures c == ROW_COLOR_YELLOW <==> fill == FillYellow
    ensures c == ROW_COLOR_RED <==> fill == FillRed
    ensures c == ROW_COLOR_GRAY <==> fill == FillGray
    ensures c == ROW_COLOR_NORMAL <==> fill == FillNormal
  {
    match fill
    case FillYellow => ROW_COLOR_YELLOW
    case FillRed => ROW_COLOR_RED
    case FillGray => ROW_COLOR_GRAY
    case FillNormal => ROW_COLOR_NORMAL
  }

  /** The four commands send four different colours, and only
   *  `fillNormal` sends the colour of an uncoloured row. */
  lemma ColorIdsDistinct(f: Fill, g: Fill)
    ensures ColorId(f) == ColorId(g) <==> f == g
    ensures ColorId(f) == ROW_COLOR_NORMAL <==> f == FillNormal
  {
  }

  /** `{issue_ids, lock_versions, color_id}`. */
  datatype ColorPayload = ColorPayload(issueIds: seq<JsValue>, lockVersions: seq<JsValue>, colorId: int)

  /** A selection that holds a project-control row sends a `null` issue id
   *  for it. */
  lemma ControlRowSendsNullId(table: seq<Row>, sel: Selection, r: int, project: Row)
    requires StartRow(sel) <= r <= EndRow(sel) && 0 <= r < |table|
    requires table[r] == Control.ControlRow(project)
    requires ToText(Get(project, "start_date")) !in Control.ROW_KEYS
    requires ToText(Get(project, "end_date")) !in Control.ROW_KEYS
    ensures Null in Column(table, StartRow(sel), EndRow(sel) - StartRow(sel) + 1, "id")
  {
    Control.ControlRowFields(project);
    var ids := Column(table, StartRow(sel), EndRow(sel) - StartRow(sel) + 1, "id");
    assert ids[r - StartRow(sel)] == DataAt(table, r, "id");
  }

  /** A selection that holds a milestone row sends a `null` issue id for
   *  it. */
  lemma MilestoneRowSendsNullId(table: seq<Row>, sel: Selection, r: int, version: Row)
    requires StartRow(sel) <= r <= EndRow(sel) && 0 <= r < |table|
    requires table[r] == Milestones.MilestoneRow(version)
    requires ToText(Get(version, "version_start_date")) !in Milestones.ROW_KEYS
    requires ToText(Get(version, "effective_date")) !in Milestones.ROW_KEYS
    ensures Null in Column(table, StartRow(sel), EndRow(sel) - StartRow(sel) + 1, "id")
  {
    Milestones.MilestoneRowFields(version);
    var ids := Column(table, StartRow(sel), EndRow(sel) - StartRow(sel) + 1, "id");
    assert ids[r - StartRow(sel)] == DataAt(table, r, "id");
  }

  /** The command object, bound to the grid's issue table. */
  class ChangeRowColor {
    const hot: Table

    constructor(hot: Table)
      ensures this.hot == hot
    {
      this.hot := hot;
    }

    /** `getIds()`: without a selection reading `selected[0]` throws
     *  (nothing); otherwise one issue id and one lock version per selected
     *  row, top to bottom, in two lists of equal length. */
    method GetIds(sel: Option<Selection>) returns (ids: Option<(seq<JsValue>, seq<JsValue>)>)
      ensures sel.None? <==> ids.None?
      ensures sel.Some? ==>
        var startRow := StartRow(sel.value);
        var count := EndRow(sel.value) - startRow + 1;
        && ids.value.0 == Column(hot.rows, startRow, count, "id")
        && ids.value.1 == Column(hot.rows, startRow, count, "lock_version")
        && |ids.value.0| == |ids.value.1| == count
    {
      if sel.None? {
        return None;
      }
      var startRow := StartRow(sel.value);
      var endRow := EndRow(sel.value);
      var issueIds := [];
      var lockVersions := [];
      var row := startRow;
      while row <= endRow
        invariant startRow <= row <= endRow + 1
        invariant issueIds == Column(hot.rows, startRow, row - startRow, "id")
        invariant lockVersions == Column(hot.rows, startRow, row - startRow, "lock_version")
      {
        issueIds := issueIds + [DataAt(hot.rows, row, "id")];
        lockVersions := lockVersions + [DataAt(hot.rows, row, "lock_version")];
        row := row + 1;
      }
      return Some((issueIds, lockVersions));
    }

    /** `fill(color_id)`: without a selection the error from `getIds`
     *  escapes before anything is sent and no alert is shown; otherwise the
     *  ids, lock versions and colour are sent, a failed request alerts, and
     *  an answer reloads the grid. The table itself is not touched. */
    method Fill(fill: Fill, sel: Option<Selection>, reply: Reply) returns (payload: Option<ColorPayload>, outcome: Outcome)
      ensures sel.None? ==> payload.None? && outcome == NotSent
      ensures sel.Some? ==>
        var startRow := StartRow(sel.value);
        var count := EndRow(sel.value) - startRow + 1;
        payload == Some(ColorPayload(Column(hot.rows, startRow, count, "id"),
                                     Column(hot.rows, startRow, count, "lock_version"), ColorId(fill)))
      ensures sel.Some? && reply.Failed? ==> outcome == Alerted
      ensures sel.Some? && reply.Answered? ==> outcome == Refreshed
    {
      var ids := GetIds(sel);
      if ids.None? {
        return None, NotSent;
      }
      var (issueIds, lockVersions) := ids.value;
      payload := Some(ColorPayload(issueIds, lockVersions, ColorId(fill)));
      outcome := if reply.Failed? then Alerted else Refreshed;
    }
  }
}
