/** `RowInserter`: creates as many empty issues as rows are selected and
 *  shows them as new rows above or below the selection. */
module RowInserter {
  import opened Optional
  import opened Js
  import opened Grid
  import opened HotTable

  /** `{startRow, endRow, count}`. */
  datatype SelectionInfo = SelectionInfo(startRow: int, endRow: int, count: int)

  /** Row `r` lies from `top` to `bottom`. */
  predicate Spans(top: int, bottom: int, r: int)
  {
    top <= r <= bottom
  }

  /** `getSelectionInfo()`: nothing without a selection; otherwise the top
   *  and bottom selected rows, whichever way the user dragged, and how many
   *  rows lie between them. */
  function GetSelectionInfo(sel: Option<Selection>): (info: Option<SelectionInfo>)
    ensures info.Some? <==> sel.Some?
    ensures sel.Some? ==>
      && info.value.count >= 1
      && info.value.count == info.value.endRow - info.value.startRow + 1
      && (forall r :: Spans(info.value.startRow, info.value.endRow, r) <==>
            Spans(sel.value.row1, sel.value.row2, r) || Spans(sel.value.row2, sel.value.row1, r))
  {
    match sel
    case None => None
    case Some(s) =>
      var startRow := StartRow(s);
      var endRow := EndRow(s);
      Some(SelectionInfo(startRow, endRow, endRow - startRow + 1))
  }

  /** `'above'` or `'below'`. */
  datatype Position = Above | Below

  /** The first new row: the top selected row when inserting above, the
   *  row after the bottom one when inserting below. */
  function InsertStart(position: Position, info: SelectionInfo): int
  {
    if position == Above then info.startRow else info.endRow + 1
  }

  /** The table after a successful `create_empty_issues`: `count` rows
   *  inserted at the base row, then the returned ids (`data.results || []`)
   *  written from the first new row on. */
  function Placed(rows: seq<Row>, position: Position, info: SelectionInfo, results: Option<seq<JsValue>>): (after: seq<Row>)
    requires info.count >= 1
    ensures |after| == |rows| + info.count
    ensures var at := InsertStart(position, info);
      0 <= at <= |rows| && results.Some? && |results.value| == info.count ==>
        forall i :: 0 <= i < info.count ==> after[at + i] == map["id" := results.value[i]]
  {
    var action := if position == Above then InsertRowAbove else InsertRowBelow;
    var baseRow := if position == Above then info.startRow else info.endRow;
    WithIds(Altered(rows, action, baseRow, info.count), InsertStart(position, info), results.GetOr([]))
  }

  /** With the selection inside the table and one id per created issue, the
   *  new rows form one block holding the ids in order, directly above the
   *  selection or directly below it; the selected rows and every other old
   *  row keep their order around the block. */
  lemma {:induction false} NewIssuesBesideSelection(rows: seq<Row>, position: Position, sel: Selection, ids: seq<JsValue>)
    requires 0 <= StartRow(sel) && EndRow(sel) < |rows|
    requires |ids| == EndRow(sel) - StartRow(sel) + 1
    ensures var info := GetSelectionInfo(Some(sel)).value;
      var at := InsertStart(position, info);
      var after := Placed(rows, position, info, Some(ids));
      && |after| == |rows| + |ids|
      && (position == Above ==> at == info.startRow)
      && (position == Below ==> at == info.endRow + 1)
      && (forall j :: 0 <= j < at ==> after[j] == rows[j])
      && (forall i :: 0 <= i < |ids| ==> after[at + i] == map["id" := ids[i]])
      && (forall j :: at <= j < |rows| ==> after[j + |ids|] == rows[j])
  {
    var info := GetSelectionInfo(Some(sel)).value;
    var at := InsertStart(position, info);
    PlacedIsInsertion(rows, position, info, ids);
    NewRowsCarryIds(rows, at, ids);
  }

  /** Placing the rows is inserting one blank row per id at the first new
   *  row and writing the ids there. */
  lemma PlacedIsInsertion(rows: seq<Row>, position: Position, info: SelectionInfo, ids: seq<JsValue>)
    requires info.count == |ids| >= 1
    ensures var at := InsertStart(position, info);
      Placed(rows, position, info, Some(ids)) == WithIds(Inserted(rows, at, |ids|), at, ids)
  {
  }

  /** The command object, bound to the grid's issue table. */
  class RowInserter {
    const hot: Table

    constructor(hot: Table)
      ensures this.hot == hot
    {
      this.hot := hot;
    }

    /** `insertRows(position)`: without a selection nothing is sent;
     *  otherwise the request asks for `count` issues; a failed request
     *  alerts and leaves the table alone; an answer places the new rows and
     *  refreshes. */
    method InsertRows(position: Position, sel: Option<Selection>, reply: Reply) returns (payload: Option<int>, outcome: Outcome)
      modifies hot
      ensures sel.None? ==> payload.None? && outcome == NotSent && hot.rows == old(hot.rows)
      ensures sel.Some? ==> payload == Some(GetSelectionInfo(sel).value.count)
      ensures sel.Some? && reply.Failed? ==> outcome == Alerted && hot.rows == old(hot.rows)
      ensures sel.Some? && reply.Answered? ==>
        outcome == Refreshed && hot.rows == Placed(old(hot.rows), position, GetSelectionInfo(sel).value, reply.results)
    {
      var selectInfo := GetSelectionInfo(sel);
      if selectInfo.None? {
        return None, NotSent;
      }
      var info := selectInfo.value;
      payload := Some(info.count);
      var baseRow := if position == Above then info.startRow else info.endRow;
      if reply.Failed? {
        return payload, Alerted;
      }
      var issueIds := reply.results.GetOr([]);
      var insertAction := if position == Above then InsertRowAbove else InsertRowBelow;
      hot.Alter(insertAction, baseRow, info.count);
      var insertStartRow := if position == Above then info.startRow else info.endRow + 1;
      ghost var inserted := hot.rows;
      hot.SetIds(insertStartRow, issueIds);
      assert hot.rows == WithIds(inserted, InsertStart(position, info), reply.results.GetOr([]));
      outcome := Refreshed;
    }
  }
}
