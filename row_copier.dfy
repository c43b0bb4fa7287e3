/** `RowCopier`: copies the issues of the selected rows on the server and
 *  shows the copies as new rows directly below the selection. */
module RowCopier {
  import opened Optional
  import opened Js
  import opened Grid
  import opened HotTable

  /** The table after a successful `copy_issues`: one row per returned id
   *  inserted below the bottom selected row, each holding its id. */
  function Copied(rows: seq<Row>, endRow: int, newIds: seq<JsValue>): seq<Row>
  {
    WithIds(Altered(rows, InsertRowBelow, endRow, |newIds|), endRow + 1, newIds)
  }

  /** With the selection inside the table, the copies sit in one block
   *  directly below the selection, in the order of the returned ids; the
   *  rows down to the selection's bottom stay, the rows after it move down
   *  below the block. */
  lemma {:induction false} CopiesBelowSelection(rows: seq<Row>, sel: Selection, newIds: seq<JsValue>)
    requires 0 <= StartRow(sel) && EndRow(sel) < |rows|
    ensures var at := EndRow(sel) + 1;
      var after := Copied(rows, EndRow(sel), newIds);
      && |after| == |rows| + |newIds|
      && (forall j :: 0 <= j < at ==> after[j] == rows[j])
      && (forall i :: 0 <= i < |newIds| ==> after[at + i] == map["id" := newIds[i]])
      && (forall j :: at <= j < |rows| ==> after[j + |newIds|] == rows[j])
  {
    var at := EndRow(sel) + 1;
    assert Copied(rows, EndRow(sel), newIds) == WithIds(Inserted(rows, at, |newIds|), at, newIds);
    NewRowsCarryIds(rows, at, newIds);
  }

  /** The command object, bound to the grid's issue table. */
  class RowCopier {
    const hot: Table

    constructor(hot: Table)
      ensures this.hot == hot
    {
      this.hot := hot;
    }

    /** The `issue_ids` loop: the id of each of the `rowsToCopy` rows from
     *  `startRow` on, in order and without filtering. */
    method CollectIds(startRow: int, rowsToCopy: nat) returns (issueIds: seq<JsValue>)
      ensures issueIds == Column(hot.rows, startRow, rowsToCopy, "id")
    {
      issueIds := [];
      for i := 0 to rowsToCopy
        invariant issueIds == Column(hot.rows, startRow, i, "id")
      {
        var srcRow := startRow + i;
        var id := hot.GetId(srcRow);
        issueIds := issueIds + [id];
      }
    }

    /** `copyRowsBelow()`: without a selection nothing is sent; otherwise
     *  the ids of the selected rows are sent; a failed request, or an
     *  answer without `results` (reading its `length` throws), alerts and
     *  leaves the table alone; otherwise the copies are placed and the
     *  grid refreshes. */
    method CopyRowsBelow(sel: Option<Selection>, reply: Reply) returns (payload: Option<seq<JsValue>>, outcome: Outcome)
      modifies hot
      ensures sel.None? ==> payload.None? && outcome == NotSent && hot.rows == old(hot.rows)
      ensures sel.Some? ==> payload == Some(Column(old(hot.rows), StartRow(sel.value), EndRow(sel.value) - StartRow(sel.value) + 1, "id"))
      ensures sel.Some? && (reply.Failed? || reply.results.None?) ==> outcome == Alerted && hot.rows == old(hot.rows)
      ensures sel.Some? && reply.Answered? && reply.results.Some? ==>
        outcome == Refreshed && hot.rows == Copied(old(hot.rows), EndRow(sel.value), reply.results.value)
    {
      if sel.None? {
        return None, NotSent;
      }
      var startRow := StartRow(sel.value);
      var endRow := EndRow(sel.value);
      var rowsToCopy := endRow - startRow + 1;
      var issueIds := CollectIds(startRow, rowsToCopy);
      payload := Some(issueIds);
      if reply.Failed? || reply.results.None? {
        return payload, Alerted;
      }
      var newIssueIds := reply.results.value;
      hot.Alter(InsertRowBelow, endRow, |newIssueIds|);
      var insertStartRow := endRow + 1;
      hot.SetIds(insertStartRow, newIssueIds);
      outcome := Refreshed;
    }
  }
}
