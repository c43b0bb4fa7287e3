/** `RowDeleter` as the plugin's packaged copy has it: it asks for
 *  confirmation first and sends every selected row, whatever its kind. */
module LegacyRowDeleter {
  import opened Optional
  import opened Js
  import opened Grid
  import opened HotTable
  import Current = RowDeleter

  /** How a deletion ended. */
  datatype DeleteOutcome =
    | NoRequest  // no selection, or the user declined the confirmation
    | Reported   // the request failed and an alert said so
    | Deleted    // the rows were removed from the table

  /** This variant sends a project-control or milestone row along with the
   *  issues: every selected row is in the payload, blocked or not. */
  lemma SendsEveryKindOfRow(table: seq<Row>, sel: Selection, r: int)
    requires StartRow(sel) <= r <= EndRow(sel)
    ensures RowAt(table, r) in SourceRows(table, StartRow(sel), EndRow(sel) - StartRow(sel) + 1)
  {
    var rows := SourceRows(table, StartRow(sel), EndRow(sel) - StartRow(sel) + 1);
    assert rows[r - StartRow(sel)] == RowAt(table, r);
  }

  /** Where the selection holds issue rows only, the two variants send the
   *  same rows: the current one's collected `rows` are this one's payload,
   *  and both remove `count` rows from the top selected row. */
  lemma {:induction false} AgreesWithCurrentOnIssueRows(table: seq<Row>, sel: Selection)
    requires Current.NoneBlocked(table, StartRow(sel), EndRow(sel) - StartRow(sel) + 1)
    ensures var count := EndRow(sel) - StartRow(sel) + 1;
      && Current.Sorted(table, StartRow(sel), count).0 == SourceRows(table, StartRow(sel), count)
      && |Current.Sorted(table, StartRow(sel), count).0| == count
  {
    Current.SortedPartitions(table, StartRow(sel), EndRow(sel) - StartRow(sel) + 1);
  }

  /** The command object, bound to the grid's issue table. */
  class RowDeleter {
    const hot: Table

    constructor(hot: Table)
      ensures this.hot == hot
    {
      this.hot := hot;
    }

    /** The loop from `startRow` to `endRow`: every row, in order. */
    method Collect(startRow: int, count: nat) returns (rows: seq<Option<Row>>)
      ensures rows == SourceRows(hot.rows, startRow, count)
    {
      rows := [];
      for i := 0 to count
        invariant rows == SourceRows(hot.rows, startRow, i)
      {
        rows := rows + [RowAt(hot.rows, startRow + i)];
      }
    }

    /** `deleteSelectedRows()`: once confirmed, every selected row is sent
     *  in order and, when the request succeeds, the `count` selected rows
     *  are removed. */
    method DeleteSelectedRows(sel: Option<Selection>, confirmed: bool, reply: Reply)
      returns (payload: Option<seq<Option<Row>>>, outcome: DeleteOutcome)
      modifies hot
      ensures sel.None? || !confirmed ==> payload.None? && outcome == NoRequest && hot.rows == old(hot.rows)
      ensures sel.Some? && confirmed ==>
        var startRow := StartRow(sel.value);
        var count := EndRow(sel.value) - startRow + 1;
        && payload == Some(SourceRows(old(hot.rows), startRow, count))
        && (reply.Failed? ==> outcome == Reported && hot.rows == old(hot.rows))
        && (reply.Answered? ==> outcome == Deleted && hot.rows == Removed(old(hot.rows), startRow, count))
    {
      if sel.None? {
        return None, NoRequest;
      }
      var startRow := StartRow(sel.value);
      var endRow := EndRow(sel.value);
      var count := endRow - startRow + 1;
      if !confirmed {
        return None, NoRequest;
      }
      var rows := Collect(startRow, count);
      payload := Some(rows);
      if reply.Failed? {
        return payload, Reported;
      }
      hot.Alter(RemoveRow, startRow, count);
      outcome := Deleted;
    }
  }
}
