/** `RowDeleter`: deletes the issues of the selected rows on the server and
 *  removes their rows, refusing a selection that holds a project-control
 *  or milestone row. */
module RowDeleter {
  import opened Optional
  import opened Js
  import opened Grid
  import opened HotTable

  /** `rowData?.is_project_control_row || rowData?.is_milestone_row`. */
  predicate Blocked(rowData: Option<Row>)
  {
    rowData.Some? && IsControlOrMilestone(rowData.value)
  }

  /** No row from `start` to `start + n - 1` is blocked. */
  predicate NoneBlocked(table: seq<Row>, start: int, n: nat)
  {
    forall r :: start <= r < start + n ==> !Blocked(RowAt(table, r))
  }

  /** `rows` and `invalidRows` once the loop has looked at the `n` rows from
   *  `start` on. */
  function Sorted(table: seq<Row>, start: int, n: nat): (seq<Option<Row>>, seq<Option<Row>>)
  {
    if n == 0 then ([], [])
    else
      var (rows, invalidRows) := Sorted(table, start, n - 1);
      var rowData := RowAt(table, start + n - 1);
      if Blocked(rowData) then (rows, invalidRows + [rowData]) else (rows + [rowData], invalidRows)
  }

  /** Every row looked at lands in exactly one list; `invalidRows` stays
   *  empty exactly when no row is blocked, and then `rows` holds every row
   *  of the range in order. So `rows` is never empty once `invalidRows` is,
   *  and the `rows.length === 0` check can never stop a deletion. */
  lemma {:induction false} SortedPartitions(table: seq<Row>, start: int, n: nat)
    ensures |Sorted(table, start, n).0| + |Sorted(table, start, n).1| == n
    ensures |Sorted(table, start, n).1| == 0 <==> NoneBlocked(table, start, n)
    ensures |Sorted(table, start, n).1| == 0 ==> Sorted(table, start, n).0 == SourceRows(table, start, n)
  {
    if n > 0 {
      SortedPartitions(table, start, n - 1);
      var last := start + n - 1;
      if Blocked(RowAt(table, last)) {
        assert !NoneBlocked(table, start, n);
      } else if NoneBlocked(table, start, n - 1) {
        assert NoneBlocked(table, start, n);
      } else {
        var r :| start <= r < start + n - 1 && Blocked(RowAt(table, r));
        assert !NoneBlocked(table, start, n);
      }
    }
  }

  /** How a deletion ended. */
  datatype DeleteOutcome =
    | NoRequest  // no selection, or the user declined the confirmation
    | Refused    // the selection holds a row that is not an issue
    | Reported   // the request failed and an alert said so
    | Deleted    // the rows were removed from the table

  /** The command object, bound to the grid's issue table. */
  class RowDeleter {
    const hot: Table

    constructor(hot: Table)
      ensures this.hot == hot
    {
      this.hot := hot;
    }

    /** The loop from `startRow` to `endRow`, putting each row into `rows`
     *  or `invalidRows`. */
    method Collect(startRow: int, count: nat) returns (rows: seq<Option<Row>>, invalidRows: seq<Option<Row>>)
      ensures (rows, invalidRows) == Sorted(hot.rows, startRow, count)
    {
      rows, invalidRows := [], [];
      for i := 0 to count
        invariant (rows, invalidRows) == Sorted(hot.rows, startRow, i)
      {
        var rowData := RowAt(hot.rows, startRow + i);
        if Blocked(rowData) {
          invalidRows := invalidRows + [rowData];
          continue;
        }
        rows := rows + [rowData];
      }
    }

    /** `deleteSelectedRows()`: a selection holding a control or milestone
     *  row is refused; otherwise, once confirmed, every selected row is sent
     *  in order and, when the request succeeds, exactly the selected rows
     *  are removed. */
    method DeleteSelectedRows(sel: Option<Selection>, confirmed: bool, reply: Reply)
      returns (payload: Option<seq<Option<Row>>>, outcome: DeleteOutcome)
      modifies hot
      ensures sel.None? ==> payload.None? && outcome == NoRequest && hot.rows == old(hot.rows)
      ensures sel.Some? ==>
        var startRow := StartRow(sel.value);
        var count := EndRow(sel.value) - startRow + 1;
        && (!NoneBlocked(old(hot.rows), startRow, count) ==> payload.None? && outcome == Refused && hot.rows == old(hot.rows))
        && (NoneBlocked(old(hot.rows), startRow, count) && !confirmed ==>
              payload.None? && outcome == NoRequest && hot.rows == old(hot.rows))
        && (NoneBlocked(old(hot.rows), startRow, count) && confirmed ==>
              && payload == Some(SourceRows(old(hot.rows), startRow, count))
              && (reply.Failed? ==> outcome == Reported && hot.rows == old(hot.rows))
              && (reply.Answered? ==> outcome == Deleted && hot.rows == Removed(old(hot.rows), startRow, count)))
    {
      if sel.None? {
        return None, NoRequest;
      }
      var startRow := StartRow(sel.value);
      var endRow := EndRow(sel.value);
      var count := endRow - startRow + 1;
      var rows, invalidRows := Collect(startRow, count);
      SortedPartitions(hot.rows, startRow, count);
      if |invalidRows| > 0 {
        return None, Refused;
      }
      if !confirmed {
        return None, NoRequest;
      }
      payload := Some(rows);
      if reply.Failed? {
        return payload, Reported;
      }
      var actualCount := |rows|;
      hot.Alter(RemoveRow, startRow, actualCount);
      outcome := Deleted;
    }
  }
}
