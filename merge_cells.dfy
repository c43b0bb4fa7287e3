/** The `getMergeCells` pass the project-control and milestone generators
 *  share (they differ only in the flag they look for): for every flagged
 *  row with a start and an end date, the run of day columns from the first
 *  day key on or after the start to the last day key on or before the end
 *  becomes one merged cell, and the row gets a `'1'` under the day key where
 *  the run starts. */
module MergeCells {
  import opened Optional
  import opened Constants
  import opened Calendar
  import opened Js
  import opened Grid

  /** `new Date(d)` for every day key, in key order. */
  function KeyDays(dayKeys: seq<string>): (days: seq<Option<Date>>)
    ensures |days| == |dayKeys|
  {
    seq(|dayKeys|, i requires 0 <= i < |dayKeys| => DayOf(Str(dayKeys[i])))
  }

  /** `dayKeys.findIndex(d => new Date(d) >= startDate)`, over the keys'
   *  dates. */
  function StartIndex(days: seq<Option<Date>>, start: Option<Date>): (i: int)
    ensures -1 <= i < |days|
    ensures i >= 0 ==> NotBefore(days[i], start)
  {
    if days == [] then -1
    else if NotBefore(days[0], start) then 0
    else
      var i := StartIndex(days[1..], start);
      if i == -1 then -1 else i + 1
  }

  /** `dayKeys.reduce((last, d, i) => new Date(d) <= endDate ? i : last, -1)`,
   *  over the keys' dates. */
  function EndIndex(days: seq<Option<Date>>, end: Option<Date>): (i: int)
    ensures -1 <= i < |days|
    ensures i >= 0 ==> NotAfter(days[i], end)
  {
    if days == [] then -1
    else if NotAfter(days[|days| - 1], end) then |days| - 1
    else EndIndex(days[..|days| - 1], end)
  }

  /** No date before the start index is on or after the start; none at all
   *  when the index is -1. */
  lemma {:induction false} StartIndexIsFirst(days: seq<Option<Date>>, start: Option<Date>)
    ensures var i := StartIndex(days, start);
      forall j :: 0 <= j < |days| && (i == -1 || j < i) ==> !NotBefore(days[j], start)
  {
    if days != [] && !NotBefore(days[0], start) {
      StartIndexIsFirst(days[1..], start);
    }
  }

  /** No date after the end index is on or before the end. */
  lemma {:induction false} EndIndexIsLast(days: seq<Option<Date>>, end: Option<Date>)
    ensures forall j :: EndIndex(days, end) < j < |days| ==> !NotAfter(days[j], end)
  {
    if days != [] && !NotAfter(days[|days| - 1], end) {
      EndIndexIsLast(days[..|days| - 1], end);
    }
  }

  /** The property `row[dayKeys[i]]` writes: `dayKeys[-1]` is `undefined`,
   *  whose property name is `"undefined"`. */
  function MarkerKey(dayKeys: seq<string>, i: int): string
  {
    if 0 <= i < |dayKeys| then dayKeys[i] else ToText(Undefined)
  }

  /** The guard `row[flag] && row.start_date && row.end_date`. */
  predicate Spanned(row: Row, flag: string)
  {
    Truthy(Get(row, flag)) && Truthy(Get(row, "start_date")) && Truthy(Get(row, "end_date"))
  }

  function RowStart(dayKeys: seq<string>, row: Row): (i: int)
    ensures -1 <= i < |dayKeys|
  {
    StartIndex(KeyDays(dayKeys), DayOf(Get(row, "start_date")))
  }

  function RowEnd(dayKeys: seq<string>, row: Row): (i: int)
    ensures -1 <= i < |dayKeys|
  {
    EndIndex(KeyDays(dayKeys), DayOf(Get(row, "end_date")))
  }

  /** The merged cell of row `r` as `getMergeCells` computes it: the guard
   *  `startColIndex <= endColIndex` lets a start index of -1 through. */
  function CellOfAsWritten(dayKeys: seq<string>, row: Row, r: int, flag: string): (cell: Option<MergeCell>)
    ensures cell.Some? <==> Spanned(row, flag) && RowStart(dayKeys, row) <= RowEnd(dayKeys, row)
    ensures cell.Some? ==>
              && cell.value.row == r && cell.value.rowspan == 1 && cell.value.colspan >= 1
              && cell.value.col + cell.value.colspan <= COL_FIRST_DAY + |dayKeys|
    ensures cell.Some? && RowStart(dayKeys, row) == -1 ==> cell.value.col == COL_FIRST_DAY - 1
  {
    if !Spanned(row, flag) then None
    else
      var s, e := RowStart(dayKeys, row), RowEnd(dayKeys, row);
      if s <= e then Some(MergeCell(r, COL_FIRST_DAY + s, 1, e - s + 1)) else None
  }

  /** The row as `getMergeCells` marks it: a spanned row gets its `'1'`
   *  whether or not it gets a merged cell, under `"undefined"` when no day
   *  key is on or after the start. */
  function MarkedRowAsWritten(dayKeys: seq<string>, row: Row, flag: string): (marked: Row)
    ensures !Spanned(row, flag) ==> marked == row
    ensures Spanned(row, flag) && RowStart(dayKeys, row) == -1 ==> Get(marked, "undefined") == Str("1")
    ensures forall k :: k != MarkerKey(dayKeys, RowStart(dayKeys, row)) ==> Get(marked, k) == Get(row, k)
  {
    if Spanned(row, flag) then row[MarkerKey(dayKeys, RowStart(dayKeys, row)) := Str("1")] else row
  }

  /** The merged cell of row `r`, if it gets one: the day columns from the
   *  start index to the end index, and none when no day key is on or after
   *  the start. */
  function CellOf(dayKeys: seq<string>, row: Row, r: int, flag: string): (cell: Option<MergeCell>)
    ensures cell.Some? <==> Spanned(row, flag) && 0 <= RowStart(dayKeys, row) <= RowEnd(dayKeys, row)
    ensures cell.Some? ==>
              && cell.value.row == r && cell.value.rowspan == 1 && cell.value.colspan >= 1
              && COL_FIRST_DAY <= cell.value.col && cell.value.col + cell.value.colspan <= COL_FIRST_DAY + |dayKeys|
    ensures cell.Some? ==> cell == CellOfAsWritten(dayKeys, row, r, flag)
  {
    if !Spanned(row, flag) then None
    else
      var s, e := RowStart(dayKeys, row), RowEnd(dayKeys, row);
      if 0 <= s <= e then Some(MergeCell(r, COL_FIRST_DAY + s, 1, e - s + 1)) else None
  }

  /** The row after the pass: a spanned row gets its `'1'` under the day key
   *  where its run starts, whether or not it gets a merged cell, and none
   *  when no day key is on or after the start. */
  function MarkedRow(dayKeys: seq<string>, row: Row, flag: string): (marked: Row)
    ensures Spanned(row, flag) && 0 <= RowStart(dayKeys, row) ==> Get(marked, dayKeys[RowStart(dayKeys, row)]) == Str("1")
    ensures !Spanned(row, flag) || RowStart(dayKeys, row) < 0 ==> marked == row
    ensures forall k :: k !in dayKeys ==> Get(marked, k) == Get(row, k)
    ensures Spanned(row, flag) && 0 <= RowStart(dayKeys, row) ==> marked == MarkedRowAsWritten(dayKeys, row, flag)
  {
    if Spanned(row, flag) && 0 <= RowStart(dayKeys, row) then row[dayKeys[RowStart(dayKeys, row)] := Str("1")] else row
  }

  /** The rows after one generator's `getMergeCells` pass. */
  function MarkAll(dayKeys: seq<string>, rows: seq<Row>, flag: string): (marked: seq<Row>)
    ensures |marked| == |rows|
    ensures forall r :: 0 <= r < |rows| && !Spanned(rows[r], flag) ==> marked[r] == rows[r]
    ensures forall r, k :: 0 <= r < |rows| && k !in dayKeys ==> Get(marked[r], k) == Get(rows[r], k)
  {
    seq(|rows|, r requires 0 <= r < |rows| => MarkedRow(dayKeys, rows[r], flag))
  }

  /** The merged cells of the first `|rows|` rows, in row order. */
  function PlanCells(dayKeys: seq<string>, rows: seq<Row>, flag: string): seq<MergeCell>
  {
    if rows == [] then []
    else
      var n := |rows| - 1;
      var cell := CellOf(dayKeys, rows[n], n, flag);
      PlanCells(dayKeys, rows[..n], flag) + (if cell.Some? then [cell.value] else [])
  }

  /** One pass of the loop in `getMergeCells`, with a start index of -1
   *  leaving the row alone: the marked row and the merged cell, if any, of
   *  row `r`. */
  method MarkRow(dayKeys: seq<string>, flag: string, row: Row, r: int) returns (marked: Row, cell: Option<MergeCell>)
    ensures marked == MarkedRow(dayKeys, row, flag)
    ensures cell == CellOf(dayKeys, row, r, flag)
  {
    marked, cell := row, None;
    if !Spanned(row, flag) {
      return;
    }
    var startColIndex := RowStart(dayKeys, row);
    if startColIndex < 0 {
      return;
    }
    var endColIndex := RowEnd(dayKeys, row);
    marked := row[dayKeys[startColIndex] := Str("1")];
    if startColIndex <= endColIndex {
      cell := Some(MergeCell(r, COL_FIRST_DAY + startColIndex, 1, endColIndex - startColIndex + 1));
    }
  }

  /** `getMergeCells(data)`: the loop over the rows, marking each spanned
   *  row in place and collecting the merged cells. */
  method MarkAndMerge(dayKeys: seq<string>, flag: string, data: array<Row>) returns (mergeCells: seq<MergeCell>)
    modifies data
    ensures mergeCells == PlanCells(dayKeys, old(data[..]), flag)
    ensures forall r :: 0 <= r < data.Length ==> data[r] == MarkedRow(dayKeys, old(data[r]), flag)
  {
    ghost var rows := data[..];
    ghost var markedRows := MarkAll(dayKeys, rows, flag);
    mergeCells := [];
    for r := 0 to data.Length
      invariant mergeCells == PlanCells(dayKeys, rows[..r], flag)
      invariant forall q :: 0 <= q < r ==> data[q] == markedRows[q]
      invariant forall q :: r <= q < data.Length ==> data[q] == rows[q]
    {
      PlanCellsStep(dayKeys, rows, flag, r);
      var marked, cell := MarkRow(dayKeys, flag, data[r], r);
      assert marked == markedRows[r];
      data[r] := marked;
      if cell.Some? {
        mergeCells := mergeCells + [cell.value];
      }
    }
    assert rows[..data.Length] == rows;
    assert forall q :: 0 <= q < data.Length ==> markedRows[q] == MarkedRow(dayKeys, rows[q], flag);
  }

  lemma PlanCellsStep(dayKeys: seq<string>, rows: seq<Row>, flag: string, r: int)
    requires 0 <= r < |rows|
    ensures var cell := CellOf(dayKeys, rows[r], r, flag);
      PlanCells(dayKeys, rows[..r + 1], flag) == PlanCells(dayKeys, rows[..r], flag) + (if cell.Some? then [cell.value] else [])
  {
    assert rows[..r + 1][..r] == rows[..r];
  }

  /** At most one merged cell per row, on distinct rows in row order. */
  lemma {:induction false} CellsInRowOrder(dayKeys: seq<string>, rows: seq<Row>, flag: string)
    ensures var cells := PlanCells(dayKeys, rows, flag);
      && |cells| <= |rows|
      && (forall i :: 0 <= i < |cells| ==> 0 <= cells[i].row < |rows|)
      && (forall i, j :: 0 <= i < j < |cells| ==> cells[i].row < cells[j].row)
  {
    if rows != [] {
      var n := |rows| - 1;
      CellsInRowOrder(dayKeys, rows[..n], flag);
      var prev := PlanCells(dayKeys, rows[..n], flag);
      var cell := CellOf(dayKeys, rows[n], n, flag);
      assert PlanCells(dayKeys, rows, flag) == prev + (if cell.Some? then [cell.value] else []);
      assert cell.Some? ==> cell.value.row == n;
    }
  }

  /** What every merged cell looks like: one per spanned row at most, in
   *  row order, one row high, at least one column wide, and inside the day
   *  columns. */
  lemma CellsShape(dayKeys: seq<string>, rows: seq<Row>, flag: string)
    ensures var cells := PlanCells(dayKeys, rows, flag);
      && |cells| <= |rows|
      && (forall i :: 0 <= i < |cells| ==>
            && 0 <= cells[i].row < |rows| && Spanned(rows[cells[i].row], flag)
            && cells[i].rowspan == 1 && cells[i].colspan >= 1
            && COL_FIRST_DAY <= cells[i].col
            && cells[i].col + cells[i].colspan <= COL_FIRST_DAY + |dayKeys|)
      && (forall i, j :: 0 <= i < j < |cells| ==> cells[i].row < cells[j].row)
  {
    CellsInRowOrder(dayKeys, rows, flag);
    var cells := PlanCells(dayKeys, rows, flag);
    forall i | 0 <= i < |cells|
      ensures Spanned(rows[cells[i].row], flag) && cells[i].rowspan == 1 && cells[i].colspan >= 1
      ensures COL_FIRST_DAY <= cells[i].col && cells[i].col + cells[i].colspan <= COL_FIRST_DAY + |dayKeys|
    {
      CellsOfRows(dayKeys, rows, flag, cells[i]);
    }
  }

  /** The merged cells are exactly the rows' own cells. */
  lemma {:induction false} CellsOfRows(dayKeys: seq<string>, rows: seq<Row>, flag: string, c: MergeCell)
    ensures c in PlanCells(dayKeys, rows, flag) <==> 0 <= c.row < |rows| && CellOf(dayKeys, rows[c.row], c.row, flag) == Some(c)
  {
    if rows != [] {
      var n := |rows| - 1;
      CellsOfRows(dayKeys, rows[..n], flag, c);
      var prev := PlanCells(dayKeys, rows[..n], flag);
      var cell := CellOf(dayKeys, rows[n], n, flag);
      var last := if cell.Some? then [cell.value] else [];
      assert PlanCells(dayKeys, rows, flag) == prev + last;
      assert cell.Some? ==> cell.value.row == n;
      if 0 <= c.row < n {
        assert rows[..n][c.row] == rows[c.row];
        assert c !in last;
      } else if c.row == n {
        assert c !in prev;
      } else {
        assert c !in prev && c !in last;
      }
    }
  }

  /** The dates are all valid and strictly increasing, as those of the
   *  generated day keys are. */
  predicate Increasing(days: seq<Option<Date>>)
  {
    && (forall i :: 0 <= i < |days| ==> days[i].Some?)
    && (forall i, j :: 0 <= i < j < |days| ==> Earlier(days[i].value, days[j].value))
  }

  /** A period after the last date: the start index is -1 and the end index
   *  the last one. */
  lemma PeriodAfterLast(days: seq<Option<Date>>, start: Date, end: Date)
    requires Increasing(days) && days != [] && !Earlier(end, start) && Earlier(days[|days| - 1].value, start)
    ensures StartIndex(days, Some(start)) == -1 && EndIndex(days, Some(end)) == |days| - 1
  {
    var last := |days| - 1;
    StartIndexIsFirst(days, Some(start));
    forall i | 0 <= i < |days|
      ensures !NotBefore(days[i], Some(start))
    {
      if i < last {
        assert Earlier(days[i].value, days[last].value);
      }
    }
  }

  /** A spanned row whose whole period lies after the last day key still
   *  gets a cell: the start index is -1, so the cell covers the
   *  `check_days` column and every day column, and the `'1'` goes to the
   *  property `"undefined"`. */
  lemma PeriodAfterLastKey(dayKeys: seq<string>, row: Row, r: int, flag: string)
    requires Spanned(row, flag) && Increasing(KeyDays(dayKeys)) && dayKeys != []
    requires NotBefore(DayOf(Get(row, "end_date")), DayOf(Get(row, "start_date")))
    requires !NotBefore(KeyDays(dayKeys)[|dayKeys| - 1], DayOf(Get(row, "start_date")))
    ensures CellOfAsWritten(dayKeys, row, r, flag) == Some(MergeCell(r, COL_FIRST_DAY - 1, 1, |dayKeys| + 1))
    ensures MarkedRowAsWritten(dayKeys, row, flag) == row["undefined" := Str("1")]
    ensures CellOf(dayKeys, row, r, flag).None? && MarkedRow(dayKeys, row, flag) == row
  {
    PeriodAfterLast(KeyDays(dayKeys), DayOf(Get(row, "start_date")).value, DayOf(Get(row, "end_date")).value);
  }

  /** Over increasing dates, `i` lies in `[start index, end index]` exactly
   *  when its date lies in `[start, end]`. */
  lemma {:induction false} IndexRange(days: seq<Option<Date>>, start: Date, end: Date, i: int)
    requires Increasing(days) && 0 <= i < |days|
    ensures var s, e := StartIndex(days, Some(start)), EndIndex(days, Some(end));
      0 <= s <= i <= e <==> !Earlier(days[i].value, start) && !Earlier(end, days[i].value)
  {
    var s, e := StartIndex(days, Some(start)), EndIndex(days, Some(end));
    StartIndexIsFirst(days, Some(start));
    EndIndexIsLast(days, Some(end));
    if 0 <= s < i {
      assert Earlier(days[s].value, days[i].value);
    }
    if i < e {
      assert Earlier(days[i].value, days[e].value);
    }
  }

  /** With increasing day keys, a row's cell covers exactly the day columns
   *  whose day lies between the start and the end date, and there is no
   *  cell when no day key does. */
  lemma CellCoversPeriod(dayKeys: seq<string>, row: Row, r: int, flag: string, i: int)
    requires Spanned(row, flag) && Increasing(KeyDays(dayKeys)) && 0 <= i < |dayKeys|
    requires DayOf(Get(row, "start_date")).Some? && DayOf(Get(row, "end_date")).Some?
    ensures var c := CellOf(dayKeys, row, r, flag);
      var day := KeyDays(dayKeys)[i].value;
      var inPeriod := !Earlier(day, DayOf(Get(row, "start_date")).value) && !Earlier(DayOf(Get(row, "end_date")).value, day);
      && (c.Some? ==> c.value.rowspan == 1 && (c.value.col <= COL_FIRST_DAY + i < c.value.col + c.value.colspan <==> inPeriod))
      && (c.None? ==> !inPeriod)
  {
    IndexRange(KeyDays(dayKeys), DayOf(Get(row, "start_date")).value, DayOf(Get(row, "end_date")).value, i);
  }
}
