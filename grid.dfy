/** What the browser-side modules share: a grid row as the spreadsheet holds
 *  it (a JavaScript object from property names to values), the records the
 *  server's JSON delivers, merge-cell descriptors, the `new Date(key)`
 *  reading of a date cell, and the normalisation of a selected range. */
module Grid {
  import opened Optional
  import opened Calendar
  import opened Text
  import opened Js

  /** A plain JavaScript object: a grid row, or a record of the server's
   *  JSON (`issue`, `project`, `version`, `user`, ...). */
  type Row = map<string, JsValue>

  /** `row.key` (also `row[key]`): an absent property reads as `undefined`. */
  function Get(row: Row, key: string): (v: JsValue)
    ensures key in row ==> v == row[key]
    ensures key !in row ==> v == Undefined
  {
    if key in row then row[key] else Undefined
  }

  /** `hot.getDataAtRowProp(r, prop)`; a row outside the table reads as
   *  `undefined`. */
  function DataAt(rows: seq<Row>, r: int, prop: string): (v: JsValue)
    ensures 0 <= r < |rows| ==> v == Get(rows[r], prop)
    ensures !(0 <= r < |rows|) ==> v == Undefined
  {
    if 0 <= r < |rows| then Get(rows[r], prop) else Undefined
  }

  /** `hot.getSourceDataAtRow(physicalIndex)`: the row, or nothing for an
   *  index outside the data. */
  function RowAt(data: seq<Row>, physicalIndex: int): Option<Row>
  {
    if 0 <= physicalIndex < |data| then Some(data[physicalIndex]) else None
  }

  /** `{row, col, rowspan, colspan}`, one entry of the `mergeCells` setting. */
  datatype MergeCell = MergeCell(row: int, col: int, rowspan: int, colspan: int)

  /** `new Date(v)`. A `YYYY-MM-DD` text naming a real calendar day gives
   *  that day; anything else is an invalid date, against which every
   *  comparison is false. */
  function DayOf(v: JsValue): Option<Date>
  {
    if v.Str? && IsDateKey(v.s) then ParseDateKey(v.s) else None
  }

  /** `a < b` between two valid dates: JavaScript compares the time values,
   *  which for midnights of calendar days is the order of year, month and
   *  day. */
  predicate Earlier(a: Date, b: Date)
  {
    a.year < b.year || (a.year == b.year && (a.month < b.month || (a.month == b.month && a.day < b.day)))
  }

  /** The order of dates is the order of their day numbers. */
  lemma EarlierIsFewerDays(a: Date, b: Date)
    requires Valid(a) && Valid(b)
    ensures Earlier(a, b) <==> DayNumber(a) < DayNumber(b)
  {
    if a.year < b.year {
      DayNumberYearGap(a, b);
    } else if b.year < a.year {
      DayNumberYearGap(b, a);
    } else if a.month < b.month {
      MonthGap(a.year, a.month, b.month);
    } else if b.month < a.month {
      MonthGap(a.year, b.month, a.month);
    }
  }

  /** `a >= b` between two dates; false when either is invalid. */
  predicate NotBefore(a: Option<Date>, b: Option<Date>)
  {
    a.Some? && b.Some? && !Earlier(a.value, b.value)
  }

  /** `a <= b` between two dates; false when either is invalid. */
  predicate NotAfter(a: Option<Date>, b: Option<Date>)
  {
    a.Some? && b.Some? && !Earlier(b.value, a.value)
  }

  /** A selected range `[row1, col1, row2, col2]`, corners in the order the
   *  user dragged them. */
  datatype Selection = Selection(row1: int, col1: int, row2: int, col2: int)

  function Min(a: int, b: int): int { if a <= b then a else b }

  function Max(a: int, b: int): int { if a >= b then a else b }

  /** `Math.min(sel[0], sel[2])`: the top row of the selection. */
  function StartRow(sel: Selection): (r: int)
    ensures r <= sel.row1 && r <= sel.row2 && (r == sel.row1 || r == sel.row2)
  {
    Min(sel.row1, sel.row2)
  }

  /** `Math.max(sel[0], sel[2])`: the bottom row of the selection. */
  function EndRow(sel: Selection): (r: int)
    ensures r >= sel.row1 && r >= sel.row2 && (r == sel.row1 || r == sel.row2)
  {
    Max(sel.row1, sel.row2)
  }

  /** A row is a project-control row or a milestone row. */
  predicate IsControlOrMilestone(row: Row)
  {
    Truthy(Get(row, "is_project_control_row")) || Truthy(Get(row, "is_milestone_row"))
  }

  /** An entry of a response's `results`: an object such as `{ok, value}`,
   *  or a bare value. */
  datatype ResultEntry = Entry(fields: Row) | Bare(value: JsValue)

  /** `r?.ok` is truthy: only an object can carry `ok`. */
  predicate Ok(r: ResultEntry)
  {
    r.Entry? && Truthy(Get(r.fields, "ok"))
  }

  /** What one request brought back: an error (reported by an alert), or a
   *  body with or without `results`. */
  datatype Response = Failed | Answered(results: Option<seq<(string, ResultEntry)>>)

  /** `[row, prop, value]`, one `setDataAtRowProp` write. */
  datatype Update = Update(row: int, prop: string, value: JsValue)

  /** The writes a response's results call for, in their order: the value
   *  of each `ok` result whose key `writable` admits. */
  function WriteBacks(row: int, results: seq<(string, ResultEntry)>, writable: string -> bool): seq<Update>
  {
    if results == [] then []
    else
      var (k, r) := results[|results| - 1];
      WriteBacks(row, results[..|results| - 1], writable)
      + (if Ok(r) && writable(k) then [Update(row, k, Get(r.fields, "value"))] else [])
  }

  /** Result `entry` asks for the write `u`. */
  predicate AsksFor(row: int, entry: (string, ResultEntry), writable: string -> bool, u: Update)
  {
    Ok(entry.1) && writable(entry.0) && u == Update(row, entry.0, Get(entry.1.fields, "value"))
  }

  /** The write-back touches only the saved row and only admitted keys, and
   *  it writes exactly the `ok` results' values. */
  lemma {:induction false} WriteBacksExactly(row: int, results: seq<(string, ResultEntry)>, writable: string -> bool, u: Update)
    ensures u in WriteBacks(row, results, writable) <==> exists i :: 0 <= i < |results| && AsksFor(row, results[i], writable, u)
  {
    if results != [] {
      var n := |results| - 1;
      WriteBacksExactly(row, results[..n], writable, u);
      AsksForLast(row, results, writable, u);
    }
  }

  lemma AsksForLast(row: int, results: seq<(string, ResultEntry)>, writable: string -> bool, u: Update)
    requires results != []
    ensures var n := |results| - 1;
      (exists i :: 0 <= i < |results| && AsksFor(row, results[i], writable, u))
      <==> (exists i :: 0 <= i < n && AsksFor(row, results[..n][i], writable, u)) || AsksFor(row, results[n], writable, u)
  {
    var n := |results| - 1;
    if exists i :: 0 <= i < n && AsksFor(row, results[..n][i], writable, u) {
      var i :| 0 <= i < n && AsksFor(row, results[..n][i], writable, u);
      assert results[i] == results[..n][i];
    }
    if exists i :: 0 <= i < |results| && AsksFor(row, results[i], writable, u) {
      var i :| 0 <= i < |results| && AsksFor(row, results[i], writable, u);
      if i < n {
        assert results[..n][i] == results[i];
      }
    }
  }
}
