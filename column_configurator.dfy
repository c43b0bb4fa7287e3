/** `ColumnConfigurator`: the `columns` setting of the grid, thirteen static
 *  columns followed by one numeric column per day key. */
module ColumnConfigurator {
  import opened Constants
  import opened ColumnWidthsManager

  /** How a column edits its cells: free text, a numeric cell, or a select
   *  box with an optional fixed list of options. */
  datatype Editor = TextCell | NumericCell | SelectBox(options: seq<int>)

  /** `{data, readOnly, editor/type/selectOptions}`. */
  datatype ColumnConfig = ColumnConfig(data: string, readOnly: bool, editor: Editor)

  /** `createStaticColumns()`. */
  const STATIC_COLUMNS: seq<ColumnConfig> := [
    ColumnConfig("id", true, TextCell),
    ColumnConfig("lock_version", true, TextCell),
    ColumnConfig("project_id", true, TextCell),
    ColumnConfig("tracker_id", false, SelectBox([])),
    ColumnConfig("subject", false, TextCell),
    ColumnConfig("description", false, TextCell),
    ColumnConfig("assigned_to_id", false, SelectBox([])),
    ColumnConfig("status_id", true, TextCell),
    ColumnConfig("priority_id", false, SelectBox([])),
    ColumnConfig("done_ratio", false, SelectBox([0, 10, 20, 30, 40, 50, 60, 70, 80, 90, 100])),
    ColumnConfig("estimated_days", false, NumericCell),
    ColumnConfig("schedule_days", true, NumericCell),
    ColumnConfig("check_days", true, NumericCell)
  ]

  /** The columns a user can never type into. */
  const READ_ONLY_COLUMNS: set<string> := {"id", "lock_version", "project_id", "status_id", "schedule_days", "check_days"}

  /** `createDateColumns()`: one editable numeric column per day key, in
   *  day-key order. */
  function DateColumns(dayKeys: seq<string>): (cols: seq<ColumnConfig>)
    ensures |cols| == |dayKeys|
    ensures forall i :: 0 <= i < |cols| ==> cols[i] == ColumnConfig(dayKeys[i], false, NumericCell)
  {
    seq(|dayKeys|, i requires 0 <= i < |dayKeys| => ColumnConfig(dayKeys[i], false, NumericCell))
  }

  /** `getAllColumnConfig()`. */
  function AllColumnConfig(dayKeys: seq<string>): (cols: seq<ColumnConfig>)
    ensures |cols| == |STATIC_COLUMNS| + |dayKeys|
    ensures cols[..|STATIC_COLUMNS|] == STATIC_COLUMNS
  {
    STATIC_COLUMNS + DateColumns(dayKeys)
  }

  /** Which static columns are read-only: exactly the six the server fills
   *  in, and `done_ratio` offers 0 to 100 in steps of ten. */
  lemma StaticColumnsShape()
    ensures |STATIC_COLUMNS| == 13
    ensures forall i :: 0 <= i < |STATIC_COLUMNS| ==> (STATIC_COLUMNS[i].readOnly <==> STATIC_COLUMNS[i].data in READ_ONLY_COLUMNS)
    ensures forall i :: 0 <= i < |STATIC_COLUMNS| ==> STATIC_COLUMNS[i].readOnly ==> !STATIC_COLUMNS[i].editor.SelectBox?
    ensures STATIC_COLUMNS[9].editor.options == seq(11, k => 10 * k)
  {
    assert STATIC_COLUMNS[9].editor.options == seq(11, k => 10 * k);
  }

  /** Column `COL_FIRST_DAY + i` is where the widths and headers put day key
   *  `i`, but the configuration has one static column more: the column at
   *  `COL_FIRST_DAY` is `check_days`, every day key is configured one
   *  column further right, and the configuration is one entry longer than
   *  the widths list. */
  lemma StaticColumnCountMismatch(dayKeys: seq<string>)
    ensures |AllColumnConfig(dayKeys)| == |ColumnWidths(dayKeys)| + 1
    ensures AllColumnConfig(dayKeys)[COL_FIRST_DAY].data == "check_days"
    ensures forall i :: 0 <= i < |dayKeys| ==> AllColumnConfig(dayKeys)[COL_FIRST_DAY + 1 + i].data == dayKeys[i]
  {
    var cols := AllColumnConfig(dayKeys);
    assert cols[COL_FIRST_DAY] == cols[..|STATIC_COLUMNS|][12];
    forall i | 0 <= i < |dayKeys|
      ensures cols[COL_FIRST_DAY + 1 + i].data == dayKeys[i]
    {
      assert cols[COL_FIRST_DAY + 1 + i] == DateColumns(dayKeys)[i];
    }
  }
}
