/** `ColumnWidthsManager#getColumnWidths`: one width per grid column, the
 *  static columns first and then one per day key. */
module ColumnWidthsManager {
  import opened Constants

  /** The widths list: the static widths unchanged, then `DAY_COLUMN_WIDTH`
   *  for every day key. Only the number of day keys matters. */
  function ColumnWidths(dayKeys: seq<string>): (widths: seq<int>)
    ensures |widths| == |STATIC_COLUMN_WIDTHS| + |dayKeys|
    ensures widths[..|STATIC_COLUMN_WIDTHS|] == STATIC_COLUMN_WIDTHS
    ensures forall i :: |STATIC_COLUMN_WIDTHS| <= i < |widths| ==> widths[i] == DAY_COLUMN_WIDTH
  {
    STATIC_COLUMN_WIDTHS + seq(|dayKeys|, _ => DAY_COLUMN_WIDTH)
  }

  /** The static widths cover exactly the columns before `COL_FIRST_DAY`, so
   *  the column of day key `i` gets the day width. */
  lemma DayColumnWidth(dayKeys: seq<string>, i: int)
    requires 0 <= i < |dayKeys|
    ensures |STATIC_COLUMN_WIDTHS| == COL_FIRST_DAY
    ensures ColumnWidths(dayKeys)[COL_FIRST_DAY + i] == DAY_COLUMN_WIDTH
  {
  }
}
