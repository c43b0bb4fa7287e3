/** The client's shared constants: static column layout, the first date
 *  column, the fixed public-holiday list, the auto-reload interval and the
 *  row fill colours. */
module Constants {

  /** Widths of the static columns, in pixels. */
  const STATIC_COLUMN_WIDTHS: seq<int> := [0, 0, 0, 100, 200, 200, 100, 100, 60, 60, 60, 50]

  const DAY_COLUMN_WIDTH: int := 28

  // Column indexes of the static part of a grid row.
  const COL_ISSUE_ID: int := 0
  const COL_LOCK_VERSION: int := 1
  const COL_PROJECT_ID: int := 2
  const COL_TRACKER: int := 3
  const COL_SUBJECT: int := 4
  const COL_DESCRIPTION: int := 5
  const COL_ASSIGNED_TO: int := 6
  const COL_PRIORITY: int := 7
  const COL_DONE_RATIO: int := 8
  const COL_ESTIMATED_DAYS: int := 9
  const COL_SCHEDULE_DAYS: int := 10
  const COL_CHECK_DAYS: int := 11

  /** Index of the first date column, right after the static columns. */
  const COL_FIRST_DAY: int := 12

  /** Japanese public holidays as `MM-DD`, the same every year. */
  const PUBLIC_HOLIDAY_JA: seq<string> := [
    "01-01", "01-13",
    "02-11", "02-24",
    "03-20",
    "04-29",
    "05-03", "05-04", "05-05",
    "07-21",
    "08-11",
    "09-15", "09-23",
    "10-13",
    "11-03", "11-24"
  ]

  /** Seconds between two polls of the staleness registry. */
  const RELOAD_TIME: int := 5

  // The `color_id` values a row can be filled with.
  const ROW_COLOR_NORMAL: int := 0
  const ROW_COLOR_YELLOW: int := 1
  const ROW_COLOR_RED: int := 2
  const ROW_COLOR_GRAY: int := 99
}
