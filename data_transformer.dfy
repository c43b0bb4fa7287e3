/** `DataTransformer#transformIssueToRow`: an issue as the server's JSON
 *  delivers it becomes one grid row. */
module DataTransformer {
  import opened Js
  import opened Grid

  /** An issue of the JSON payload: its attributes and its
   *  `daily_schedules` object (date key to effort). */
  datatype IssueJson = IssueJson(attributes: Row, dailySchedules: Row)

  /** The issue properties copied into a row, in the literal's order. */
  const ISSUE_FIELDS: seq<string> := [
    "id", "project_id", "version_id", "category_id", "assigned_to_id", "tracker_id", "subject",
    "lock_version", "description", "status_id", "priority_id", "done_ratio",
    "estimated_days", "schedule_days", "check_days"
  ]

  /** The object literal `{id: issue.id, ..., ...issue.daily_schedules,
   *  color_id: issue.color_id}`: the listed properties (present even when
   *  the issue lacks them), then every daily key, which overrides a listed
   *  property of the same name, then `color_id`, which nothing overrides. */
  function TransformIssueToRow(issue: IssueJson): (row: Row)
    ensures row.Keys == (set k | k in ISSUE_FIELDS) + issue.dailySchedules.Keys + {"color_id"}
    ensures row["color_id"] == Get(issue.attributes, "color_id")
    ensures forall k :: k in issue.dailySchedules && k != "color_id" ==> row[k] == issue.dailySchedules[k]
    ensures forall k :: k in ISSUE_FIELDS && k !in issue.dailySchedules ==> row[k] == Get(issue.attributes, k)
  {
    var listed := map k | k in ISSUE_FIELDS :: Get(issue.attributes, k);
    var spread := listed + issue.dailySchedules;
    spread["color_id" := Get(issue.attributes, "color_id")]
  }

  /** A row built from an issue carries the issue's id and lock version
   *  unless a daily key shadows them, and its daily cells are the issue's
   *  daily efforts: the spreadsheet edits exactly what the server sent. */
  lemma RowKeepsIssueIdentity(issue: IssueJson)
    requires forall k :: k in issue.dailySchedules ==> k !in ISSUE_FIELDS && k != "color_id"
    ensures Get(TransformIssueToRow(issue), "id") == Get(issue.attributes, "id")
    ensures Get(TransformIssueToRow(issue), "lock_version") == Get(issue.attributes, "lock_version")
    ensures forall k :: k in issue.dailySchedules ==> Get(TransformIssueToRow(issue), k) == issue.dailySchedules[k]
  {
    assert "id" in ISSUE_FIELDS && "lock_version" in ISSUE_FIELDS;
  }
}
