/** `ProjectControlRowsGenerator`: one project-control row per project shown
 *  on the chart, and the merged cells that draw each project's period. */
module ProjectControlRowsGenerator {
  import opened Optional
  import opened Js
  import opened Grid
  import opened MergeCells

  /** The flag that tells a project-control row from the others. */
  const FLAG: string := "is_project_control_row"

  /** The properties the row literal sets. */
  const ROW_KEYS: set<string> := {"id", "project_id", "identifier", "name", "subject", "description",
    "estimated_days", "schedule_days", "check_days", "start_date", "end_date", FLAG}

  /** The row literal for `project`, before its two `'1'` markers. */
  function ControlRowLiteral(project: Row): (row: Row)
    ensures row.Keys == ROW_KEYS
  {
    map[
      "id" := Null,
      "project_id" := Get(project, "id"),
      "identifier" := Get(project, "identifier"),
      "name" := Get(project, "name"),
      "subject" := Get(project, "name"),
      "description" := Str("プロジェクト管理"),
      "estimated_days" := Get(project, "estimated_days"),
      "schedule_days" := Get(project, "schedule_days"),
      "check_days" := Get(project, "check_days"),
      "start_date" := Get(project, "project_start_date"),
      "end_date" := Get(project, "end_date"),
      FLAG := Bool(true)
    ]
  }

  /** The row `generate` pushes for `project`: the literal, then a `'1'`
   *  under the property named by `project.start_date` and one under the
   *  property named by `project.end_date`. */
  function ControlRow(project: Row): (row: Row)
    ensures var a, b := ToText(Get(project, "start_date")), ToText(Get(project, "end_date"));
      && row.Keys == ROW_KEYS + {a, b}
      && row[a] == Str("1") && row[b] == Str("1")
      && forall k :: k in ROW_KEYS && k != a && k != b ==> row[k] == ControlRowLiteral(project)[k]
  {
    ControlRowLiteral(project)[ToText(Get(project, "start_date")) := Str("1")][ToText(Get(project, "end_date")) := Str("1")]
  }

  class ProjectControlRowsGenerator {
    const dayKeys: seq<string>

    constructor(dayKeys: seq<string>)
      ensures this.dayKeys == dayKeys
    {
      this.dayKeys := dayKeys;
    }

    /** `generate()`, over the projects the page lists. */
    method Generate(projects: seq<Row>) returns (projectControlRows: seq<Row>)
      ensures |projectControlRows| == |projects|
      ensures forall i :: 0 <= i < |projects| ==> projectControlRows[i] == ControlRow(projects[i])
    {
      projectControlRows := [];
      for i := 0 to |projects|
        invariant |projectControlRows| == i
        invariant forall k :: 0 <= k < i ==> projectControlRows[k] == ControlRow(projects[k])
      {
        var project := projects[i];
        var row := ControlRowLiteral(project);
        row := row[ToText(Get(project, "start_date")) := Str("1")];
        row := row[ToText(Get(project, "end_date")) := Str("1")];
        projectControlRows := projectControlRows + [row];
      }
    }

    /** `getMergeCells(data)`: marks the start column of every spanned
     *  project-control row and returns the merged cells. */
    method GetMergeCells(data: array<Row>) returns (mergeCells: seq<MergeCell>)
      modifies data
      ensures mergeCells == PlanCells(dayKeys, old(data[..]), FLAG)
      ensures forall r :: 0 <= r < data.Length ==> data[r] == MarkedRow(dayKeys, old(data[r]), FLAG)
    {
      mergeCells := MarkAndMerge(dayKeys, FLAG, data);
    }
  }

  /** What a project-control row holds, when neither marker property
   *  collides with a property of the literal: the project's own fields and
   *  the flag. */
  lemma ControlRowFields(project: Row)
    requires ToText(Get(project, "start_date")) !in ROW_KEYS && ToText(Get(project, "end_date")) !in ROW_KEYS
    ensures var row := ControlRow(project);
      && Get(row, "id") == Null && Get(row, FLAG) == Bool(true)
      && Get(row, "project_id") == Get(project, "id")
      && Get(row, "subject") == Get(project, "name")
      && Get(row, "start_date") == Get(project, "project_start_date")
      && Get(row, "end_date") == Get(project, "end_date")
  {
    var lit := ControlRowLiteral(project);
    var row := ControlRow(project);
    assert row == lit[ToText(Get(project, "start_date")) := Str("1")][ToText(Get(project, "end_date")) := Str("1")];
    forall k | k in {"id", FLAG, "project_id", "subject", "start_date", "end_date"}
      ensures Get(row, k) == Get(lit, k)
    {
    }
  }

  /** Besides the literal's properties a project-control row holds exactly
   *  the two markers, each a `'1'`; a project record without a
   *  `start_date` property puts its marker under `"undefined"`. */
  lemma ControlRowMarkers(project: Row)
    requires ToText(Get(project, "start_date")) !in ROW_KEYS && ToText(Get(project, "end_date")) !in ROW_KEYS
    ensures var row := ControlRow(project);
      && row.Keys == ROW_KEYS + {ToText(Get(project, "start_date")), ToText(Get(project, "end_date"))}
      && Get(row, ToText(Get(project, "start_date"))) == Str("1")
      && Get(row, ToText(Get(project, "end_date"))) == Str("1")
      && ("start_date" !in project ==> Get(row, "undefined") == Str("1"))
  {
  }

  /** A project-control row gets a merged cell only when its project has
   *  both a start and an end date. */
  lemma ControlRowSpanned(project: Row)
    requires ToText(Get(project, "start_date")) !in ROW_KEYS && ToText(Get(project, "end_date")) !in ROW_KEYS
    ensures Spanned(ControlRow(project), FLAG) <==> Truthy(Get(project, "project_start_date")) && Truthy(Get(project, "end_date"))
  {
    ControlRowFields(project);
    ControlRowMarkers(project);
  }
}
