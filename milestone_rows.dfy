/** `MilestoneRowsGenerator`: one milestone row per version shown on the
 *  chart, and the merged cells that draw each version's period. */
module MilestoneRowsGenerator {
  import opened Optional
  import opened Js
  import opened Grid
  import opened MergeCells

  /** The flag that tells a milestone row from the others. */
  const FLAG: string := "is_milestone_row"

  /** The properties the row literal sets. */
  const ROW_KEYS: set<string> := {"id", "version_id", "project_id", "subject", "description",
    "estimated_days", "schedule_days", "check_days", "start_date", "end_date", FLAG}

  /** The row literal for `version`, before its two `'1'` markers. */
  function MilestoneRowLiteral(version: Row): (row: Row)
    ensures row.Keys == ROW_KEYS
  {
    map[
      "id" := Null,
      "version_id" := Get(version, "id"),
      "project_id" := Get(version, "project_id"),
      "subject" := Get(version, "name"),
      "description" := Str("マイルストーン"),
      "estimated_days" := Str("-"),
      "schedule_days" := Str("-"),
      "check_days" := Str("-"),
      "start_date" := Get(version, "version_start_date"),
      "end_date" := Get(version, "effective_date"),
      FLAG := Bool(true)
    ]
  }

  /** The row `generate` pushes for `version`: the literal, then a `'1'`
   *  under the property named by its start date and one under the property
   *  named by its effective date. */
  function MilestoneRow(version: Row): (row: Row)
    ensures var a, b := ToText(Get(version, "version_start_date")), ToText(Get(version, "effective_date"));
      && row.Keys == ROW_KEYS + {a, b}
      && row[a] == Str("1") && row[b] == Str("1")
      && forall k :: k in ROW_KEYS && k != a && k != b ==> row[k] == MilestoneRowLiteral(version)[k]
  {
    MilestoneRowLiteral(version)[ToText(Get(version, "version_start_date")) := Str("1")][ToText(Get(version, "effective_date")) := Str("1")]
  }

  class MilestoneRowsGenerator {
    const dayKeys: seq<string>

    constructor(dayKeys: seq<string>)
      ensures this.dayKeys == dayKeys
    {
      this.dayKeys := dayKeys;
    }

    /** `generate()`, over the versions the page lists. */
    method Generate(versions: seq<Row>) returns (milestoneRows: seq<Row>)
      ensures |milestoneRows| == |versions|
      ensures forall i :: 0 <= i < |versions| ==> milestoneRows[i] == MilestoneRow(versions[i])
    {
      milestoneRows := [];
      for i := 0 to |versions|
        invariant |milestoneRows| == i
        invariant forall k :: 0 <= k < i ==> milestoneRows[k] == MilestoneRow(versions[k])
      {
        var version := versions[i];
        var row := MilestoneRowLiteral(version);
        row := row[ToText(Get(version, "version_start_date")) := Str("1")];
        row := row[ToText(Get(version, "effective_date")) := Str("1")];
        milestoneRows := milestoneRows + [row];
      }
    }

    /** `getMergeCells(data)`: marks the start column of every spanned
     *  milestone row and returns the merged cells. */
    method GetMergeCells(data: array<Row>) returns (mergeCells: seq<MergeCell>)
      modifies data
      ensures mergeCells == PlanCells(dayKeys, old(data[..]), FLAG)
      ensures forall r :: 0 <= r < data.Length ==> data[r] == MarkedRow(dayKeys, old(data[r]), FLAG)
    {
      mergeCells := MarkAndMerge(dayKeys, FLAG, data);
    }
  }

  /** What a milestone row holds, when neither marker property collides
   *  with a property of the literal: the version's own fields, the flag and
   *  `'-'` in the three amount columns. */
  lemma MilestoneRowFields(version: Row)
    requires ToText(Get(version, "version_start_date")) !in ROW_KEYS
    requires ToText(Get(version, "effective_date")) !in ROW_KEYS
    ensures var row := MilestoneRow(version);
      && Get(row, "id") == Null && Get(row, FLAG) == Bool(true)
      && Get(row, "version_id") == Get(version, "id")
      && Get(row, "project_id") == Get(version, "project_id")
      && Get(row, "subject") == Get(version, "name")
      && Get(row, "estimated_days") == Get(row, "schedule_days") == Get(row, "check_days") == Str("-")
      && Get(row, "start_date") == Get(version, "version_start_date")
      && Get(row, "end_date") == Get(version, "effective_date")
  {
    MilestoneRowKeepsLiteral(version);
  }

  /** The markers go under properties the literal does not set, so every
   *  property the literal sets reads as the literal has it. */
  lemma MilestoneRowKeepsLiteral(version: Row)
    requires ToText(Get(version, "version_start_date")) !in ROW_KEYS
    requires ToText(Get(version, "effective_date")) !in ROW_KEYS
    ensures forall k :: k in ROW_KEYS ==> Get(MilestoneRow(version), k) == MilestoneRowLiteral(version)[k]
  {
  }

  /** Besides the literal's properties a milestone row holds exactly the
   *  two markers, a `'1'` under the start date and one under the effective
   *  date. */
  lemma MilestoneRowMarkers(version: Row)
    requires ToText(Get(version, "version_start_date")) !in ROW_KEYS
    requires ToText(Get(version, "effective_date")) !in ROW_KEYS
    ensures var row := MilestoneRow(version);
      && row.Keys == ROW_KEYS + {ToText(Get(version, "version_start_date")), ToText(Get(version, "effective_date"))}
      && Get(row, ToText(Get(version, "version_start_date"))) == Str("1")
      && Get(row, ToText(Get(version, "effective_date"))) == Str("1")
  {
  }

  /** A milestone row gets a merged cell only when its version has both a
   *  start and an effective date. */
  lemma MilestoneRowSpanned(version: Row)
    requires ToText(Get(version, "version_start_date")) !in ROW_KEYS
    requires ToText(Get(version, "effective_date")) !in ROW_KEYS
    ensures Spanned(MilestoneRow(version), FLAG) <==> Truthy(Get(version, "version_start_date")) && Truthy(Get(version, "effective_date"))
  {
    MilestoneRowFields(version);
    MilestoneRowMarkers(version);
  }
}
