/** The server's database as the plugin uses it: the tables it reads and
 *  writes, the aggregates it computes with SQL `SUM`, and the snapshot a
 *  rolled-back transaction returns to. */
module Store {
  import opened Optional
  import opened Calendar
  import opened Schema
  import opened GanttLatestUpdate
  import opened Sums

  /** The index of the row with this id, if any (`Issue.find_by(id:)`). */
  function FindIssue(issues: seq<Issue>, id: IssueId): (r: Option<nat>)
    ensures r.Some? ==> r.value < |issues| && issues[r.value].id == id
    ensures r.Some? ==> forall k :: 0 <= k < r.value ==> issues[k].id != id
    ensures r.None? ==> forall k :: 0 <= k < |issues| ==> issues[k].id != id
    decreases |issues|
  {
    if issues == [] then None
    else if issues[0].id == id then Some(0)
    else
      var rest := FindIssue(issues[1..], id);
      if rest.None? then None else Some(rest.value + 1)
  }

  /** `Issue.find_by(id: x)` for an id sent by the client: nil and
   *  negative ids find nothing. */
  function Lookup(issues: seq<Issue>, x: Option<int>): (r: Option<nat>)
    ensures r.Some? <==> x.Some? && x.value >= 0 && FindIssue(issues, x.value).Some?
    ensures r.Some? ==> r == FindIssue(issues, x.value)
  {
    if x.None? || x.value < 0 then None else FindIssue(issues, x.value)
  }

  ghost predicate SameIds(a: seq<Issue>, b: seq<Issue>)
  {
    |a| == |b| && forall k :: 0 <= k < |a| ==> a[k].id == b[k].id
  }

  /** Changing columns other than the id never moves a row for lookups. */
  lemma {:induction false} FindIssueSameIds(a: seq<Issue>, b: seq<Issue>, id: IssueId)
    requires SameIds(a, b)
    ensures FindIssue(a, id) == FindIssue(b, id)
    decreases |a|
  {
    if a != [] {
      FindIssueSameIds(a[1..], b[1..], id);
    }
  }

  ghost predicate UniqueIds(issues: seq<Issue>)
  {
    forall i, j :: 0 <= i < j < |issues| ==> issues[i].id != issues[j].id
  }

  /** Rows appended after a table are found only when the table has no row
   *  of that id. */
  lemma {:induction false} FindIssueAppend(issues: seq<Issue>, rows: seq<Issue>, id: IssueId)
    ensures FindIssue(issues, id).Some? ==> FindIssue(issues + rows, id) == FindIssue(issues, id)
    ensures FindIssue(issues, id).None? && FindIssue(rows, id).Some? ==>
              FindIssue(issues + rows, id) == Some(|issues| + FindIssue(rows, id).value)
    ensures FindIssue(issues, id).None? && FindIssue(rows, id).None? ==> FindIssue(issues + rows, id).None?
    decreases |issues|
  {
    if issues == [] {
      assert issues + rows == rows;
    } else {
      assert (issues + rows)[1..] == issues[1..] + rows;
      FindIssueAppend(issues[1..], rows, id);
    }
  }

  lemma FindIssueUnique(issues: seq<Issue>, k: nat)
    requires UniqueIds(issues) && k < |issues|
    ensures FindIssue(issues, issues[k].id) == Some(k)
  {
  }

  /** `uniqueness: { scope: :issue_id }` on `schedule_date`. */
  ghost predicate UniqueKeys(entries: seq<Entry>)
  {
    forall i, j :: 0 <= i < j < |entries| ==>
      (entries[i].issue, entries[i].date) != (entries[j].issue, entries[j].date)
  }

  /** The assignee of an issue; `None` both for an unassigned issue and for
   *  a missing one (the SQL join drops such rows). */
  function AssigneeOf(issues: seq<Issue>, id: IssueId): Option<UserId>
  {
    var k := FindIssue(issues, id);
    if k.None? then None else issues[k.value].assignee
  }

  /** A row's share in `issue.issue_daily_schedules.sum(:man_days)`. */
  function IssueShare(id: IssueId): Entry -> int
  {
    (e: Entry) => if e.issue == id then e.manDays else 0
  }

  /** The scheduled total of an issue: the sum of its daily entries. */
  function IssueTotal(entries: seq<Entry>, id: IssueId): int
  {
    Sum(entries, IssueShare(id))
  }

  /** A row's share in the effort of one issue on one day. */
  function IssueDayShare(id: IssueId, d: Date): Entry -> int
  {
    (e: Entry) => if e.issue == id && e.date == d then e.manDays else 0
  }

  /** The effort of one issue on one day (zero when it has no entry). */
  function IssueDayTotal(entries: seq<Entry>, id: IssueId, d: Date): int
  {
    Sum(entries, IssueDayShare(id, d))
  }

  /** A row's share in `IssueDailySchedule.joins(:issue).where(schedule_date:
   *  d, issues: { assigned_to_id: u }).sum(:man_days)`. */
  function PersonDayShare(issues: seq<Issue>, u: UserId, d: Date): Entry -> int
  {
    (e: Entry) => if e.date == d && AssigneeOf(issues, e.issue) == Some(u) then e.manDays else 0
  }

  /** The true effort of a person on a day: the entries on that day of the
   *  issues currently assigned to them. */
  function PersonDayTotal(entries: seq<Entry>, issues: seq<Issue>, u: UserId, d: Date): int
  {
    Sum(entries, PersonDayShare(issues, u, d))
  }

  /** A row's share in `project.issues.sum(:schedule_days)`. */
  function ProjectShare(p: ProjectId): Issue -> int
  {
    (i: Issue) => if i.project == p then i.scheduleDays else 0
  }

  function ProjectTotal(issues: seq<Issue>, p: ProjectId): int
  {
    Sum(issues, ProjectShare(p))
  }

  /** All tables at one moment; a rolled-back transaction restores one. */
  datatype Snapshot = Snapshot(
    issues: seq<Issue>,
    projects: map<ProjectId, Project>,
    versions: map<VersionId, Version>,
    entries: seq<Entry>,
    personTotals: map<(UserId, Date), int>,
    sortOrders: map<(UserId, IssueId), int>,
    latest: map<Option<ProjectId>, Record>,
    nextIssueId: nat)

  class Database {
    /** `issues`, in primary-key order. */
    var issues: seq<Issue>
    var projects: map<ProjectId, Project>
    var versions: map<VersionId, Version>
    /** `issue_daily_schedules`. */
    var entries: seq<Entry>
    /** `user_daily_schedules`: the stored per-person, per-day totals. */
    var personTotals: map<(UserId, Date), int>
    /** `issue_sort_orders`: each user's own row order. */
    var sortOrders: map<(UserId, IssueId), int>
    /** The id the next created issue receives. */
    var nextIssueId: nat
    /** `gantt_latest_updates`. */
    const registry: Registry

    constructor (registry: Registry)
      ensures this.registry == registry
      ensures issues == [] && entries == [] && projects == map[] && versions == map[]
      ensures personTotals == map[] && sortOrders == map[] && nextIssueId == 1
    {
      this.registry := registry;
      issues := [];
      projects := map[];
      versions := map[];
      entries := [];
      personTotals := map[];
      sortOrders := map[];
      nextIssueId := 1;
    }

    /** What the database's keys, unique indexes and `NOT NULL` constraints
     *  guarantee: one row per issue id, per (issue, day) entry, maps keyed
     *  by their rows' ids, and no stored row holding nil in a `NOT NULL`
     *  column. */
    ghost predicate Valid()
      reads this
    {
      UniqueIds(issues) && UniqueKeys(entries)
      && (forall k :: 0 <= k < |issues| ==> issues[k].nilColumns == {})
      && (forall q :: q in projects ==> projects[q].id == q && projects[q].nilColumns == {})
      && (forall v :: v in versions ==> versions[v].id == v)
    }

    /** The ids handed out so far: every issue row and every daily entry
     *  refers to an id below the next one the sequence gives. */
    ghost predicate Allocated()
      reads this
    {
      && (forall i :: 0 <= i < |issues| ==> issues[i].id < nextIssueId)
      && (forall i :: 0 <= i < |entries| ==> entries[i].issue < nextIssueId)
    }

    /** `INSERT INTO issues`: the row receives the next id of the sequence. */
    method Insert(draft: Issue) returns (id: IssueId)
      requires Valid() && Allocated() && draft.nilColumns == {}
      modifies this`issues, this`nextIssueId
      ensures Valid() && Allocated()
      ensures id == old(nextIssueId) && nextIssueId == id + 1
      ensures issues == old(issues) + [draft.(id := id)]
      ensures FindIssue(issues, id) == Some(|old(issues)|)
    {
      id := nextIssueId;
      FindIssueAppend(issues, [draft.(id := id)], id);
      issues := issues + [draft.(id := id)];
      nextIssueId := nextIssueId + 1;
    }

    function State(): Snapshot
      reads this, registry
    {
      Snapshot(issues, projects, versions, entries, personTotals, sortOrders, registry.records, nextIssueId)
    }

    /** Rolling a transaction back: every table returns to the snapshot. */
    method Restore(s: Snapshot)
      modifies this, registry
      ensures State() == s
    {
      issues, projects, versions, entries := s.issues, s.projects, s.versions, s.entries;
      personTotals, sortOrders, nextIssueId := s.personTotals, s.sortOrders, s.nextIssueId;
      registry.records := s.latest;
    }
  }
}
