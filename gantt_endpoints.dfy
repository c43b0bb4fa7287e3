/** The controller's smaller actions: the project row's estimate
 *  (`bulk_update_project`), dragging a project's or a milestone's dates
 *  (`update_project_date`, `update_version_date`), the staleness poll
 *  (`get_latest_update`) and each user's row order (`update_sort_number`). */
module GanttEndpoints {
  import opened Optional
  import opened Hundredths
  import opened Text
  import opened Calendar
  import opened Schema
  import opened Sums
  import opened Store
  import opened GanttLatestUpdate
  import opened Http
  import IssuePatch
  import opened ProjectPatch
  import opened VersionPatch

  datatype ProjectAnswer =
    | ProjectNotFound
    | ProjectForbidden
      /** The estimate was nil: the `NOT NULL` column refuses the row. */
    | ProjectUnfit
    | ProjectInvalid
      /** `results` holds the new estimate and check value, or nothing when
       *  the estimate did not change. */
    | ProjectUpdated(results: map<string, int>)
  {
    function Status(): int
    {
      match this
      case ProjectNotFound => NOT_FOUND
      case ProjectForbidden => FORBIDDEN
      case ProjectUnfit => INTERNAL_SERVER_ERROR
      case ProjectInvalid => UNPROCESSABLE_ENTITY
      case ProjectUpdated(_) => OK
    }
  }

  /** The project row once its estimate became `e` and the `after_update`
   *  hook ran. */
  function Reestimated(p: Project, e: int): (r: Project)
    ensures r.estimatedDays == e && r.checkDays == Some(p.scheduleDays - e)
    ensures r.(estimatedDays := p.estimatedDays, checkDays := p.checkDays) == p
  {
    RecheckProject(p.(estimatedDays := e))
  }

  /** A new estimate keeps a consistent project consistent: its scheduled
   *  total does not depend on the estimate and the hook recomputes the
   *  check value. */
  lemma ReestimateKeepsConsistency(p: Project, e: int, issues: seq<Issue>)
    requires IssuePatch.ProjectConsistent(p, issues)
    ensures IssuePatch.ProjectConsistent(Reestimated(p, e), issues)
  {
  }

  /** `bulk_update_project`: the project must exist (404) and the user may
   *  `edit_project` on it (403). The estimate is assigned; only when it
   *  changed is the row saved: Redmine's validations first (422 with
   *  nothing written), then the write, which the database refuses when the
   *  estimate is nil (500), then the hooks that recompute the check value
   *  and touch the registry; the new estimate and check value are
   *  reported. */
  method BulkUpdateProject(db: Database, actor: Actor, id: ProjectId, estimated: Value,
                           validate: Project -> bool, at: Time) returns (answer: ProjectAnswer)
    requires db.Valid()
    modifies db`projects, db.registry
    ensures answer == ProjectNotFound <==> id !in old(db.projects)
    ensures answer == ProjectForbidden <==> id in old(db.projects) && !AllowedTo(actor, EditProject, id)
    ensures answer == ProjectUnfit <==> id in old(db.projects) && AllowedTo(actor, EditProject, id) && AsDecimal(estimated).None?
                                        && validate(old(db.projects[id]).(nilColumns := {"estimated_days"}))
    ensures answer.Status() == OK <==> answer.ProjectUpdated?
    ensures !answer.ProjectUpdated? || answer.results == map[] ==>
              db.projects == old(db.projects) && db.registry.records == old(db.registry.records)
    ensures id in old(db.projects) && AllowedTo(actor, EditProject, id) && AsDecimal(estimated).None? ==>
      (answer == ProjectInvalid <==> !validate(old(db.projects[id]).(nilColumns := {"estimated_days"})))
    ensures id in old(db.projects) && AllowedTo(actor, EditProject, id) && AsDecimal(estimated).Some? ==>
      var p := old(db.projects[id]);
      var e := Round2(AsDecimal(estimated).value);
      && (e == p.estimatedDays ==> answer == ProjectUpdated(map[]))
      && (e != p.estimatedDays ==> (answer == ProjectInvalid <==> !validate(p.(estimatedDays := e))))
      && (e != p.estimatedDays && answer.ProjectUpdated? ==>
            && answer.results == map["estimated_days" := e, "check_days" := p.scheduleDays - e]
            && db.projects == old(db.projects)[id := Reestimated(p, e)]
            && db.registry.records == Touched(Touched(old(db.registry.records), Some(id), at), None, at))
    ensures forall q :: q in old(db.projects) && IssuePatch.ProjectConsistent(old(db.projects[q]), db.issues)
                        ==> q in db.projects && IssuePatch.ProjectConsistent(db.projects[q], db.issues)
  {
    if id !in db.projects {
      return ProjectNotFound;
    }
    if !AllowedTo(actor, EditProject, id) {
      return ProjectForbidden;
    }
    var p := db.projects[id];
    var d := AsDecimal(estimated);
    assert p.nilColumns + {"estimated_days"} == {"estimated_days"};
    var edited := if d.None? then p.(nilColumns := p.nilColumns + {"estimated_days"}) else p.(estimatedDays := Round2(d.value));
    if edited == p {
      return ProjectUpdated(map[]);
    }
    var saved := SaveProject(db, edited, validate, at);
    if !saved {
      return if validate(edited) then ProjectUnfit else ProjectInvalid;
    }
    var e := edited.estimatedDays;
    if IssuePatch.ProjectConsistent(p, db.issues) {
      ReestimateKeepsConsistency(p, e, db.issues);
    }
    answer := ProjectUpdated(map["estimated_days" := e, "check_days" := p.scheduleDays - e]);
    assert "estimated_days" in answer.results;
  }

  /** `update_project_date`: the project must exist (404); the permission
   *  checked is `edit_project` on the project of the URL, not on the one
   *  being changed (403). The dates are assigned and the row saved with
   *  its hooks (200), or validation fails (422). */
  method UpdateProjectDate(db: Database, actor: Actor, urlProject: ProjectId, id: ProjectId,
                           start: Option<Date>, end: Option<Date>, validate: Project -> bool, at: Time)
    returns (status: int)
    requires db.Valid()
    modifies db`projects, db.registry
    ensures status == NOT_FOUND <==> id !in old(db.projects)
    ensures status == FORBIDDEN <==> id in old(db.projects) && !AllowedTo(actor, EditProject, urlProject)
    ensures id in old(db.projects) && AllowedTo(actor, EditProject, urlProject) ==>
      var edited := old(db.projects[id]).(projectStartDate := start, endDate := end);
      && (status == OK <==> validate(edited))
      && (status == OK || status == UNPROCESSABLE_ENTITY)
      && (status == OK ==> db.projects == old(db.projects)[id := RecheckProject(edited)]
                           && db.registry.records == Touched(Touched(old(db.registry.records), Some(id), at), None, at))
    ensures status != OK ==> db.projects == old(db.projects) && db.registry.records == old(db.registry.records)
  {
    if id !in db.projects {
      return NOT_FOUND;
    }
    if !AllowedTo(actor, EditProject, urlProject) {
      return FORBIDDEN;
    }
    var edited := db.projects[id].(projectStartDate := start, endDate := end);
    var saved := SaveProject(db, edited, validate, at);
    status := if saved then OK else UNPROCESSABLE_ENTITY;
  }

  /** `update_version_date`: the version must exist (404); the permission
   *  checked is `manage_versions` on the project of the URL (403). The
   *  start date and the due date are assigned and the row saved, touching
   *  the registry records of the version's own project and the global
   *  one (200), or validation fails (422). */
  method UpdateVersionDate(db: Database, actor: Actor, urlProject: ProjectId, id: VersionId,
                           start: Option<Date>, end: Option<Date>, validate: Version -> bool, at: Time)
    returns (status: int)
    requires db.Valid()
    modifies db`versions, db.registry
    ensures status == NOT_FOUND <==> id !in old(db.versions)
    ensures status == FORBIDDEN <==> id in old(db.versions) && !AllowedTo(actor, ManageVersions, urlProject)
    ensures id in old(db.versions) && AllowedTo(actor, ManageVersions, urlProject) ==>
      var v := old(db.versions[id]);
      var edited := v.(versionStartDate := start, effectiveDate := end);
      && (status == OK <==> validate(edited))
      && (status == OK || status == UNPROCESSABLE_ENTITY)
      && (status == OK ==> db.versions == old(db.versions)[id := edited]
                           && db.registry.records == Touched(Touched(old(db.registry.records), Some(v.project), at), None, at))
    ensures status != OK ==> db.versions == old(db.versions) && db.registry.records == old(db.registry.records)
  {
    if id !in db.versions {
      return NOT_FOUND;
    }
    if !AllowedTo(actor, ManageVersions, urlProject) {
      return FORBIDDEN;
    }
    var v := db.versions[id];
    var edited := v.(versionStartDate := start, effectiveDate := end);
    var saved := SaveVersion(db, edited, validate, at);
    status := if saved then OK else UNPROCESSABLE_ENTITY;
  }

  /** Redmine keeps project identifiers unique. */
  ghost predicate UniqueIdentifiers(projects: map<ProjectId, Project>)
  {
    forall p, q :: p in projects && q in projects && projects[p].identifier == projects[q].identifier ==> p == q
  }

  /** `Project.find_by(identifier:)&.id`. */
  function ProjectByIdentifier(projects: map<ProjectId, Project>, identifier: string): (r: Option<ProjectId>)
    requires UniqueIdentifiers(projects)
    ensures r.Some? <==> exists q :: q in projects && projects[q].identifier == identifier
    ensures r.Some? ==> r.value in projects && projects[r.value].identifier == identifier
  {
    if exists q :: q in projects && projects[q].identifier == identifier then
      var q :| q in projects && projects[q].identifier == identifier;
      Some(q)
    else None
  }

  /** The registry key `get_latest_update` reads: a blank or missing
   *  identifier polls the global record, and so does an identifier that
   *  names no project. */
  function PolledKey(projects: map<ProjectId, Project>, identifier: Option<string>): (key: Option<ProjectId>)
    requires UniqueIdentifiers(projects)
    ensures key.Some? <==> identifier.Some? && !IsBlank(identifier.value)
                           && exists q :: q in projects && projects[q].identifier == identifier.value
    ensures key.Some? ==> key.value in projects && projects[key.value].identifier == identifier.value
  {
    if identifier.None? || IsBlank(identifier.value) then None
    else ProjectByIdentifier(projects, identifier.value)
  }

  /** `get_latest_update`: the last update time of the polled key, or nil
   *  when that key was never touched. */
  function GetLatestUpdate(db: Database, identifier: Option<string>): (t: Option<Time>)
    reads db, db.registry
    requires UniqueIdentifiers(db.projects)
    ensures t.Some? <==> PolledKey(db.projects, identifier) in db.registry.records
    ensures t.Some? ==> t.value == db.registry.records[PolledKey(db.projects, identifier)].lastUpdateDate
  {
    db.registry.LastFor(PolledKey(db.projects, identifier))
  }

  /** A client polling with a project's identifier sees the time of the last
   *  touch of that project's key, and a client polling with an unknown
   *  identifier sees the global key, which every committed change touches. */
  lemma PollSeesTouch(records: map<Option<ProjectId>, Record>, projects: map<ProjectId, Project>,
                      identifier: Option<string>, at: Time)
    requires UniqueIdentifiers(projects)
    ensures Last(Touched(records, PolledKey(projects, identifier), at), PolledKey(projects, identifier)) == Some(at)
    ensures identifier.Some? && !IsBlank(identifier.value) && PolledKey(projects, identifier).None?
            ==> Last(Touched(records, None, at), PolledKey(projects, identifier)) == Some(at)
  {
    TouchThenLast(records, PolledKey(projects, identifier), at, None);
  }

  /** One element of the request's `order` array. */
  datatype OrderRow = OrderRow(issueId: Option<int>, sortNumber: int)

  /** The rows `upsert_all` writes: those whose issue id is present and
   *  names an existing issue, in request order, as (issue, sort number). */
  function KeptOrders(issues: seq<Issue>, order: seq<OrderRow>): (rows: seq<(IssueId, int)>)
    ensures |rows| <= |order|
    ensures forall i :: 0 <= i < |rows| ==> FindIssue(issues, rows[i].0).Some?
    ensures forall i :: 0 <= i < |order| && Lookup(issues, order[i].issueId).Some?
                        ==> (order[i].issueId.value, order[i].sortNumber) in rows
  {
    var kept := Filter(order, (r: OrderRow) => Lookup(issues, r.issueId).Some?);
    var rows := seq(|kept|, i requires 0 <= i < |kept| => (kept[i].issueId.value as IssueId, kept[i].sortNumber));
    assert forall i :: 0 <= i < |order| && Lookup(issues, order[i].issueId).Some? ==>
      exists j :: 0 <= j < |kept| && kept[j] == order[i] && rows[j] == (order[i].issueId.value, order[i].sortNumber);
    rows
  }

  /** `upsert_all(rows, unique_by: [:user_id, :issue_id])`, one row after
   *  another. */
  function Upserted(orders: map<(UserId, IssueId), int>, user: UserId, rows: seq<(IssueId, int)>): (r: map<(UserId, IssueId), int>)
    ensures orders.Keys <= r.Keys
    ensures forall i :: 0 <= i < |rows| ==> (user, rows[i].0) in r
    ensures forall k :: k in r && k !in orders ==> k.0 == user
    ensures |rows| > 0 ==> r[(user, rows[|rows| - 1].0)] == rows[|rows| - 1].1
    decreases |rows|
  {
    if rows == [] then orders
    else
      var n := |rows| - 1;
      Upserted(orders, user, rows[..n])[(user, rows[n].0) := rows[n].1]
  }

  /** After the upsert, the user's row for an issue holds the sort number of
   *  the last request row for that issue; every other user's rows and the
   *  user's rows for issues not in the request are as they were. */
  lemma {:induction false} UpsertedLookup(orders: map<(UserId, IssueId), int>, user: UserId, rows: seq<(IssueId, int)>,
                                          u: UserId, x: IssueId)
    ensures var r := Upserted(orders, user, rows);
      if u == user && exists i :: 0 <= i < |rows| && rows[i].0 == x
      then (u, x) in r && exists i :: 0 <= i < |rows| && rows[i].0 == x && r[(u, x)] == rows[i].1
                                      && forall j :: i < j < |rows| ==> rows[j].0 != x
      else ((u, x) in r <==> (u, x) in orders) && ((u, x) in orders ==> r[(u, x)] == orders[(u, x)])
    decreases |rows|
  {
    if rows != [] {
      var n := |rows| - 1;
      UpsertedLookup(orders, user, rows[..n], u, x);
      if u == user && rows[n].0 != x && exists i :: 0 <= i < |rows| && rows[i].0 == x {
        var i :| 0 <= i < |rows| && rows[i].0 == x;
        assert rows[..n][i] == rows[i];
      }
    }
  }

  /** `update_sort_number`. A blank `order` renders 400 but the action goes
   *  on: with nothing to upsert, the second render raises and the request
   *  ends in a server error (500) with nothing written. Otherwise the
   *  signed-in user's sort numbers of the existing issues named in the
   *  request are upserted (200). The registry is not touched. */
  method UpdateSortNumber(db: Database, actor: Actor, order: Option<seq<OrderRow>>) returns (status: int)
    modifies db`sortOrders
    ensures order.None? || order.value == [] ==> status == INTERNAL_SERVER_ERROR && db.sortOrders == old(db.sortOrders)
    ensures order.Some? && order.value != [] ==>
              status == OK && db.sortOrders == Upserted(old(db.sortOrders), actor.id, KeptOrders(db.issues, order.value))
  {
    if order.None? || order.value == [] {
      return INTERNAL_SERVER_ERROR;
    }
    var rows := KeptOrders(db.issues, order.value);
    db.sortOrders := Upserted(db.sortOrders, actor.id, rows);
    status := OK;
  }
}
