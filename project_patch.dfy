/** The plugin's extension of Redmine's `Project`: which of its columns a
 *  user may assign, and the `after_update` hooks that rewrite the check
 *  value and touch the staleness registry. */
module ProjectPatch {
  import opened Optional
  import opened Schema
  import opened Store
  import opened GanttLatestUpdate
  import IssuePatch

  /** The plugin's project columns, safe for users allowed to `edit_project`
   *  on that project. */
  const PLUGIN_PROJECT_ATTRIBUTES: set<string> := {"project_start_date", "end_date", "estimated_days", "schedule_days", "check_days"}

  function ProjectSafeAttributeNames(actor: Actor, project: ProjectId): (names: set<string>)
    ensures names == PLUGIN_PROJECT_ATTRIBUTES <==> AllowedTo(actor, EditProject, project)
    ensures names == {} <==> !AllowedTo(actor, EditProject, project)
  {
    if AllowedTo(actor, EditProject, project) then PLUGIN_PROJECT_ATTRIBUTES else {}
  }

  /** `update_check_days`: `update_column(:check_days, schedule_days -
   *  estimated_days)`; nothing else on the row changes. */
  function RecheckProject(p: Project): (r: Project)
    ensures r.checkDays == Some(r.scheduleDays - r.estimatedDays)
    ensures r.(checkDays := p.checkDays) == p
  {
    p.(checkDays := Some(p.scheduleDays - p.estimatedDays))
  }

  /** A project whose scheduled total is the sum over its issues is fully
   *  consistent after the hook, whatever its estimate became. */
  lemma RecheckRestoresProjectConsistency(p: Project, issues: seq<Issue>)
    requires p.scheduleDays == ProjectTotal(issues, p.id)
    ensures IssuePatch.ProjectConsistent(RecheckProject(p), issues)
  {
  }

  /** The hook is idempotent: a second update rewrites nothing. */
  lemma RecheckIdempotent(p: Project)
    ensures RecheckProject(RecheckProject(p)) == RecheckProject(p)
  {
  }

  /** The `after_update` hooks in order: `update_check_days`, then
   *  `update_gantt_latest_update` for the project and the global key. The
   *  column write does not run callbacks again. */
  method AfterProjectUpdate(db: Database, id: ProjectId, at: Time)
    requires id in db.projects
    modifies db`projects, db.registry
    ensures db.projects == old(db.projects)[id := RecheckProject(old(db.projects)[id])]
    ensures db.registry.records == Touched(Touched(old(db.registry.records), Some(id), at), None, at)
  {
    db.projects := db.projects[id := RecheckProject(db.projects[id])];
    db.registry.TouchFor(Some(id), at);
    db.registry.TouchFor(None, at);
  }

  /** `project.save` of an edited row: Redmine's validations, then the write,
   *  which the database refuses when a NOT NULL column was set to nil, and
   *  the `after_update` hooks, which run even when no column changed.
   *  Projects carry no lock version. */
  method SaveProject(db: Database, edited: Project, validate: Project -> bool, at: Time) returns (saved: bool)
    requires edited.id in db.projects
    modifies db`projects, db.registry
    ensures saved <==> validate(edited) && edited.nilColumns == {}
    ensures saved ==> db.projects == old(db.projects)[edited.id := RecheckProject(edited)]
                      && db.registry.records == Touched(Touched(old(db.registry.records), Some(edited.id), at), None, at)
    ensures !saved ==> db.projects == old(db.projects) && db.registry.records == old(db.registry.records)
  {
    if !validate(edited) || edited.nilColumns != {} {
      return false;
    }
    db.projects := db.projects[edited.id := edited];
    AfterProjectUpdate(db, edited.id, at);
    saved := true;
  }
}
