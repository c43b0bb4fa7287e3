/** The plugin's extension of Redmine's `Version`: the start-date column
 *  and the `after_update` hook that touches the staleness registry. */
module VersionPatch {
  import opened Optional
  import opened Schema
  import opened Store
  import opened GanttLatestUpdate

  /** `version_start_date` is safe only for users allowed to
   *  `manage_versions` on the version's project. */
  function VersionSafeAttributeNames(actor: Actor, version: Version): (names: set<string>)
    ensures "version_start_date" in names <==> AllowedTo(actor, ManageVersions, version.project)
    ensures names <= {"version_start_date"}
  {
    if AllowedTo(actor, ManageVersions, version.project) then {"version_start_date"} else {}
  }

  /** `update_gantt_latest_update`, the only `after_update` hook: the
   *  version's project key and the global key are touched; no total is
   *  recomputed, whatever changed. */
  method AfterVersionUpdate(db: Database, v: Version, at: Time)
    modifies db.registry
    ensures db.registry.records == Touched(Touched(old(db.registry.records), Some(v.project), at), None, at)
  {
    db.registry.TouchFor(Some(v.project), at);
    db.registry.TouchFor(None, at);
  }

  /** After a version update both its project's key and the global key
   *  report the update time, and other projects' keys are unchanged. */
  lemma VersionUpdateIsNoticed(records: map<Option<ProjectId>, Record>, p: ProjectId, at: Time, other: ProjectId)
    ensures var r := Touched(Touched(records, Some(p), at), None, at);
      Last(r, Some(p)) == Some(at) && Last(r, None) == Some(at)
      && (other != p ==> Last(r, Some(other)) == Last(records, Some(other)))
  {
    TouchThenLast(records, Some(p), at, Some(other));
    TouchThenLast(Touched(records, Some(p), at), None, at, Some(p));
    TouchThenLast(Touched(records, Some(p), at), None, at, Some(other));
  }

  /** `version.save`: Redmine's validations, then the write and the hook,
   *  which runs even when nothing changed. */
  method SaveVersion(db: Database, edited: Version, validate: Version -> bool, at: Time) returns (saved: bool)
    requires edited.id in db.versions
    modifies db`versions, db.registry
    ensures saved == validate(edited)
    ensures saved ==> db.versions == old(db.versions)[edited.id := edited]
                      && db.registry.records == Touched(Touched(old(db.registry.records), Some(edited.project), at), None, at)
    ensures !saved ==> db.versions == old(db.versions) && db.registry.records == old(db.registry.records)
  {
    if !validate(edited) {
      return false;
    }
    db.versions := db.versions[edited.id := edited];
    AfterVersionUpdate(db, edited, at);
    saved := true;
  }
}
