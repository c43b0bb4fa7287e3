/** The staleness registry `gantt_latest_updates`: one record per project,
 *  plus one global record under a null project, holding the time of the
 *  last change. Clients poll it to learn that their grid is stale. */
module GanttLatestUpdate {
  import opened Optional
  import opened Schema

  /** One row. `last_update_user_id` exists in the table but nothing writes
   *  it. */
  datatype Record = Record(lastUpdateDate: Time, lastUpdateUserId: Option<UserId>)

  /** The registry contents after `touch_for(projectId, at)`: the record of
   *  that key is created or updated to `at`, its user column untouched. */
  function Touched(records: map<Option<ProjectId>, Record>, projectId: Option<ProjectId>, at: Time): (r: map<Option<ProjectId>, Record>)
    ensures r.Keys == records.Keys + {projectId}
    ensures r[projectId].lastUpdateDate == at
    ensures forall k :: k in records && k != projectId ==> r[k] == records[k]
  {
    var user := if projectId in records then records[projectId].lastUpdateUserId else None;
    records[projectId := Record(at, user)]
  }

  /** `last_for(projectId)`: the stored time, or nil when no record exists. */
  function Last(records: map<Option<ProjectId>, Record>, projectId: Option<ProjectId>): Option<Time>
  {
    if projectId in records then Some(records[projectId].lastUpdateDate) else None
  }

  /** After a touch, polling that key yields exactly the touch time, and
   *  polling any other key yields what it did before. */
  lemma TouchThenLast(records: map<Option<ProjectId>, Record>, projectId: Option<ProjectId>, at: Time, other: Option<ProjectId>)
    ensures Last(Touched(records, projectId, at), projectId) == Some(at)
    ensures other != projectId ==> Last(Touched(records, projectId, at), other) == Last(records, other)
  {
  }

  /** Touching never writes a user into a record: if no record names a user,
   *  none does afterwards. */
  lemma TouchKeepsUserUnset(records: map<Option<ProjectId>, Record>, projectId: Option<ProjectId>, at: Time)
    requires forall k :: k in records ==> records[k].lastUpdateUserId.None?
    ensures forall k :: k in Touched(records, projectId, at) ==> Touched(records, projectId, at)[k].lastUpdateUserId.None?
  {
  }

  /** A client that saw time `seen` for a key notices a later touch: the
   *  polled value differs whenever the clock moved forward. */
  lemma LaterTouchIsNoticed(records: map<Option<ProjectId>, Record>, projectId: Option<ProjectId>, at: Time)
    requires Last(records, projectId).Some? && Last(records, projectId).value < at
    ensures Last(Touched(records, projectId, at), projectId) != Last(records, projectId)
  {
  }

  class Registry {
    var records: map<Option<ProjectId>, Record>

    constructor ()
      ensures records == map[]
    {
      records := map[];
    }

    /** `GanttLatestUpdate.touch_for(project_id, at:)`: find or initialise the
     *  record of the key and save it with the new time. */
    method TouchFor(projectId: Option<ProjectId>, at: Time)
      modifies this
      ensures records == Touched(old(records), projectId, at)
    {
      var user := if projectId in records then records[projectId].lastUpdateUserId else None;
      records := records[projectId := Record(at, user)];
    }

    /** The two touches every committed edit makes, the project's record
     *  and then the global one: afterwards both poll as `at`. */
    method TouchProjectAndGlobal(project: ProjectId, at: Time)
      modifies this
      ensures records == Touched(Touched(old(records), Some(project), at), None, at)
      ensures Last(records, Some(project)) == Some(at) && Last(records, None) == Some(at)
    {
      TouchFor(Some(project), at);
      TouchFor(None, at);
    }

    /** `GanttLatestUpdate.last_for(project_id)` over the `for_project` scope:
     *  the one record of that key (null selects the global record), or nil. */
    function LastFor(projectId: Option<ProjectId>): (t: Option<Time>)
      reads this
      ensures t.Some? <==> projectId in records
      ensures t.Some? ==> t.value == records[projectId].lastUpdateDate
    {
      Last(records, projectId)
    }
  }
}
