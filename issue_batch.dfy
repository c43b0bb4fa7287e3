/** The controller's actions over several issue rows at once: deleting the
 *  selected rows (`delete_selected_issues`), creating blank rows
 *  (`create_empty_issues`), copying rows (`copy_issues`) and recolouring
 *  rows (`change_row_color`). */
module IssueBatch {
  import opened Optional
  import opened Calendar
  import opened Schema
  import opened Hundredths
  import opened Sums
  import opened Store
  import opened GanttLatestUpdate
  import opened Http
  import opened IssuePatch

  /** Whether a row survives deleting the issues `ids`. */
  function NotIn(ids: seq<IssueId>): Issue -> bool
  {
    (i: Issue) => i.id !in ids
  }

  function EntryNotIn(ids: seq<IssueId>): Entry -> bool
  {
    (e: Entry) => e.issue !in ids
  }

  lemma FilterKeepsUniqueIds(issues: seq<Issue>, keep: Issue -> bool)
    requires UniqueIds(issues)
    ensures UniqueIds(Filter(issues, keep))
  {
    var key := (i: Issue) => i.id;
    FilterKeepsKeysDistinct(issues, key, keep);
  }

  lemma FilterKeepsUniqueKeys(entries: seq<Entry>, keep: Entry -> bool)
    requires UniqueKeys(entries)
    ensures UniqueKeys(Filter(entries, keep))
  {
    var key := (e: Entry) => (e.issue, e.date);
    FilterKeepsKeysDistinct(entries, key, keep);
  }

  /** Deleting one more issue row: the rows left are those of neither the
   *  issues deleted before nor this one. */
  lemma DeleteStep(issues: seq<Issue>, entries: seq<Entry>, done: seq<IssueId>, id: IssueId)
    ensures Filter(Filter(issues, NotIn(done)), OtherId(id)) == Filter(issues, NotIn(done + [id]))
    ensures Filter(Filter(entries, EntryNotIn(done)), OtherIssue(id)) == Filter(entries, EntryNotIn(done + [id]))
  {
    assert forall x :: x in done + [id] <==> x in done || x == id;
    FilterFilter(issues, NotIn(done), OtherId(id), NotIn(done + [id]));
    FilterFilter(entries, EntryNotIn(done), OtherIssue(id), EntryNotIn(done + [id]));
  }

  /** `issue_sort_orders` once the issues `ids` are deleted: their rows go
   *  with them. */
  function OrdersWithout(orders: map<(UserId, IssueId), int>, ids: seq<IssueId>): map<(UserId, IssueId), int>
  {
    map key | key in orders && key.1 !in ids :: orders[key]
  }

  lemma OrdersStep(orders: map<(UserId, IssueId), int>, done: seq<IssueId>, id: IssueId)
    ensures (map key | key in OrdersWithout(orders, done) && key.1 != id :: OrdersWithout(orders, done)[key])
            == OrdersWithout(orders, done + [id])
  {
    assert forall x :: x in done + [id] <==> x in done || x == id;
  }

  /** With its row gone, every other issue keeps its assignee. */
  lemma RemovedRowKeepsAssignees(issues: seq<Issue>, id: IssueId, x: IssueId)
    requires UniqueIds(issues) && x != id
    ensures AssigneeOf(Filter(issues, OtherId(id)), x) == AssigneeOf(issues, x)
  {
    var after := Filter(issues, OtherId(id));
    var f := FindIssue(issues, x);
    if f.Some? {
      assert issues[f.value] in after;
      var g := FindIssue(after, x);
      assert after[g.value] in issues;
      var m :| 0 <= m < |issues| && issues[m] == after[g.value];
      assert m == f.value;
    } else {
      assert forall j :: 0 <= j < |after| ==> after[j] in issues;
    }
  }

  /** `issue.destroy!` keeps the person totals accurate for the rows that
   *  are left, the issue row included. */
  lemma DestroyIssueKeepsAccurate(pt: map<(UserId, Date), int>, pt1: map<(UserId, Date), int>,
                                  entries: seq<Entry>, issues: seq<Issue>, id: IssueId)
    requires UniqueIds(issues)
    requires Accurate(pt, entries, issues)
    requires DestroyedTotals(pt, pt1, AssigneeOf(issues, id), DatesOf(entries, id), Filter(entries, OtherIssue(id)), issues)
    ensures Accurate(pt1, Filter(entries, OtherIssue(id)), Filter(issues, OtherId(id)))
  {
    DestroyKeepsAccurate(pt, pt1, entries, issues, id);
    var rest := Filter(entries, OtherIssue(id));
    var after := Filter(issues, OtherId(id));
    forall key: (UserId, Date)
      ensures PersonDayTotal(rest, after, key.0, key.1) == PersonDayTotal(rest, issues, key.0, key.1)
    {
      forall i | 0 <= i < |rest|
        ensures PersonDayShare(after, key.0, key.1)(rest[i]) == PersonDayShare(issues, key.0, key.1)(rest[i])
      {
        RemovedRowKeepsAssignees(issues, id, rest[i].issue);
      }
      SumSame(rest, PersonDayShare(after, key.0, key.1), PersonDayShare(issues, key.0, key.1));
    }
  }

  /** The tables once the issues `done` were destroyed, one after another,
   *  starting from `issues0`, `entries0` and `orders0`. */
  ghost predicate DeletedSoFar(db: Database, issues0: seq<Issue>, entries0: seq<Entry>,
                               orders0: map<(UserId, IssueId), int>, done: seq<IssueId>)
    reads db
  {
    && db.issues == Filter(issues0, NotIn(done))
    && db.entries == Filter(entries0, EntryNotIn(done))
    && db.sortOrders == OrdersWithout(orders0, done)
  }

  /** The ids the loop destroyed: the first `|done|` ids of the request,
   *  each an existing issue the user may delete. */
  ghost predicate Approved(ids: seq<Option<int>>, done: seq<IssueId>, actor: Actor, issues0: seq<Issue>)
  {
    && |done| <= |ids|
    && (forall j :: 0 <= j < |done| ==> ids[j] == Some(done[j] as int))
    && (forall j :: 0 <= j < |done| ==> done[j] in actor.deletableIssues)
    && (forall j :: 0 <= j < |done| ==> FindIssue(issues0, done[j]).Some?)
  }

  lemma ApprovedStep(ids: seq<Option<int>>, done: seq<IssueId>, actor: Actor, issues0: seq<Issue>, id: IssueId)
    requires Approved(ids, done, actor, issues0) && |done| < |ids|
    requires ids[|done|] == Some(id as int) && id in actor.deletableIssues && FindIssue(issues0, id).Some?
    ensures Approved(ids, done + [id], actor, issues0)
  {
  }

  /** A row left by a filter is a row of the table it came from. */
  lemma FilteredRowExists(issues: seq<Issue>, keep: Issue -> bool, row: Issue)
    requires row in Filter(issues, keep)
    ensures FindIssue(issues, row.id).Some?
  {
    var m :| 0 <= m < |issues| && issues[m] == row;
  }

  /** One `issue.destroy!` of the delete loop, with what it keeps. */
  method DeleteOne(db: Database, ghost issues0: seq<Issue>, ghost entries0: seq<Entry>,
                   ghost orders0: map<(UserId, IssueId), int>, ghost done: seq<IssueId>, id: IssueId)
    requires db.Valid() && DeletedSoFar(db, issues0, entries0, orders0, done)
    modifies db`issues, db`entries, db`personTotals, db`sortOrders
    ensures db.Valid() && DeletedSoFar(db, issues0, entries0, orders0, done + [id])
    ensures old(Accurate(db.personTotals, db.entries, db.issues)) ==> Accurate(db.personTotals, db.entries, db.issues)
  {
    DeleteStep(issues0, entries0, done, id);
    OrdersStep(orders0, done, id);
    DestroyIssue(db, id);
    FilterKeepsUniqueIds(old(db.issues), OtherId(id));
    FilterKeepsUniqueKeys(old(db.entries), OtherIssue(id));
    if old(Accurate(db.personTotals, db.entries, db.issues)) {
      DestroyIssueKeepsAccurate(old(db.personTotals), db.personTotals, old(db.entries), old(db.issues), id);
    }
  }

  /** `delete_selected_issues`: one row after another, a missing issue
   *  answers 404 and an issue the user may not delete 403, ending the
   *  loop; every issue before it was destroyed with its daily entries and
   *  sort numbers. The project totals are not recomputed and the registry
   *  is not touched. */
  method DeleteSelectedIssues(db: Database, actor: Actor, ids: seq<Option<int>>) returns (status: int, results: seq<IssueId>)
    requires db.Valid()
    modifies db`issues, db`entries, db`personTotals, db`sortOrders
    ensures db.Valid()
    ensures old(Accurate(db.personTotals, db.entries, db.issues)) ==> Accurate(db.personTotals, db.entries, db.issues)
    ensures Approved(ids, results, actor, old(db.issues))
    ensures DeletedSoFar(db, old(db.issues), old(db.entries), old(db.sortOrders), results)
    ensures status == OK <==> |results| == |ids|
    ensures status == NOT_FOUND <==> |results| < |ids| && Lookup(db.issues, ids[|results|]).None?
    ensures status == FORBIDDEN <==> |results| < |ids| && Lookup(db.issues, ids[|results|]).Some?
                                     && ToI(ids[|results|]) !in actor.deletableIssues
  {
    results := [];
    assert db.sortOrders == OrdersWithout(db.sortOrders, []);
    assert Filter(db.issues, NotIn([])) == db.issues by {
      FilterSame(db.issues, NotIn([]), (x: Issue) => true);
      FilterAll(db.issues);
    }
    assert Filter(db.entries, EntryNotIn([])) == db.entries by {
      FilterSame(db.entries, EntryNotIn([]), (x: Entry) => true);
      FilterAll(db.entries);
    }
    while |results| < |ids|
      invariant db.Valid()
      invariant old(Accurate(db.personTotals, db.entries, db.issues)) ==> Accurate(db.personTotals, db.entries, db.issues)
      invariant Approved(ids, results, actor, old(db.issues))
      invariant DeletedSoFar(db, old(db.issues), old(db.entries), old(db.sortOrders), results)
      decreases |ids| - |results|
    {
      var f := Lookup(db.issues, ids[|results|]);
      if f.None? {
        return NOT_FOUND, results;
      }
      var id := db.issues[f.value].id;
      if id !in actor.deletableIssues {
        return FORBIDDEN, results;
      }
      FilteredRowExists(old(db.issues), NotIn(results), db.issues[f.value]);
      ApprovedStep(ids, results, actor, old(db.issues), id);
      DeleteOne(db, old(db.issues), old(db.entries), old(db.sortOrders), results, id);
      results := results + [id];
    }
    status := OK;
  }

  /** An appended row that no daily entry refers to changes no person's
   *  daily total. */
  lemma AppendRowKeepsAccurate(pt: map<(UserId, Date), int>, entries: seq<Entry>, issues: seq<Issue>, row: Issue)
    requires Accurate(pt, entries, issues)
    requires forall i :: 0 <= i < |entries| ==> entries[i].issue != row.id
    ensures Accurate(pt, entries, issues + [row])
  {
    forall key: (UserId, Date)
      ensures PersonDayTotal(entries, issues + [row], key.0, key.1) == PersonDayTotal(entries, issues, key.0, key.1)
    {
      forall i | 0 <= i < |entries|
        ensures PersonDayShare(issues + [row], key.0, key.1)(entries[i]) == PersonDayShare(issues, key.0, key.1)(entries[i])
      {
        FindIssueAppend(issues, [row], entries[i].issue);
      }
      SumSame(entries, PersonDayShare(issues + [row], key.0, key.1), PersonDayShare(issues, key.0, key.1));
    }
  }

  /** An appended row with nothing scheduled changes no project's total. */
  lemma AppendRowKeepsTotals(issues: seq<Issue>, row: Issue)
    requires row.scheduleDays == 0
    ensures forall p :: ProjectTotal(issues + [row], p) == ProjectTotal(issues, p)
  {
    forall p ensures ProjectTotal(issues + [row], p) == ProjectTotal(issues, p) {
      SumAppend(issues, row, ProjectShare(p));
    }
  }

  /** A nullable id as the record holds it. */
  function IdValue(id: Option<int>): (v: Value)
    ensures v.Null? <==> id.None?
    ensures id.Some? ==> v == Num(Decimal(id.value, 0))
  {
    if id.None? then Null else Num(Decimal(id.value, 0))
  }

  /** The untitled row `create_empty_issues` saves: the project, its first
   *  tracker, the subject 無題, the tracker's default status and the default
   *  priority (either may be missing, and is then nil in its `NOT NULL`
   *  column), every other column at its default. */
  function BlankIssue(project: ProjectId, tracker: TrackerId, status: Option<int>, priority: Option<int>): (r: Issue)
    ensures r.project == project && r.tracker == tracker && r.subject == "無題"
    ensures r.assignee.None? && r.estimatedDays == 0 && r.scheduleDays == 0 && r.checkDays.None? && r.colorId.None?
    ensures ReadAttribute(r, "status_id") == IdValue(status) && ReadAttribute(r, "priority_id") == IdValue(priority)
    ensures forall key :: key in r.fields ==> key == "status_id" || key == "priority_id"
    ensures forall key :: key in r.nilColumns <==> (key == "status_id" && status.None?) || (key == "priority_id" && priority.None?)
  {
    var fields := (if status.Some? then map["status_id" := IdValue(status)] else map[])
                  + (if priority.Some? then map["priority_id" := IdValue(priority)] else map[]);
    var nils := (if status.None? then {"status_id"} else {}) + (if priority.None? then {"priority_id"} else {});
    Issue(0, project, tracker, "無題", None, 0, 0, None, None, 0, fields, nils)
  }

  /** The rows one request created: `draft` saved under each of the ids. */
  function Stamped(draft: Issue, ids: seq<IssueId>): (rows: seq<Issue>)
    ensures |rows| == |ids|
    ensures forall j :: 0 <= j < |ids| ==> rows[j] == draft.(id := ids[j])
  {
    seq(|ids|, j requires 0 <= j < |ids| => draft.(id := ids[j]))
  }

  /** Ids handed out one after another by the sequence. */
  ghost predicate Consecutive(ids: seq<IssueId>, start: nat)
  {
    forall j :: 0 <= j < |ids| ==> ids[j] == start + j
  }

  /** Rows with nothing scheduled, appended under any ids, change no
   *  project's scheduled total. */
  lemma {:induction false} StampedKeepsTotal(issues: seq<Issue>, draft: Issue, ids: seq<IssueId>, p: ProjectId)
    requires draft.scheduleDays == 0
    ensures ProjectTotal(issues + Stamped(draft, ids), p) == ProjectTotal(issues, p)
    decreases |ids|
  {
    if ids == [] {
      assert issues + Stamped(draft, ids) == issues;
    } else {
      var n := |ids| - 1;
      assert issues + Stamped(draft, ids) == (issues + Stamped(draft, ids[..n])) + [draft.(id := ids[n])];
      SumAppend(issues + Stamped(draft, ids[..n]), draft.(id := ids[n]), ProjectShare(p));
      StampedKeepsTotal(issues, draft, ids[..n], p);
    }
  }

  /** Unassigned rows, appended under any ids, leave every issue's assignee
   *  as it was, so every person's daily total too. */
  lemma StampedKeepsAccurate(pt: map<(UserId, Date), int>, entries: seq<Entry>, issues: seq<Issue>,
                             draft: Issue, ids: seq<IssueId>)
    requires draft.assignee.None? && Accurate(pt, entries, issues)
    ensures Accurate(pt, entries, issues + Stamped(draft, ids))
  {
    var rows := Stamped(draft, ids);
    forall key: (UserId, Date)
      ensures PersonDayTotal(entries, issues + rows, key.0, key.1) == PersonDayTotal(entries, issues, key.0, key.1)
    {
      forall i | 0 <= i < |entries|
        ensures PersonDayShare(issues + rows, key.0, key.1)(entries[i]) == PersonDayShare(issues, key.0, key.1)(entries[i])
      {
        FindIssueAppend(issues, rows, entries[i].issue);
      }
      SumSame(entries, PersonDayShare(issues + rows, key.0, key.1), PersonDayShare(issues, key.0, key.1));
    }
  }

  /** The `count.times` loop: every round saves `draft` under the next id.
   *  A draft that fails validation stops it (`issue.save` is false), and one
   *  that validates with nil in a `NOT NULL` column makes the database raise.
   *  The draft is the same every round, so either happens in the first. */
  method InsertBlanks(db: Database, draft: Issue, count: nat, validate: Issue -> bool)
    returns (outcome: SaveOutcome, results: seq<IssueId>)
    requires db.Valid() && db.Allocated()
    modifies db`issues, db`nextIssueId
    ensures db.Valid() && db.Allocated()
    ensures outcome != StaleObject
    ensures outcome == Invalid <==> count > 0 && !validate(draft)
    ensures outcome == NotNullViolation <==> count > 0 && validate(draft) && draft.nilColumns != {}
    ensures outcome == Saved ==> |results| == count && Consecutive(results, old(db.nextIssueId))
                                 && db.issues == old(db.issues) + Stamped(draft, results)
                                 && db.nextIssueId == old(db.nextIssueId) + count
    ensures outcome != Saved ==> db.issues == old(db.issues) && db.nextIssueId == old(db.nextIssueId)
  {
    results := [];
    var i := 0;
    while i < count
      invariant 0 <= i <= count && |results| == i
      invariant db.Valid() && db.Allocated()
      invariant db.nextIssueId == old(db.nextIssueId) + i && Consecutive(results, old(db.nextIssueId))
      invariant db.issues == old(db.issues) + Stamped(draft, results)
      invariant i > 0 ==> validate(draft) && draft.nilColumns == {}
    {
      if !validate(draft) {
        return Invalid, results;
      }
      if draft.nilColumns != {} {
        return NotNullViolation, results;
      }
      var id := db.Insert(draft);
      assert Stamped(draft, results + [id]) == Stamped(draft, results) + [draft.(id := id)];
      results := results + [id];
      i := i + 1;
    }
    outcome := Saved;
  }

  /** The row `create_empty_issues` builds for the URL project: its first
   *  tracker, that tracker's default status and the default priority. */
  function ProjectBlank(project: Project, defaultStatus: TrackerId -> Option<int>, priority: Option<int>): Issue
    requires project.trackers != []
  {
    BlankIssue(project.id, project.trackers[0], defaultStatus(project.trackers[0]), priority)
  }

  /** `create_empty_issues`: `count` untitled rows of the URL project in one
   *  transaction, all saved or, when one fails validation, none (422). A
   *  draft that validates with a nil status or priority makes the database
   *  raise, which rolls the transaction back and answers 500. No hook runs
   *  on a create and the registry is not touched. `defaultStatus` is each
   *  tracker's `default_status` and `priority` the default priority, nil
   *  when there is none. */
  method CreateEmptyIssues(db: Database, actor: Actor, urlProject: ProjectId, count: int,
                           defaultStatus: TrackerId -> Option<int>, priority: Option<int>, validate: Issue -> bool)
    returns (status: int, results: seq<IssueId>)
    requires db.Valid() && db.Allocated() && urlProject in db.projects
    modifies db`issues, db`nextIssueId
    ensures db.Valid() && db.Allocated()
    ensures status == UNPROCESSABLE_ENTITY || status == FORBIDDEN || status == CREATED || status == INTERNAL_SERVER_ERROR
    ensures status == FORBIDDEN <==> count >= 0 && !AllowedTo(actor, AddIssues, urlProject)
    ensures var p := db.projects[urlProject];
      && (status == CREATED <==> count >= 0 && AllowedTo(actor, AddIssues, urlProject) && p.trackers != []
                                 && (count == 0 || (validate(ProjectBlank(p, defaultStatus, priority))
                                                    && ProjectBlank(p, defaultStatus, priority).nilColumns == {})))
      && (status == INTERNAL_SERVER_ERROR <==> count > 0 && AllowedTo(actor, AddIssues, urlProject) && p.trackers != []
                                               && validate(ProjectBlank(p, defaultStatus, priority))
                                               && ProjectBlank(p, defaultStatus, priority).nilColumns != {})
      && (status == CREATED ==> |results| == count && Consecutive(results, old(db.nextIssueId))
                                && db.issues == old(db.issues) + Stamped(ProjectBlank(p, defaultStatus, priority), results))
    ensures status != CREATED ==> results == [] && db.issues == old(db.issues) && db.nextIssueId == old(db.nextIssueId)
    ensures forall p :: ProjectTotal(db.issues, p) == ProjectTotal(old(db.issues), p)
    ensures Accurate(db.personTotals, db.entries, old(db.issues)) ==> Accurate(db.personTotals, db.entries, db.issues)
  {
    results := [];
    if count < 0 {
      return UNPROCESSABLE_ENTITY, [];
    }
    if !AllowedTo(actor, AddIssues, urlProject) {
      return FORBIDDEN, [];
    }
    var project := db.projects[urlProject];
    if project.trackers == [] {
      return UNPROCESSABLE_ENTITY, [];
    }
    var draft := ProjectBlank(project, defaultStatus, priority);
    var issues0 := db.issues;
    var outcome;
    outcome, results := InsertBlanks(db, draft, count, validate);
    if outcome == Invalid {
      // `raise ActiveRecord::Rollback`
      return UNPROCESSABLE_ENTITY, [];
    } else if outcome == NotNullViolation {
      // the database's error leaves the transaction and the action
      return INTERNAL_SERVER_ERROR, [];
    }
    forall p ensures ProjectTotal(db.issues, p) == ProjectTotal(issues0, p) {
      StampedKeepsTotal(issues0, draft, results, p);
    }
    if Accurate(db.personTotals, db.entries, issues0) {
      StampedKeepsAccurate(db.personTotals, db.entries, issues0, draft, results);
    }
    status := CREATED;
  }

  /** The row `copy_issues` saves for a source row: `copy_from` keeps its
   *  columns (the status included, which Redmine resets to the tracker's
   *  default), the scheduled total starts at zero and the check value is set
   *  to the estimate. */
  function CopyDraft(src: Issue): (r: Issue)
    ensures r.(scheduleDays := src.scheduleDays, checkDays := src.checkDays) == src
    ensures r.scheduleDays == 0 && r.checkDays == Some(src.estimatedDays)
  {
    src.(scheduleDays := 0, checkDays := Some(src.estimatedDays))
  }

  /** A fresh copy of an issue with a non-zero estimate breaks invariant 2:
   *  the check value should be zero minus the estimate, not the estimate.
   *  The action's own comment computes the check value as estimate minus
   *  scheduled, while the `after_update` hooks compute scheduled minus
   *  estimate; which of the two is meant cannot be told from the code, so
   *  the model keeps what `copy_issues` writes and records the disagreement
   *  here. The copy becomes consistent at its first save that changes its
   *  estimate or its entries. */
  lemma CopyConsistentOnlyWithoutEstimate(src: Issue, entries: seq<Entry>, id: IssueId)
    requires forall i :: 0 <= i < |entries| ==> entries[i].issue != id
    ensures IssueConsistent(CopyDraft(src).(id := id), entries) <==> src.estimatedDays == 0
  {
    SumZero(entries, IssueShare(id));
  }

  /** The `ids.each` step that saved `row`: the id named a row of `table`
   *  (the rows copied so far included), the user may add issues to its
   *  project, and its copy passed validation. */
  ghost predicate CopiedAt(table: seq<Issue>, x: Option<int>, row: Issue, actor: Actor, validate: Issue -> bool)
  {
    var f := Lookup(table, x);
    && f.Some?
    && AllowedTo(actor, AddIssues, table[f.value].project)
    && validate(CopyDraft(table[f.value]))
    && row == CopyDraft(table[f.value]).(id := row.id)
  }

  /** A requested id that copies: an existing issue of a project the user
   *  may add issues to, whose copy is valid. */
  ghost predicate Copyable(issues: seq<Issue>, x: Option<int>, actor: Actor, validate: Issue -> bool)
  {
    var f := Lookup(issues, x);
    f.Some? && AllowedTo(actor, AddIssues, issues[f.value].project) && validate(CopyDraft(issues[f.value]))
  }

  /** The first `n` steps of the loop each saved the copy in `added`. */
  ghost predicate CopiedPrefix(issues0: seq<Issue>, ids: seq<Option<int>>, added: seq<Issue>, n: nat,
                               actor: Actor, validate: Issue -> bool)
    requires n <= |ids| && n <= |added|
  {
    forall j :: 0 <= j < n ==> CopiedAt(issues0 + added[..j], ids[j], added[j], actor, validate)
  }

  /** The first `n` requested ids all copy. */
  ghost predicate CopyablePrefix(issues0: seq<Issue>, ids: seq<Option<int>>, n: nat, actor: Actor, validate: Issue -> bool)
    requires n <= |ids|
  {
    forall j :: 0 <= j < n ==> Copyable(issues0, ids[j], actor, validate)
  }

  /** The first rows of `table` are `issues0`, so an id found there is
   *  found at the same row. */
  lemma LookupPrefix(issues0: seq<Issue>, added: seq<Issue>, x: Option<int>)
    requires Lookup(issues0, x).Some?
    ensures Lookup(issues0 + added, x) == Lookup(issues0, x)
    ensures (issues0 + added)[Lookup(issues0, x).value] == issues0[Lookup(issues0, x).value]
  {
    FindIssueAppend(issues0, added, x.value);
  }

  /** A copy saved at step `|added|` extends the steps before it. */
  lemma CopiedStep(issues0: seq<Issue>, ids: seq<Option<int>>, added: seq<Issue>, row: Issue,
                   actor: Actor, validate: Issue -> bool)
    requires |added| < |ids| && CopiedPrefix(issues0, ids, added, |added|, actor, validate)
    requires CopiedAt(issues0 + added, ids[|added|], row, actor, validate)
    ensures CopiedPrefix(issues0, ids, added + [row], |added| + 1, actor, validate)
  {
    var added1 := added + [row];
    forall j | 0 <= j < |added| + 1
      ensures CopiedAt(issues0 + added1[..j], ids[j], added1[j], actor, validate)
    {
      if j < |added| {
        assert added1[..j] == added[..j];
      } else {
        assert added1[..j] == added;
      }
    }
  }

  /** An id that copies from the table before the request still copies,
   *  from the same row, once copies were appended. */
  lemma CopyableAfterAppend(issues0: seq<Issue>, added: seq<Issue>, x: Option<int>, actor: Actor, validate: Issue -> bool)
    requires Copyable(issues0, x, actor, validate)
    ensures Copyable(issues0 + added, x, actor, validate)
  {
    LookupPrefix(issues0, added, x);
  }

  /** One step of the `ids.each` loop: find the source, check the user may
   *  add issues to its project, save its copy. */
  method CopyOne(db: Database, actor: Actor, x: Option<int>, validate: Issue -> bool) returns (ok: bool, id: IssueId)
    requires db.Valid() && db.Allocated()
    modifies db`issues, db`nextIssueId
    ensures db.Valid() && db.Allocated()
    ensures ok <==> Copyable(old(db.issues), x, actor, validate)
    ensures !ok ==> db.issues == old(db.issues) && db.nextIssueId == old(db.nextIssueId)
    ensures ok ==> id == old(db.nextIssueId) && db.nextIssueId == id + 1
    ensures ok ==> |db.issues| == |old(db.issues)| + 1 && db.issues[..|old(db.issues)|] == old(db.issues)
    ensures ok ==> db.issues[|old(db.issues)|].id == id && CopiedAt(old(db.issues), x, db.issues[|old(db.issues)|], actor, validate)
    ensures forall p :: ProjectTotal(db.issues, p) == ProjectTotal(old(db.issues), p)
    ensures Accurate(db.personTotals, db.entries, old(db.issues)) ==> Accurate(db.personTotals, db.entries, db.issues)
  {
    id := 0;
    var f := Lookup(db.issues, x);
    if f.None? {
      return false, id;
    }
    var src := db.issues[f.value];
    if !AllowedTo(actor, AddIssues, src.project) {
      return false, id;
    }
    var draft := CopyDraft(src);
    if !validate(draft) {
      return false, id;
    }
    AppendRowKeepsTotals(db.issues, draft.(id := db.nextIssueId));
    if Accurate(db.personTotals, db.entries, db.issues) {
      AppendRowKeepsAccurate(db.personTotals, db.entries, db.issues, draft.(id := db.nextIssueId));
    }
    id := db.Insert(draft);
    assert db.issues[..|old(db.issues)|] == old(db.issues);
    ok := true;
  }

  /** Where the `ids.each` loop stands after `i` ids: the copies `added`
   *  were appended under the ids `results`, and `failed` says whether an
   *  error was recorded. */
  ghost predicate CopyProgress(issues0: seq<Issue>, next0: nat, ids: seq<Option<int>>, actor: Actor, validate: Issue -> bool,
                               issues: seq<Issue>, next: nat, i: nat, failed: bool, results: seq<IssueId>, added: seq<Issue>)
  {
    && i <= |ids| && |results| == |added|
    && next == next0 + |results| && Consecutive(results, next0)
    && issues == issues0 + added
    && (forall j :: 0 <= j < |added| ==> added[j].id == results[j])
    && (!failed ==> |added| == i && CopiedPrefix(issues0, ids, added, i, actor, validate))
    && (CopyablePrefix(issues0, ids, i, actor, validate) ==> !failed)
  }

  lemma CopyProgressStep(issues0: seq<Issue>, next0: nat, ids: seq<Option<int>>, actor: Actor, validate: Issue -> bool,
                         issues: seq<Issue>, next: nat, i: nat, failed: bool, results: seq<IssueId>, added: seq<Issue>,
                         ok: bool, id: IssueId, issues1: seq<Issue>, next1: nat)
    requires CopyProgress(issues0, next0, ids, actor, validate, issues, next, i, failed, results, added) && i < |ids|
    requires ok <==> Copyable(issues, ids[i], actor, validate)
    requires !ok ==> issues1 == issues && next1 == next
    requires ok ==> id == next && next1 == id + 1 && |issues1| == |issues| + 1 && issues1[..|issues|] == issues
    requires ok ==> issues1[|issues|].id == id && CopiedAt(issues, ids[i], issues1[|issues|], actor, validate)
    ensures ok ==> CopyProgress(issues0, next0, ids, actor, validate, issues1, next1, i + 1, failed,
                                results + [id], added + [issues1[|issues|]])
    ensures !ok ==> CopyProgress(issues0, next0, ids, actor, validate, issues1, next1, i + 1, true, results, added)
  {
    if Copyable(issues0, ids[i], actor, validate) {
      CopyableAfterAppend(issues0, added, ids[i], actor, validate);
    }
    if ok {
      var row := issues1[|issues|];
      assert issues1 == issues + [row];
      if !failed {
        CopiedStep(issues0, ids, added, row, actor, validate);
      }
      assert Consecutive(results + [id], next0);
    }
  }

  /** The `ids.each` loop of `copy_issues`: every id is tried; `failed`
   *  reports whether any of them was an error, and `added` holds the copies
   *  saved, in order. */
  method CopyEach(db: Database, actor: Actor, ids: seq<Option<int>>, validate: Issue -> bool)
    returns (failed: bool, results: seq<IssueId>, ghost added: seq<Issue>)
    requires db.Valid() && db.Allocated()
    modifies db`issues, db`nextIssueId
    ensures db.Valid() && db.Allocated()
    ensures CopyProgress(old(db.issues), old(db.nextIssueId), ids, actor, validate, db.issues, db.nextIssueId,
                         |ids|, failed, results, added)
    ensures forall p :: ProjectTotal(db.issues, p) == ProjectTotal(old(db.issues), p)
    ensures Accurate(db.personTotals, db.entries, old(db.issues)) ==> Accurate(db.personTotals, db.entries, db.issues)
  {
    ghost var issues0 := db.issues;
    results, added, failed := [], [], false;
    var i := 0;
    while i < |ids|
      invariant db.Valid() && db.Allocated()
      invariant CopyProgress(issues0, old(db.nextIssueId), ids, actor, validate, db.issues, db.nextIssueId,
                             i, failed, results, added)
      invariant forall p :: ProjectTotal(db.issues, p) == ProjectTotal(issues0, p)
      invariant Accurate(db.personTotals, db.entries, issues0) ==> Accurate(db.personTotals, db.entries, db.issues)
      decreases |ids| - i
    {
      ghost var issues := db.issues;
      ghost var next := db.nextIssueId;
      var ok, id := CopyOne(db, actor, ids[i], validate);
      CopyProgressStep(issues0, old(db.nextIssueId), ids, actor, validate, issues, next, i, failed, results, added,
                       ok, id, db.issues, db.nextIssueId);
      if ok {
        added := added + [db.issues[|issues|]];
        results := results + [id];
      } else {
        failed := true;
      }
      i := i + 1;
    }
  }

  /** `copy_issues`: a copy of every requested issue in one transaction; a
   *  missing source, a project the user may not add issues to or an invalid
   *  copy is an error, the loop goes on, and any error rolls every copy
   *  back (the id sequence is not rolled back). No hook runs on a create
   *  and the registry is not touched. */
  method CopyIssues(db: Database, actor: Actor, ids: seq<Option<int>>, validate: Issue -> bool)
    returns (status: int, results: seq<IssueId>)
    requires db.Valid() && db.Allocated()
    modifies db`issues, db`nextIssueId
    ensures db.Valid() && db.Allocated() && db.nextIssueId >= old(db.nextIssueId)
    ensures status == BAD_REQUEST || status == UNPROCESSABLE_ENTITY || status == CREATED
    ensures status == BAD_REQUEST <==> ids == []
    ensures status != CREATED ==> results == [] && db.issues == old(db.issues)
    ensures status == CREATED ==> |results| == |ids| && Consecutive(results, old(db.nextIssueId))
    ensures status == CREATED ==> |db.issues| == |old(db.issues)| + |ids| && db.issues[..|old(db.issues)|] == old(db.issues)
    ensures status == CREATED ==> CopiedPrefix(old(db.issues), ids, db.issues[|old(db.issues)|..], |ids|, actor, validate)
    ensures status == CREATED ==> forall j :: 0 <= j < |ids| ==> db.issues[|old(db.issues)| + j].id == results[j]
    ensures ids != [] && CopyablePrefix(old(db.issues), ids, |ids|, actor, validate) ==> status == CREATED
    ensures forall p :: ProjectTotal(db.issues, p) == ProjectTotal(old(db.issues), p)
    ensures Accurate(db.personTotals, db.entries, old(db.issues)) ==> Accurate(db.personTotals, db.entries, db.issues)
  {
    if ids == [] {
      return BAD_REQUEST, [];
    }
    var issues0 := db.issues;
    var failed;
    ghost var added;
    failed, results, added := CopyEach(db, actor, ids, validate);
    assert |added| == |results| && db.issues == issues0 + added;
    if failed {
      // `raise ActiveRecord::Rollback if errors.any?`
      db.issues := issues0;
      return UNPROCESSABLE_ENTITY, [];
    }
    assert db.issues[..|issues0|] == issues0;
    assert db.issues[|issues0|..] == added;
    status := CREATED;
  }

  /** `issue.safe_attributes = { color_id: … }` sets the colour only when
   *  `color_id` is a safe attribute of the existing issue for the user. */
  predicate ColorSafe(actor: Actor, id: IssueId)
  {
    "color_id" in IssueSafeAttributeNames(actor, id, false)
  }

  /** The row `change_row_color` saves: the client's lock version and, when
   *  the user may set it, the new colour. */
  function Recolored(row: Issue, lock: int, c: int, actor: Actor): Issue
  {
    row.(lockVersion := lock, colorId := if ColorSafe(actor, row.id) then Some(c) else row.colorId)
  }

  /** What one step of the `issue_ids.each_with_index` loop did. */
  datatype ColorStep = Forbidden | Skipped | Recolor(outcome: SaveOutcome)

  /** One step of the loop: refuse a row the user may not edit, skip a row
   *  already of this colour, otherwise save the recoloured row. */
  method ColorOne(db: Database, actor: Actor, x: IssueId, lock: int, c: int, validate: Issue -> bool, at: Time)
    returns (step: ColorStep)
    requires db.Valid() && FindIssue(db.issues, x).Some?
    modifies db`issues, db`personTotals, db`projects, db.registry
    ensures db.Valid() && db.entries == old(db.entries)
    ensures old(Accurate(db.personTotals, db.entries, db.issues)) ==> Accurate(db.personTotals, db.entries, db.issues)
    ensures var k := FindIssue(old(db.issues), x).value;
      && (step == Forbidden <==> x !in actor.editableIssues)
      && (step == Skipped <==> x in actor.editableIssues && ToI(old(db.issues)[k].colorId) == c)
      && (step.Recolor? ==> step.outcome == (if !validate(Recolored(old(db.issues)[k], lock, c, actor)) then Invalid
                                              else if Recolored(old(db.issues)[k], lock, c, actor) != old(db.issues)[k]
                                                      && lock != old(db.issues)[k].lockVersion then StaleObject
                                              else Saved))
    ensures step != Recolor(NotNullViolation)
    ensures step != Recolor(Saved) ==> db.issues == old(db.issues)
    ensures step == Recolor(Saved) ==> var k := FindIssue(old(db.issues), x).value;
      && |db.issues| == |old(db.issues)|
      && (forall j :: 0 <= j < |db.issues| && j != k ==> db.issues[j] == old(db.issues[j]))
      && db.issues[k] == Recolored(old(db.issues)[k], lock, c, actor).(lockVersion := db.issues[k].lockVersion)
  {
    var k := FindIssue(db.issues, x).value;
    var row := db.issues[k];
    if x !in actor.editableIssues {
      return Forbidden;
    }
    if ToI(row.colorId) == c {
      return Skipped;
    }
    var outcome := SaveIssue(db, k, Recolored(row, lock, c, actor), validate, at);
    step := Recolor(outcome);
  }

  /** The rows of `issues0` after the loop handled the first `n` ids: only
   *  colour and lock version moved, rows not named kept everything, a row
   *  named whose colour the user may set has the new colour, the others
   *  kept theirs, every id named so far was editable, and each result
   *  reports the new colour of a named row. */
  ghost predicate ColorProgress(issues0: seq<Issue>, xs: seq<int>, n: nat, c: int, actor: Actor,
                                issues: seq<Issue>, results: seq<ColorResult>)
    requires n <= |xs|
  {
    && |issues| == |issues0|
    && (forall k :: 0 <= k < |issues0| ==>
          issues[k] == issues0[k].(colorId := issues[k].colorId, lockVersion := issues[k].lockVersion))
    && (forall k :: 0 <= k < |issues0| && issues0[k].id !in xs[..n] ==> issues[k] == issues0[k])
    && (forall k :: 0 <= k < |issues0| && !ColorSafe(actor, issues0[k].id) ==> issues[k].colorId == issues0[k].colorId)
    && (forall k :: 0 <= k < |issues0| && issues0[k].id in xs[..n] && ColorSafe(actor, issues0[k].id) ==>
          ToI(issues[k].colorId) == c)
    && (forall j :: 0 <= j < n ==> xs[j] in actor.editableIssues)
    && |results| <= n
    && (forall m :: 0 <= m < |results| ==> results[m].id in xs[..n])
    && (forall m :: 0 <= m < |results| && ColorSafe(actor, results[m].id) ==> results[m].colorId == Some(c))
  }

  /** `{ id:, color_id:, lock_version: }` of a saved row. */
  datatype ColorResult = ColorResult(id: IssueId, colorId: Option<int>, lockVersion: int)

  lemma ColorProgressStep(issues0: seq<Issue>, xs: seq<int>, i: nat, c: int, actor: Actor, lock: int,
                          issues: seq<Issue>, results: seq<ColorResult>, k: nat, issues1: seq<Issue>, results1: seq<ColorResult>)
    requires UniqueIds(issues0) && i < |xs| && ColorProgress(issues0, xs, i, c, actor, issues, results)
    requires k < |issues0| && issues0[k].id == xs[i] && xs[i] in actor.editableIssues
    requires (issues1 == issues && ToI(issues[k].colorId) == c && results1 == results)
             || (&& |issues1| == |issues|
                 && (forall j :: 0 <= j < |issues| && j != k ==> issues1[j] == issues[j])
                 && issues1[k] == Recolored(issues[k], lock, c, actor).(lockVersion := issues1[k].lockVersion)
                 && results1 == results + [ColorResult(issues1[k].id, issues1[k].colorId, issues1[k].lockVersion)])
    ensures ColorProgress(issues0, xs, i + 1, c, actor, issues1, results1)
  {
    assert xs[..i + 1] == xs[..i] + [xs[i]];
    forall j | 0 <= j < |issues0| && issues0[j].id in xs[..i + 1] && ColorSafe(actor, issues0[j].id)
      ensures ToI(issues1[j].colorId) == c
    {
      if j != k {
        assert issues0[j].id != issues0[k].id;
      }
    }
  }

  /** Two request positions never name the same issue. */
  ghost predicate Distinct(xs: seq<int>)
  {
    forall a, b :: 0 <= a < b < |xs| ==> xs[a] != xs[b]
  }

  /** A request position whose row, as it was before the request, takes
   *  the colour: it already has it, or the client's lock version is
   *  current and the recoloured row is valid. */
  ghost predicate Fits(issues0: seq<Issue>, x: int, lock: int, c: int, actor: Actor, validate: Issue -> bool)
  {
    var f := Lookup(issues0, Some(x));
    f.Some? && (ToI(issues0[f.value].colorId) == c
                || (lock == issues0[f.value].lockVersion && validate(Recolored(issues0[f.value], lock, c, actor))))
  }

  /** The loop of `change_row_color` inside its transaction, with the
   *  block's two `rescue` clauses. A stale lock version is rescued as 409.
   *  A row the user may not edit and a row that fails validation both
   *  raise `ActiveRecord::Rollback` inside the block, and the catch-all
   *  `rescue => e` then replaces their reasons by `transaction_failed`,
   *  so both answer 500. */
  method ColorEach(db: Database, actor: Actor, xs: seq<int>, locks: seq<int>, c: int, validate: Issue -> bool, at: Time)
    returns (status: int, results: seq<ColorResult>)
    requires db.Valid() && |xs| == |locks|
    requires forall j :: 0 <= j < |xs| ==> Lookup(db.issues, Some(xs[j])).Some?
    modifies db`issues, db`personTotals, db`projects, db.registry
    ensures db.Valid() && db.entries == old(db.entries)
    ensures old(Accurate(db.personTotals, db.entries, db.issues)) ==> Accurate(db.personTotals, db.entries, db.issues)
    ensures status == OK || status == INTERNAL_SERVER_ERROR || status == CONFLICT
    ensures |xs| > 0 && xs[0] !in actor.editableIssues ==> status == INTERNAL_SERVER_ERROR
    ensures status == OK ==> ColorProgress(old(db.issues), xs, |xs|, c, actor, db.issues, results)
    ensures Distinct(xs) && (forall j :: 0 <= j < |xs| ==> xs[j] in actor.editableIssues)
            && (forall j :: 0 <= j < |xs| ==> Fits(old(db.issues), xs[j], locks[j], c, actor, validate))
            ==> status == OK
  {
    ghost var issues0 := db.issues;
    results := [];
    var i := 0;
    while i < |xs|
      invariant i <= |xs| && db.Valid() && db.entries == old(db.entries)
      invariant old(Accurate(db.personTotals, db.entries, db.issues)) ==> Accurate(db.personTotals, db.entries, db.issues)
      invariant ColorProgress(issues0, xs, i, c, actor, db.issues, results)
    {
      var x: IssueId := xs[i];
      assert SameIds(issues0, db.issues);
      FindIssueSameIds(issues0, db.issues, x);
      var k := FindIssue(db.issues, x).value;
      if Distinct(xs) {
        assert x !in xs[..i];
        assert db.issues[k] == issues0[k];
      }
      ghost var issues := db.issues;
      var step := ColorOne(db, actor, x, locks[i], c, validate, at);
      if step == Forbidden || step == Recolor(Invalid) {
        return INTERNAL_SERVER_ERROR, results;
      } else if step == Recolor(StaleObject) {
        return CONFLICT, results;
      }
      ghost var results0 := results;
      if step == Recolor(Saved) {
        results := results + [ColorResult(x, db.issues[k].colorId, db.issues[k].lockVersion)];
      }
      ColorProgressStep(issues0, xs, i, c, actor, locks[i], issues, results0, k, db.issues, results);
      i := i + 1;
    }
    status := OK;
  }

  /** `Array(params[:issue_ids]).map(&:to_i)`. */
  function Targets(ids: seq<Option<int>>): (xs: seq<int>)
    ensures |xs| == |ids| && forall j :: 0 <= j < |ids| ==> xs[j] == ToI(ids[j])
  {
    seq(|ids|, j requires 0 <= j < |ids| => ToI(ids[j]))
  }

  /** `issue_ids - issues_by_id.keys` is empty: every requested id names an
   *  existing issue. */
  predicate AllFound(issues: seq<Issue>, xs: seq<int>)
  {
    forall j :: 0 <= j < |xs| ==> Lookup(issues, Some(xs[j])).Some?
  }

  /** `change_row_color`: with as many lock versions as ids and every id an
   *  existing issue, the rows are recoloured in one transaction; a stale
   *  lock version (409), a row the user may not edit or an invalid row
   *  (both 500, see `ColorEach`) rolls everything back. On success the URL
   *  project's and the global update times are touched. */
  method ChangeRowColor(db: Database, actor: Actor, urlProject: ProjectId, ids: seq<Option<int>>,
                        lockVersions: seq<Option<int>>, colorId: Option<int>, validate: Issue -> bool, at: Time)
    returns (status: int, results: seq<ColorResult>)
    requires db.Valid()
    modifies db, db.registry
    ensures db.Valid()
    ensures status in {OK, BAD_REQUEST, NOT_FOUND, INTERNAL_SERVER_ERROR, CONFLICT}
    ensures |ids| == |lockVersions| && AllFound(old(db.issues), Targets(ids)) && |ids| > 0 && ToI(ids[0]) !in actor.editableIssues
            ==> status == INTERNAL_SERVER_ERROR
    ensures status == BAD_REQUEST <==> |ids| != |lockVersions|
    ensures status == NOT_FOUND <==> |ids| == |lockVersions| && !AllFound(old(db.issues), Targets(ids))
    ensures status != OK ==> db.State() == old(db.State()) && results == []
    ensures status == OK ==> ColorProgress(old(db.issues), Targets(ids), |ids|, ToI(colorId), actor, db.issues, results)
    ensures status == OK ==> db.entries == old(db.entries)
    ensures status == OK ==> db.registry.LastFor(Some(urlProject)) == Some(at) && db.registry.LastFor(None) == Some(at)
    ensures old(Accurate(db.personTotals, db.entries, db.issues)) ==> Accurate(db.personTotals, db.entries, db.issues)
    ensures |ids| == |lockVersions| && AllFound(old(db.issues), Targets(ids)) && Distinct(Targets(ids))
            && (forall j :: 0 <= j < |ids| ==> ToI(ids[j]) in actor.editableIssues)
            && (forall j :: 0 <= j < |ids| ==>
                  Fits(old(db.issues), ToI(ids[j]), ToI(lockVersions[j]), ToI(colorId), actor, validate))
            ==> status == OK
  {
    var xs := Targets(ids);
    var locks := Targets(lockVersions);
    var c := ToI(colorId);
    if |xs| != |locks| {
      return BAD_REQUEST, [];
    }
    if !AllFound(db.issues, xs) {
      return NOT_FOUND, [];
    }
    var snapshot := db.State();
    status, results := ColorEach(db, actor, xs, locks, c, validate, at);
    if status != OK {
      // `raise ActiveRecord::Rollback`, then the saved reason is rendered
      db.Restore(snapshot);
      return status, [];
    }
    db.registry.TouchFor(Some(urlProject), at);
    TouchThenLast(old(db.registry.records), Some(urlProject), at, None);
    ghost var touched := db.registry.records;
    db.registry.TouchFor(None, at);
    TouchThenLast(touched, None, at, Some(urlProject));
  }
}
