/** The plugin's extension of Redmine's `Issue`: the derived totals it keeps
 *  (scheduled = sum of daily entries, check = scheduled - estimated, the
 *  project's totals over its issues), the `after_update` hooks that keep
 *  them, and a save with optimistic locking that runs those hooks. */
module IssuePatch {
  import opened Optional
  import opened Calendar
  import opened Schema
  import opened Sums
  import opened Store
  import opened GanttLatestUpdate
  import UserDailySchedule
  import IssueDailySchedule

  /** Invariants 1 and 2 of an issue: its scheduled total is the sum of its
   *  daily entries and its check value is scheduled minus estimated. */
  ghost predicate IssueConsistent(issue: Issue, entries: seq<Entry>)
  {
    issue.scheduleDays == IssueTotal(entries, issue.id)
    && issue.checkDays == Some(issue.scheduleDays - issue.estimatedDays)
  }

  /** Invariant 3 of a project: its scheduled total is the sum over its
   *  issues, and its check value is scheduled minus estimated. */
  ghost predicate ProjectConsistent(p: Project, issues: seq<Issue>)
  {
    p.scheduleDays == ProjectTotal(issues, p.id)
    && p.checkDays == Some(p.scheduleDays - p.estimatedDays)
  }

  /** `update_schedule_and_check_days`: `update_columns(schedule_days: total,
   *  check_days: total - estimated_days)` on the issue's row; nothing when
   *  the issue is gone. */
  function RecomputeIssue(issues: seq<Issue>, entries: seq<Entry>, id: IssueId): (r: seq<Issue>)
    ensures SameIds(issues, r)
    ensures FindIssue(r, id) == FindIssue(issues, id)
    ensures var f := FindIssue(issues, id);
      f.Some? ==> (IssueConsistent(r[f.value], entries)
                   && r[f.value] == issues[f.value].(scheduleDays := r[f.value].scheduleDays, checkDays := r[f.value].checkDays))
    ensures forall k :: 0 <= k < |r| && Some(k) != FindIssue(issues, id) ==> r[k] == issues[k]
  {
    var f := FindIssue(issues, id);
    if f.None? then issues
    else
      var total := IssueTotal(entries, id);
      var r := issues[f.value := issues[f.value].(scheduleDays := total, checkDays := Some(total - issues[f.value].estimatedDays))];
      FindIssueSameIds(issues, r, id);
      r
  }

  /** `update_schedule_days_if_estimated_changed` once the estimate did
   *  change: only `check_days` is rewritten, from the entries' sum. */
  function RecheckIssue(issues: seq<Issue>, entries: seq<Entry>, id: IssueId): (r: seq<Issue>)
    ensures SameIds(issues, r)
    ensures var f := FindIssue(issues, id);
      f.Some? ==> r[f.value] == issues[f.value].(checkDays := Some(IssueTotal(entries, id) - issues[f.value].estimatedDays))
    ensures forall k :: 0 <= k < |r| && Some(k) != FindIssue(issues, id) ==> r[k] == issues[k]
  {
    var f := FindIssue(issues, id);
    if f.None? then issues
    else issues[f.value := issues[f.value].(checkDays := Some(IssueTotal(entries, id) - issues[f.value].estimatedDays))]
  }

  /** A change of estimate keeps an issue consistent: if its scheduled total
   *  was right, rewriting only the check value makes both invariants hold
   *  for the new estimate. */
  lemma RecheckRestoresConsistency(issues: seq<Issue>, entries: seq<Entry>, k: nat)
    requires UniqueIds(issues) && k < |issues|
    requires issues[k].scheduleDays == IssueTotal(entries, issues[k].id)
    ensures IssueConsistent(RecheckIssue(issues, entries, issues[k].id)[k], entries)
  {
    FindIssueUnique(issues, k);
  }

  /** `update_project_schedule_days_and_check_days`: the project's scheduled
   *  total becomes the sum over its issues and its check value that minus
   *  its estimate; nothing when the project does not exist. */
  function RecomputeProject(projects: map<ProjectId, Project>, issues: seq<Issue>, p: ProjectId): (r: map<ProjectId, Project>)
    ensures r.Keys == projects.Keys && forall q :: q in r ==> r[q].id == projects[q].id && r[q].nilColumns == projects[q].nilColumns
    ensures p in projects ==> ProjectConsistent(r[p], issues) && r[p].estimatedDays == projects[p].estimatedDays
    ensures forall q :: q in projects && q != p ==> r[q] == projects[q]
    requires forall q :: q in projects ==> projects[q].id == q
  {
    if p !in projects then projects
    else
      var total := ProjectTotal(issues, p);
      projects[p := projects[p].(scheduleDays := total, checkDays := Some(total - projects[p].estimatedDays))]
  }

  /** Recomputing one issue moves its project's total by exactly the change
   *  of that issue's scheduled total; other projects' totals stay. */
  lemma {:induction false} RecomputeMovesProjectTotal(issues: seq<Issue>, entries: seq<Entry>, k: nat, q: ProjectId)
    requires UniqueIds(issues) && k < |issues|
    ensures var r := RecomputeIssue(issues, entries, issues[k].id);
      ProjectTotal(r, q) == ProjectTotal(issues, q)
        + (if issues[k].project == q then IssueTotal(entries, issues[k].id) - issues[k].scheduleDays else 0)
  {
    FindIssueUnique(issues, k);
    var r := RecomputeIssue(issues, entries, issues[k].id);
    assert r == issues[k := r[k]];
    SumUpdate(issues, k, r[k], ProjectShare(q));
  }

  /** The dates of an issue's entries, in table order (`find_each`). */
  function DatesOf(entries: seq<Entry>, id: IssueId): (dates: seq<Date>)
    ensures forall d :: d in dates <==> exists k :: 0 <= k < |entries| && entries[k].issue == id && entries[k].date == d
    decreases |entries|
  {
    if entries == [] then []
    else
      var rest := DatesOf(entries[1..], id);
      assert forall k :: 1 <= k < |entries| ==> entries[k] == entries[1..][k - 1];
      if entries[0].issue == id then [entries[0].date] + rest else rest
  }

  /** One step of the reassignment loop: the old assignee's and then the new
   *  assignee's total for the day are rewritten from the entries. */
  function RewriteDay(pt: map<(UserId, Date), int>, was: Option<UserId>, now: Option<UserId>, d: Date,
                      entries: seq<Entry>, issues: seq<Issue>): map<(UserId, Date), int>
  {
    var pt1 := if was.Some? then pt[(was.value, d) := UserDailySchedule.StoredTotal(PersonDayTotal(entries, issues, was.value, d))] else pt;
    if now.Some? then pt1[(now.value, d) := UserDailySchedule.StoredTotal(PersonDayTotal(entries, issues, now.value, d))] else pt1
  }

  function RewriteDays(pt: map<(UserId, Date), int>, was: Option<UserId>, now: Option<UserId>, dates: seq<Date>,
                       entries: seq<Entry>, issues: seq<Issue>): map<(UserId, Date), int>
    decreases |dates|
  {
    if dates == [] then pt
    else RewriteDays(RewriteDay(pt, was, now, dates[0], entries, issues), was, now, dates[1..], entries, issues)
  }

  /** After the reassignment loop, each day of the issue holds the true total
   *  (capped) of both the old and the new assignee, and every other stored
   *  total is what it was. */
  lemma {:induction false} RewriteDaysResult(pt: map<(UserId, Date), int>, was: Option<UserId>, now: Option<UserId>,
                                             dates: seq<Date>, entries: seq<Entry>, issues: seq<Issue>, u: UserId, d: Date)
    ensures var r := RewriteDays(pt, was, now, dates, entries, issues);
      if d in dates && (was == Some(u) || now == Some(u))
      then (u, d) in r && r[(u, d)] == UserDailySchedule.StoredTotal(PersonDayTotal(entries, issues, u, d))
      else ((u, d) in r <==> (u, d) in pt) && ((u, d) in pt ==> r[(u, d)] == pt[(u, d)])
    decreases |dates|
  {
    if dates != [] {
      RewriteDaysResult(RewriteDay(pt, was, now, dates[0], entries, issues), was, now, dates[1..], entries, issues, u, d);
    }
  }

  /** Reassigning issue `k` moves its effort on each day from the old
   *  assignee's true total to the new assignee's; everyone else's is
   *  unchanged, so the sum over the two people is conserved. */
  lemma {:induction false} ReassignmentMovesEffort(entries: seq<Entry>, issues: seq<Issue>, after: seq<Issue>, k: nat, u: UserId, d: Date)
    requires UniqueIds(issues) && k < |issues| && SameIds(issues, after)
    requires forall j :: 0 <= j < |issues| && j != k ==> after[j].assignee == issues[j].assignee
    ensures var moved := IssueDayTotal(entries, issues[k].id, d);
      PersonDayTotal(entries, after, u, d)
        == PersonDayTotal(entries, issues, u, d)
           - (if issues[k].assignee == Some(u) then moved else 0)
           + (if after[k].assignee == Some(u) then moved else 0)
  {
    var id := issues[k].id;
    var now := after[k].assignee;
    FindIssueUnique(issues, k);
    forall x: IssueId ensures AssigneeOf(after, x) == if x == id then now else AssigneeOf(issues, x) {
      FindIssueSameIds(issues, after, x);
    }
    var f := PersonDayShare(after, u, d);
    var g := PersonDayShare(issues, u, d);
    var h := IssueDayShare(id, d);
    var was := issues[k].assignee;
    if (was == Some(u)) == (now == Some(u)) {
      var zero := (e: Entry) => 0;
      SumAdd(entries, f, g, zero);
      SumZero(entries, zero);
    } else if was == Some(u) {
      SumAdd(entries, g, f, h);
    } else {
      SumAdd(entries, f, g, h);
    }
  }

  /** An issue has no effort on a day it has no entry for. */
  lemma NoEntryNoEffort(entries: seq<Entry>, id: IssueId, d: Date)
    requires d !in DatesOf(entries, id)
    ensures IssueDayTotal(entries, id, d) == 0
  {
    SumZero(entries, IssueDayShare(id, d));
  }

  /** The central invariant of `user_daily_schedules`: every stored total is
   *  the (capped) true effort of that person on that day, and a person-day
   *  without a row has no effort. */
  ghost predicate Accurate(pt: map<(UserId, Date), int>, entries: seq<Entry>, issues: seq<Issue>)
  {
    forall key: (UserId, Date) ::
      if key in pt then pt[key] == UserDailySchedule.StoredTotal(PersonDayTotal(entries, issues, key.0, key.1))
      else PersonDayTotal(entries, issues, key.0, key.1) == 0
  }

  /** Person totals depend on the issues only through who is assigned. */
  lemma SameAssigneesSameTotals(entries: seq<Entry>, a: seq<Issue>, b: seq<Issue>, u: UserId, d: Date)
    requires SameIds(a, b)
    requires forall j :: 0 <= j < |a| ==> a[j].assignee == b[j].assignee
    ensures PersonDayTotal(entries, a, u, d) == PersonDayTotal(entries, b, u, d)
  {
    forall x: IssueId ensures AssigneeOf(a, x) == AssigneeOf(b, x) {
      FindIssueSameIds(a, b, x);
    }
    SumSame(entries, PersonDayShare(a, u, d), PersonDayShare(b, u, d));
  }

  /** Saving one entry changes the true effort of nobody but the issue's
   *  assignee on that day. */
  lemma UpsertTouchesOnePersonDay(entries: seq<Entry>, issues: seq<Issue>, id: IssueId, d: Date, v: int, u: UserId, d2: Date)
    requires !(AssigneeOf(issues, id) == Some(u) && d2 == d)
    ensures PersonDayTotal(IssueDailySchedule.UpsertEntry(entries, id, d, v), issues, u, d2) == PersonDayTotal(entries, issues, u, d2)
  {
    var found := IssueDailySchedule.FindEntry(entries, id, d);
    var e := Entry(id, d, v);
    if found.Some? {
      SumUpdate(entries, found.value, e, PersonDayShare(issues, u, d2));
    } else {
      SumAppend(entries, e, PersonDayShare(issues, u, d2));
    }
  }

  /** `IssueDailySchedule#save!` with its `after_save` hook keeps the person
   *  totals accurate. */
  lemma EntrySaveKeepsAccurate(pt: map<(UserId, Date), int>, entries: seq<Entry>, issues: seq<Issue>, id: IssueId, d: Date, v: int)
    requires Accurate(pt, entries, issues)
    ensures var entries1 := IssueDailySchedule.UpsertEntry(entries, id, d, v);
      Accurate(IssueDailySchedule.AfterEntryChange(pt, entries1, issues, id, d), entries1, issues)
  {
    var entries1 := IssueDailySchedule.UpsertEntry(entries, id, d, v);
    var pt1 := IssueDailySchedule.AfterEntryChange(pt, entries1, issues, id, d);
    forall key: (UserId, Date)
      ensures if key in pt1 then pt1[key] == UserDailySchedule.StoredTotal(PersonDayTotal(entries1, issues, key.0, key.1))
              else PersonDayTotal(entries1, issues, key.0, key.1) == 0
    {
      if !(AssigneeOf(issues, id) == Some(key.0) && key.1 == d) {
        UpsertTouchesOnePersonDay(entries, issues, id, d, v, key.0, key.1);
        assert (key in pt1) == (key in pt);
      }
    }
  }

  /** The reassignment hook keeps the person totals accurate: exactly the
   *  person-days whose true effort moved are rewritten. */
  lemma ReassignKeepsAccurate(pt: map<(UserId, Date), int>, entries: seq<Entry>, issues: seq<Issue>, after: seq<Issue>, k: nat)
    requires UniqueIds(issues) && k < |issues| && SameIds(issues, after)
    requires forall j :: 0 <= j < |issues| && j != k ==> after[j].assignee == issues[j].assignee
    requires Accurate(pt, entries, issues)
    ensures var was := issues[k].assignee;
      var now := after[k].assignee;
      Accurate(if was == now then pt else RewriteDays(pt, was, now, DatesOf(entries, issues[k].id), entries, after), entries, after)
  {
    var id := issues[k].id;
    var was := issues[k].assignee;
    var now := after[k].assignee;
    var dates := DatesOf(entries, id);
    var pt1 := if was == now then pt else RewriteDays(pt, was, now, dates, entries, after);
    forall key: (UserId, Date)
      ensures if key in pt1 then pt1[key] == UserDailySchedule.StoredTotal(PersonDayTotal(entries, after, key.0, key.1))
              else PersonDayTotal(entries, after, key.0, key.1) == 0
    {
      ReassignmentMovesEffort(entries, issues, after, k, key.0, key.1);
      if was != now {
        RewriteDaysResult(pt, was, now, dates, entries, after, key.0, key.1);
        if key.1 !in dates {
          NoEntryNoEffort(entries, id, key.1);
        }
      }
    }
  }

  /** Destroying an issue's entries day by day keeps the person totals
   *  accurate for the remaining rows. */
  lemma DestroyKeepsAccurate(pt: map<(UserId, Date), int>, pt1: map<(UserId, Date), int>, entries: seq<Entry>, issues: seq<Issue>, id: IssueId)
    requires Accurate(pt, entries, issues)
    requires DestroyedTotals(pt, pt1, AssigneeOf(issues, id), DatesOf(entries, id), Filter(entries, OtherIssue(id)), issues)
    ensures Accurate(pt1, Filter(entries, OtherIssue(id)), issues)
  {
    var rest := Filter(entries, OtherIssue(id));
    forall key: (UserId, Date)
      ensures if key in pt1 then pt1[key] == UserDailySchedule.StoredTotal(PersonDayTotal(rest, issues, key.0, key.1))
              else PersonDayTotal(rest, issues, key.0, key.1) == 0
    {
      DestroyMovesPersonTotal(entries, issues, id, key.0, key.1);
      if key.1 !in DatesOf(entries, id) {
        NoEntryNoEffort(entries, id, key.1);
      }
    }
  }

  /** `update_schedule_days_if_estimated_changed`. */
  method UpdateScheduleDaysIfEstimatedChanged(db: Database, id: IssueId, before: Issue)
    modifies db`issues
    ensures var f := FindIssue(old(db.issues), id);
      db.issues == if f.Some? && old(db.issues)[f.value].estimatedDays != before.estimatedDays
                   then RecheckIssue(old(db.issues), db.entries, id) else old(db.issues)
  {
    var f := FindIssue(db.issues, id);
    if f.None? || db.issues[f.value].estimatedDays == before.estimatedDays {
      return;
    }
    db.issues := RecheckIssue(db.issues, db.entries, id);
  }

  /** `update_user_daily_schedules_if_assigned_to_changed`: for every entry
   *  of the issue, rewrite the day's stored total of the previous assignee
   *  (if any) and of the new one (if any). */
  method UpdateUserDailySchedulesIfAssignedToChanged(db: Database, id: IssueId, before: Issue)
    modifies db`personTotals
    ensures var now := AssigneeOf(db.issues, id);
      db.personTotals == if now == before.assignee then old(db.personTotals)
                         else RewriteDays(old(db.personTotals), before.assignee, now, DatesOf(db.entries, id), db.entries, db.issues)
  {
    var now := AssigneeOf(db.issues, id);
    if now == before.assignee {
      return;
    }
    var dates := DatesOf(db.entries, id);
    var i := 0;
    while i < |dates|
      invariant 0 <= i <= |dates|
      invariant RewriteDays(db.personTotals, before.assignee, now, dates[i..], db.entries, db.issues)
             == RewriteDays(old(db.personTotals), before.assignee, now, dates, db.entries, db.issues)
    {
      var d := dates[i];
      assert dates[i..] == [d] + dates[i + 1..];
      if before.assignee.Some? {
        var totalOld := PersonDayTotal(db.entries, db.issues, before.assignee.value, d);
        UserDailySchedule.SaveTotal(db, before.assignee.value, d, totalOld);
      }
      if now.Some? {
        var totalNew := PersonDayTotal(db.entries, db.issues, now.value, d);
        UserDailySchedule.SaveTotal(db, now.value, d, totalNew);
      }
      i := i + 1;
    }
  }

  /** `update_schedule_and_check_days`. */
  method UpdateScheduleAndCheckDays(db: Database, id: IssueId)
    modifies db`issues
    ensures db.issues == RecomputeIssue(old(db.issues), db.entries, id)
  {
    db.issues := RecomputeIssue(db.issues, db.entries, id);
  }

  /** `update_project_schedule_days_and_check_days`. */
  method UpdateProjectScheduleDaysAndCheckDays(db: Database, id: IssueId)
    requires forall q :: q in db.projects ==> db.projects[q].id == q && db.projects[q].nilColumns == {}
    modifies db`projects
    ensures var f := FindIssue(db.issues, id);
      db.projects == if f.None? then old(db.projects) else RecomputeProject(old(db.projects), db.issues, db.issues[f.value].project)
  {
    var f := FindIssue(db.issues, id);
    if f.None? {
      return;
    }
    db.projects := RecomputeProject(db.projects, db.issues, db.issues[f.value].project);
  }

  /** `update_gantt_latest_update`: touch the project's record and the
   *  global one. */
  method UpdateGanttLatestUpdate(db: Database, project: ProjectId, at: Time)
    modifies db.registry
    ensures db.registry.records == Touched(Touched(old(db.registry.records), Some(project), at), None, at)
  {
    db.registry.TouchFor(Some(project), at);
    db.registry.TouchFor(None, at);
  }

  /** The `after_update` hooks, in declaration order, for the issue whose row
   *  was `before` until this save. */
  method AfterUpdate(db: Database, id: IssueId, before: Issue, at: Time)
    requires forall q :: q in db.projects ==> db.projects[q].id == q && db.projects[q].nilColumns == {}
    requires FindIssue(db.issues, id).Some?
    modifies db`issues, db`personTotals, db`projects, db.registry
    ensures db.entries == old(db.entries)
    ensures SameIds(old(db.issues), db.issues)
    ensures var f := FindIssue(old(db.issues), id).value;
      && db.issues == (if old(db.issues)[f].estimatedDays != before.estimatedDays
                       then RecheckIssue(old(db.issues), db.entries, id) else old(db.issues))
      && db.personTotals == (if old(db.issues)[f].assignee == before.assignee then old(db.personTotals)
                             else RewriteDays(old(db.personTotals), before.assignee, old(db.issues)[f].assignee,
                                              DatesOf(db.entries, id), db.entries, db.issues))
      && db.projects == RecomputeProject(old(db.projects), db.issues, old(db.issues)[f].project)
      && db.registry.records == Touched(Touched(old(db.registry.records), Some(old(db.issues)[f].project), at), None, at)
  {
    ghost var f := FindIssue(db.issues, id).value;
    UpdateScheduleDaysIfEstimatedChanged(db, id, before);
    FindIssueSameIds(old(db.issues), db.issues, id);
    UpdateUserDailySchedulesIfAssignedToChanged(db, id, before);
    UpdateProjectScheduleDaysAndCheckDays(db, id);
    var project := db.issues[FindIssue(db.issues, id).value].project;
    UpdateGanttLatestUpdate(db, project, at);
  }

  /** Whether a row survives destroying the issue's rows for `days`. */
  function Outside(id: IssueId, days: seq<Date>): Entry -> bool
  {
    (e: Entry) => !(e.issue == id && e.date in days)
  }

  function OtherIssue(id: IssueId): Entry -> bool
  {
    (e: Entry) => e.issue != id
  }

  function OtherId(id: IssueId): Issue -> bool
  {
    (i: Issue) => i.id != id
  }

  /** Destroying an issue's entries lowers its assignee's true effort on each
   *  day by the issue's effort that day and leaves everyone else's alone. */
  lemma DestroyMovesPersonTotal(entries: seq<Entry>, issues: seq<Issue>, id: IssueId, u: UserId, d: Date)
    ensures PersonDayTotal(Filter(entries, OtherIssue(id)), issues, u, d)
            == PersonDayTotal(entries, issues, u, d) - (if AssigneeOf(issues, id) == Some(u) then IssueDayTotal(entries, id, d) else 0)
  {
    var share := PersonDayShare(issues, u, d);
    var kept := (e: Entry) => if e.issue != id then share(e) else 0;
    SumFilter(entries, OtherIssue(id), share, kept);
    if AssigneeOf(issues, id) == Some(u) {
      SumAdd(entries, share, kept, IssueDayShare(id, d));
    } else {
      SumAdd(entries, share, kept, (e: Entry) => 0);
      SumZero(entries, (e: Entry) => 0);
    }
  }

  /** Deleting an issue row lowers its project's sum of scheduled totals by
   *  the issue's scheduled total. Nothing on destroy rewrites the project's
   *  stored total, so it keeps the old sum. */
  lemma DestroyLowersProjectTotal(issues: seq<Issue>, k: nat, p: ProjectId)
    requires UniqueIds(issues) && k < |issues|
    ensures ProjectTotal(Filter(issues, OtherId(issues[k].id)), p)
            == ProjectTotal(issues, p) - (if issues[k].project == p then issues[k].scheduleDays else 0)
  {
    var share := ProjectShare(p);
    var kept := (i: Issue) => if i.id != issues[k].id then share(i) else 0;
    var gone := (i: Issue) => if i.id == issues[k].id then share(i) else 0;
    SumFilter(issues, OtherId(issues[k].id), share, kept);
    SumAdd(issues, share, kept, gone);
    SumSingle(issues, k, gone);
  }

  /** The stored person totals once an issue's entries are destroyed one day
   *  after another: each day of the issue holds its assignee's true total
   *  over the remaining rows (capped); every other row is unchanged. */
  ghost predicate DestroyedTotals(before: map<(UserId, Date), int>, after: map<(UserId, Date), int>,
                                  assignee: Option<UserId>, days: seq<Date>, entries: seq<Entry>, issues: seq<Issue>)
  {
    forall key: (UserId, Date) ::
      if assignee == Some(key.0) && key.1 in days
      then key in after && after[key] == UserDailySchedule.StoredTotal(PersonDayTotal(entries, issues, key.0, key.1))
      else (key in after <==> key in before) && (key in before ==> after[key] == before[key])
  }

  /** Destroying the rows of one more day leaves the true totals of the
   *  other days as they were. */
  lemma OtherDaysUnchanged(entries: seq<Entry>, issues: seq<Issue>, id: IssueId, d: Date, u: UserId, other: Date)
    requires other != d
    ensures PersonDayTotal(Filter(entries, Outside(id, [d])), issues, u, other) == PersonDayTotal(entries, issues, u, other)
  {
    SumFilterZero(entries, Outside(id, [d]), PersonDayShare(issues, u, other));
  }

  lemma OutsideNone(entries: seq<Entry>, id: IssueId)
    ensures Filter(entries, Outside(id, [])) == entries
  {
    FilterSame(entries, (e: Entry) => true, Outside(id, []));
    FilterAll(entries);
  }

  lemma OutsideExtend(entries: seq<Entry>, id: IssueId, days: seq<Date>, d: Date)
    ensures Filter(Filter(entries, Outside(id, days)), Outside(id, [d])) == Filter(entries, Outside(id, days + [d]))
  {
    assert forall x :: x in days + [d] <==> x in days || x == d;
    FilterFilter(entries, Outside(id, days), Outside(id, [d]), Outside(id, days + [d]));
  }

  /** Destroying the rows of every day the issue has leaves exactly the
   *  other issues' rows. */
  lemma OutsideAll(entries: seq<Entry>, id: IssueId)
    ensures Filter(entries, Outside(id, DatesOf(entries, id))) == Filter(entries, OtherIssue(id))
  {
    var dates := DatesOf(entries, id);
    forall i | 0 <= i < |entries| && entries[i].issue == id
      ensures entries[i].date in dates
    {
    }
    FilterSame(entries, Outside(id, dates), OtherIssue(id));
  }

  /** One day of the destroy loop keeps `DestroyedTotals`, extended by that
   *  day. */
  lemma DestroyStep(pt0: map<(UserId, Date), int>, pt: map<(UserId, Date), int>, pt1: map<(UserId, Date), int>,
                    id: IssueId, assignee: Option<UserId>, days: seq<Date>, d: Date,
                    entries: seq<Entry>, entries1: seq<Entry>, issues: seq<Issue>)
    requires assignee == AssigneeOf(issues, id)
    requires DestroyedTotals(pt0, pt, assignee, days, entries, issues)
    requires entries1 == Filter(entries, Outside(id, [d]))
    requires pt1 == IssueDailySchedule.AfterEntryChange(pt, entries1, issues, id, d)
    ensures DestroyedTotals(pt0, pt1, assignee, days + [d], entries1, issues)
  {
    forall key: (UserId, Date) | assignee == Some(key.0) && key.1 in days && key.1 != d
      ensures PersonDayTotal(entries1, issues, key.0, key.1) == PersonDayTotal(entries, issues, key.0, key.1)
    {
      OtherDaysUnchanged(entries, issues, id, d, key.0, key.1);
    }
  }

  /** `issue_daily_schedule.destroy` for the issue's row of day `d`, with
   *  its `after_destroy` hook. */
  method DestroyDay(db: Database, id: IssueId, d: Date)
    modifies db`entries, db`personTotals
    ensures db.entries == Filter(old(db.entries), Outside(id, [d]))
    ensures db.personTotals == IssueDailySchedule.AfterEntryChange(old(db.personTotals), db.entries, db.issues, id, d)
  {
    db.entries := Filter(db.entries, Outside(id, [d]));
    IssueDailySchedule.UpdateUserDailySchedule(db, id, d);
  }

  /** `issue.destroy!`: `dependent: :destroy` destroys the issue's entries one
   *  by one, each `after_destroy` rewriting the assignee's total for its
   *  day while the issue row still exists; then the issue row goes. The
   *  `after_update` hooks do not run, so the project's totals are not
   *  rewritten. The foreign key of `issue_sort_orders` cascades the delete
   *  to the issue's sort numbers. */
  method DestroyIssue(db: Database, id: IssueId)
    modifies db`issues, db`entries, db`personTotals, db`sortOrders
    ensures db.entries == Filter(old(db.entries), OtherIssue(id))
    ensures db.issues == Filter(old(db.issues), OtherId(id))
    ensures db.sortOrders == map key | key in old(db.sortOrders) && key.1 != id :: old(db.sortOrders)[key]
    ensures DestroyedTotals(old(db.personTotals), db.personTotals, AssigneeOf(old(db.issues), id),
                            DatesOf(old(db.entries), id), db.entries, old(db.issues))
  {
    var entries0 := db.entries;
    var assignee := AssigneeOf(db.issues, id);
    var dates := DatesOf(db.entries, id);
    OutsideNone(entries0, id);
    var i := 0;
    while i < |dates|
      invariant 0 <= i <= |dates|
      invariant db.issues == old(db.issues) && db.sortOrders == old(db.sortOrders)
      invariant db.entries == Filter(entries0, Outside(id, dates[..i]))
      invariant DestroyedTotals(old(db.personTotals), db.personTotals, assignee, dates[..i], db.entries, db.issues)
    {
      var d := dates[i];
      ghost var before := db.entries;
      ghost var pt := db.personTotals;
      assert dates[..i + 1] == dates[..i] + [d];
      OutsideExtend(entries0, id, dates[..i], d);
      DestroyDay(db, id, d);
      DestroyStep(old(db.personTotals), pt, db.personTotals, id, assignee, dates[..i], d, before, db.entries, db.issues);
      i := i + 1;
    }
    assert dates[..i] == dates;
    OutsideAll(entries0, id);
    db.issues := Filter(db.issues, OtherId(id));
    db.sortOrders := map key | key in db.sortOrders && key.1 != id :: db.sortOrders[key];
  }

  /** The hooks after a save keep the person totals accurate: `mid` is the
   *  table right after the `UPDATE` (row `k` was `stored` before it), and
   *  `issues` and `pt` are what the hooks leave. */
  lemma HooksKeepAccurate(pt0: map<(UserId, Date), int>, pt: map<(UserId, Date), int>, entries: seq<Entry>,
                          mid: seq<Issue>, issues: seq<Issue>, k: nat, stored: Issue)
    requires UniqueIds(mid) && k < |mid| && stored.id == mid[k].id
    requires issues == (if mid[k].estimatedDays != stored.estimatedDays then RecheckIssue(mid, entries, stored.id) else mid)
    requires pt == (if mid[k].assignee == stored.assignee then pt0
                    else RewriteDays(pt0, stored.assignee, mid[k].assignee, DatesOf(entries, stored.id), entries, issues))
    requires Accurate(pt0, entries, mid[k := stored])
    ensures Accurate(pt, entries, issues)
  {
    FindIssueUnique(mid, k);
    var issues0 := mid[k := stored];
    assert SameIds(issues0, issues);
    ReassignKeepsAccurate(pt0, entries, issues0, issues, k);
  }

  /** The `after_update` hooks of a save that left `old(db.issues[k])` in
   *  place of `stored`, with what they establish. */
  method RunHooks(db: Database, k: nat, stored: Issue, at: Time)
    requires UniqueIds(db.issues) && k < |db.issues| && stored.id == db.issues[k].id
    requires forall q :: q in db.projects ==> db.projects[q].id == q && db.projects[q].nilColumns == {}
    modifies db`issues, db`personTotals, db`projects, db.registry
    ensures db.entries == old(db.entries)
    ensures SameIds(old(db.issues), db.issues) && UniqueIds(db.issues)
    ensures forall j :: 0 <= j < |db.issues| && j != k ==> db.issues[j] == old(db.issues[j])
    ensures db.issues[k] == if old(db.issues[k].estimatedDays) != stored.estimatedDays
                            then old(db.issues[k]).(checkDays := Some(IssueTotal(db.entries, stored.id) - old(db.issues[k].estimatedDays)))
                            else old(db.issues[k])
    ensures forall q :: q in db.projects ==> db.projects[q].id == q && db.projects[q].nilColumns == {}
    ensures db.registry.records == Touched(Touched(old(db.registry.records), Some(old(db.issues[k].project)), at), None, at)
    ensures Accurate(old(db.personTotals), db.entries, old(db.issues)[k := stored]) ==> Accurate(db.personTotals, db.entries, db.issues)
    ensures old(db.issues[k].project) in db.projects ==> ProjectConsistent(db.projects[old(db.issues[k].project)], db.issues)
  {
    ghost var issues0 := db.issues[k := stored];
    assert SameIds(issues0, db.issues);
    FindIssueUnique(db.issues, k);
    AfterUpdate(db, stored.id, stored, at);
    if Accurate(old(db.personTotals), db.entries, issues0) {
      HooksKeepAccurate(old(db.personTotals), db.personTotals, db.entries, old(db.issues), db.issues, k, stored);
    }
  }

  datatype SaveOutcome = Saved | StaleObject | Invalid | NotNullViolation

  /** `issue.save!` of an edited issue row whose `lock_version` holds the
   *  version the client last saw: Redmine's validations first, then the
   *  `UPDATE … WHERE lock_version = <client's>` that fails when someone saved
   *  in between, then the `after_update` hooks. An `UPDATE` that does reach
   *  the row but writes NULL into a NOT NULL column is refused by the
   *  database. An unchanged row issues no `UPDATE` and only runs the hooks. */
  method SaveIssue(db: Database, k: nat, edited: Issue, validate: Issue -> bool, at: Time) returns (outcome: SaveOutcome)
    requires UniqueIds(db.issues) && k < |db.issues| && edited.id == db.issues[k].id
    requires forall j :: 0 <= j < |db.issues| ==> db.issues[j].nilColumns == {}
    requires forall q :: q in db.projects ==> db.projects[q].id == q && db.projects[q].nilColumns == {}
    modifies db`issues, db`personTotals, db`projects, db.registry
    ensures db.entries == old(db.entries)
    ensures outcome == (if !validate(edited) then Invalid
                        else if edited != old(db.issues)[k] && edited.lockVersion != old(db.issues)[k].lockVersion then StaleObject
                        else if edited.nilColumns != {} then NotNullViolation
                        else Saved)
    ensures forall j :: 0 <= j < |db.issues| ==> db.issues[j].nilColumns == {}
    ensures outcome != Saved ==> db.issues == old(db.issues) && db.personTotals == old(db.personTotals)
                                 && db.projects == old(db.projects) && db.registry.records == old(db.registry.records)
    ensures outcome == Saved ==> SameIds(old(db.issues), db.issues) && UniqueIds(db.issues)
    ensures outcome == Saved ==> forall j :: 0 <= j < |db.issues| && j != k ==> db.issues[j] == old(db.issues[j])
    ensures outcome == Saved ==> db.issues[k].lockVersion == (if edited == old(db.issues)[k] then edited.lockVersion else edited.lockVersion + 1)
    ensures outcome == Saved ==> db.issues[k] == edited.(lockVersion := db.issues[k].lockVersion, checkDays := db.issues[k].checkDays)
    ensures outcome == Saved ==> db.issues[k].checkDays == (if edited.estimatedDays != old(db.issues[k].estimatedDays)
                                                           then Some(IssueTotal(db.entries, edited.id) - edited.estimatedDays)
                                                           else edited.checkDays)
    ensures outcome == Saved ==> forall q :: q in db.projects ==> db.projects[q].id == q && db.projects[q].nilColumns == {}
    ensures outcome == Saved ==> db.registry.records == Touched(Touched(old(db.registry.records), Some(edited.project), at), None, at)
    ensures old(Accurate(db.personTotals, db.entries, db.issues)) ==> Accurate(db.personTotals, db.entries, db.issues)
    ensures outcome == Saved && old(IssueConsistent(db.issues[k], db.entries))
            && edited.scheduleDays == old(db.issues[k].scheduleDays) && edited.checkDays == old(db.issues[k].checkDays)
            ==> IssueConsistent(db.issues[k], db.entries)
    ensures outcome == Saved && edited.project in db.projects ==> ProjectConsistent(db.projects[edited.project], db.issues)
  {
    var stored := db.issues[k];
    if !validate(edited) {
      return Invalid;
    }
    if edited != stored {
      if edited.lockVersion != stored.lockVersion {
        return StaleObject;
      }
      if edited.nilColumns != {} {
        return NotNullViolation;
      }
      db.issues := db.issues[k := edited.(lockVersion := edited.lockVersion + 1)];
    }
    assert old(db.issues) == db.issues[k := stored];
    RunHooks(db, k, stored, at);
    outcome := Saved;
  }
}
