/** `IssueDailySchedule`: the planned effort of one issue on one day. Saving
 *  one normalises the value, keeps one row per (issue, day), and rewrites
 *  the stored total of the issue's assignee for that day. */
module IssueDailySchedule {
  import opened Optional
  import opened Hundredths
  import opened Calendar
  import opened Schema
  import opened Sums
  import opened Store
  import UserDailySchedule

  /** `normalize_man_days`: the `before_validation` hook, one reassignment of
   *  `man_days` after another. */
  method NormalizeManDays(manDays: Option<Decimal>) returns (normalized: int)
    ensures Normalized(manDays, MAX_MAN_DAYS, normalized)
    ensures 0 <= normalized <= MAX_MAN_DAYS
  {
    var v := manDays;
    if v.None? {
      v := Some(Decimal(0, 0));
    }
    var r := Round2(v.value);
    if r < 0 {
      r := 0;
    }
    if r > MAX_MAN_DAYS {
      r := MAX_MAN_DAYS;
    }
    normalized := r;
  }

  /** The validations: `man_days` present and within 0..999.99. */
  predicate PassesValidation(manDays: int)
  {
    0 <= manDays <= MAX_MAN_DAYS
  }

  /** Validation never rejects a normalised value, so `save!` on an entry
   *  cannot raise `RecordInvalid` for its effort. */
  lemma NormalizedPassesValidation(raw: Option<Decimal>, v: int)
    requires Normalized(raw, MAX_MAN_DAYS, v)
    ensures PassesValidation(v)
  {
    NormalizedInRange(raw, MAX_MAN_DAYS, v);
  }

  ghost predicate AllInRange(entries: seq<Entry>)
  {
    forall i :: 0 <= i < |entries| ==> PassesValidation(entries[i].manDays)
  }

  function FindEntry(entries: seq<Entry>, issue: IssueId, date: Date): (r: Option<nat>)
    ensures r.Some? ==> r.value < |entries| && entries[r.value].issue == issue && entries[r.value].date == date
    ensures r.None? ==> forall k :: 0 <= k < |entries| ==> (entries[k].issue, entries[k].date) != (issue, date)
    decreases |entries|
  {
    if entries == [] then None
    else if entries[0].issue == issue && entries[0].date == date then Some(0)
    else
      var rest := FindEntry(entries[1..], issue, date);
      if rest.None? then None else Some(rest.value + 1)
  }

  /** `issue.issue_daily_schedules.find_or_initialize_by(schedule_date:)`
   *  followed by `save!`: the existing row is updated, or a new row
   *  appended. */
  function UpsertEntry(entries: seq<Entry>, issue: IssueId, date: Date, manDays: int): (r: seq<Entry>)
    ensures UniqueKeys(entries) ==> UniqueKeys(r)
    ensures exists k :: 0 <= k < |r| && r[k] == Entry(issue, date, manDays)
    ensures forall k :: 0 <= k < |entries| && (entries[k].issue, entries[k].date) != (issue, date) ==> entries[k] in r
    ensures forall k :: 0 <= k < |r| && (r[k].issue, r[k].date) != (issue, date) ==> r[k] in entries
  {
    var found := FindEntry(entries, issue, date);
    if found.Some? then
      var r := entries[found.value := Entry(issue, date, manDays)];
      assert r[found.value] == Entry(issue, date, manDays);
      assert forall k :: 0 <= k < |entries| && k != found.value ==> r[k] == entries[k];
      r
    else
      var r := entries + [Entry(issue, date, manDays)];
      assert r[|entries|] == Entry(issue, date, manDays);
      r
  }

  /** Under the uniqueness rule an issue's effort on a day is the value of
   *  its one row for that day, or zero when there is none. */
  lemma IssueDayIsOneRow(entries: seq<Entry>, issue: IssueId, date: Date)
    requires UniqueKeys(entries)
    ensures var f := FindEntry(entries, issue, date);
      IssueDayTotal(entries, issue, date) == if f.Some? then entries[f.value].manDays else 0
  {
    var f := FindEntry(entries, issue, date);
    if f.Some? {
      SumSingle(entries, f.value, IssueDayShare(issue, date));
    } else {
      SumZero(entries, IssueDayShare(issue, date));
    }
  }

  /** Saving one day's effort moves the issue's scheduled total by exactly
   *  the change of that day, and leaves every other issue's total alone. */
  lemma {:induction false} UpsertChangesIssueTotal(entries: seq<Entry>, issue: IssueId, date: Date, manDays: int, other: IssueId)
    requires UniqueKeys(entries)
    ensures IssueTotal(UpsertEntry(entries, issue, date, manDays), issue)
            == IssueTotal(entries, issue) - IssueDayTotal(entries, issue, date) + manDays
    ensures other != issue ==> IssueTotal(UpsertEntry(entries, issue, date, manDays), other) == IssueTotal(entries, other)
  {
    IssueDayIsOneRow(entries, issue, date);
    var found := FindEntry(entries, issue, date);
    var e := Entry(issue, date, manDays);
    if found.Some? {
      SumUpdate(entries, found.value, e, IssueShare(issue));
      SumUpdate(entries, found.value, e, IssueShare(other));
    } else {
      SumAppend(entries, e, IssueShare(issue));
      SumAppend(entries, e, IssueShare(other));
    }
  }

  /** The person totals after `update_user_daily_schedule` for an entry of
   *  `issue` on `date`: nothing when the issue has no assignee, otherwise the
   *  assignee's row for that day rewritten from the entries. */
  function AfterEntryChange(personTotals: map<(UserId, Date), int>, entries: seq<Entry>, issues: seq<Issue>,
                            issue: IssueId, date: Date): map<(UserId, Date), int>
  {
    var u := AssigneeOf(issues, issue);
    if u.None? then personTotals
    else personTotals[(u.value, date) := UserDailySchedule.StoredTotal(PersonDayTotal(entries, issues, u.value, date))]
  }

  /** `update_user_daily_schedule`, the `after_save`/`after_destroy` hook. */
  method UpdateUserDailySchedule(db: Database, issue: IssueId, date: Date)
    modifies db`personTotals
    ensures db.personTotals == AfterEntryChange(old(db.personTotals), db.entries, db.issues, issue, date)
  {
    var u := AssigneeOf(db.issues, issue);
    if u.None? {
      return;
    }
    var total := PersonDayTotal(db.entries, db.issues, u.value, date);
    UserDailySchedule.SaveTotal(db, u.value, date, total);
  }

  /** Setting the effort of an issue on a day and saving it: the value is
   *  normalised, the one row of that (issue, day) holds it, and the
   *  assignee's stored total for that day is rewritten. */
  method SaveEntry(db: Database, issue: IssueId, date: Date, raw: Option<Decimal>) returns (stored: int)
    modifies db`entries, db`personTotals
    ensures Normalized(raw, MAX_MAN_DAYS, stored) && PassesValidation(stored)
    ensures db.entries == UpsertEntry(old(db.entries), issue, date, stored)
    ensures db.personTotals == AfterEntryChange(old(db.personTotals), db.entries, db.issues, issue, date)
  {
    stored := NormalizeManDays(raw);
    db.entries := UpsertEntry(db.entries, issue, date, stored);
    UpdateUserDailySchedule(db, issue, date);
  }
}
