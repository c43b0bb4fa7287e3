/** `DetailedScheduleGanttController#bulk_update_issue`: one grid row's
 *  changes for one issue, split into daily efforts (keys that look like
 *  `YYYY-MM-DD`) and issue columns, filtered by what the user may assign,
 *  and applied in one transaction under the client's lock version. */
module RowUpdate {
  import opened Optional
  import opened Hundredths
  import opened Text
  import opened Calendar
  import opened Schema
  import opened Sums
  import opened Store
  import opened GanttLatestUpdate
  import opened Http
  import IssueDailySchedule
  import opened IssuePatch

  /** One key of the request's `attributes` object and its decoded value. */
  type Attribute = (string, Value)

  function Key(a: Attribute): string { a.0 }

  predicate IsDateAttr(a: Attribute) { IsDateKey(a.0) }

  predicate IsFieldAttr(a: Attribute) { !IsDateKey(a.0) }

  /** A JSON object has each key once. */
  ghost predicate DistinctKeys(attrs: seq<Attribute>)
  {
    DistinctBy(attrs, Key)
  }

  function Keys(attrs: seq<Attribute>): (ks: seq<string>)
    ensures |ks| == |attrs| && forall i :: 0 <= i < |attrs| ==> ks[i] == attrs[i].0
  {
    seq(|attrs|, i requires 0 <= i < |attrs| => attrs[i].0)
  }

  /** The split loop: date-shaped keys go to `date_attrs`, every other key
   *  to `normal_attrs`, each keeping the request's order. */
  method SplitAttributes(attrs: seq<Attribute>) returns (dateAttrs: seq<Attribute>, normalAttrs: seq<Attribute>)
    ensures dateAttrs == Filter(attrs, IsDateAttr)
    ensures normalAttrs == Filter(attrs, IsFieldAttr)
  {
    dateAttrs, normalAttrs := [], [];
    var i := 0;
    while i < |attrs|
      invariant 0 <= i <= |attrs|
      invariant dateAttrs == Filter(attrs[..i], IsDateAttr)
      invariant normalAttrs == Filter(attrs[..i], IsFieldAttr)
    {
      assert attrs[..i + 1][..i] == attrs[..i];
      if IsDateKey(attrs[i].0) {
        dateAttrs := dateAttrs + [attrs[i]];
      } else {
        normalAttrs := normalAttrs + [attrs[i]];
      }
      i := i + 1;
    }
    assert attrs[..i] == attrs;
  }

  /** The two parts are disjoint and together hold the whole request: every
   *  attribute lands in exactly one of them, date keys in the first. */
  lemma SplitPartitions(attrs: seq<Attribute>)
    ensures var dates := Filter(attrs, IsDateAttr);
      var fields := Filter(attrs, IsFieldAttr);
      && |dates| + |fields| == |attrs|
      && (forall i :: 0 <= i < |attrs| ==> (attrs[i] in dates <==> IsDateKey(attrs[i].0)) && (attrs[i] in fields <==> !IsDateKey(attrs[i].0)))
      && (forall i :: 0 <= i < |dates| ==> IsDateKey(dates[i].0) && dates[i] in attrs)
      && (forall i :: 0 <= i < |fields| ==> !IsDateKey(fields[i].0) && fields[i] in attrs)
  {
    FilterSplitLength(attrs, IsDateAttr, IsFieldAttr);
  }

  function Permitted(allowed: set<string>): Attribute -> bool
  {
    (a: Attribute) => a.0 in allowed
  }

  function Refused(allowed: set<string>): Attribute -> bool
  {
    (a: Attribute) => a.0 !in allowed
  }

  /** `normal_attrs.keys - allowed`: the keys the user may not assign. */
  function IgnoredKeys(fields: seq<Attribute>, allowed: set<string>): (ks: seq<string>)
    ensures forall i :: 0 <= i < |ks| ==> ks[i] !in allowed
    ensures forall i :: 0 <= i < |fields| && fields[i].0 !in allowed ==> fields[i].0 in ks
    ensures forall k :: k in ks ==> exists i :: 0 <= i < |fields| && fields[i].0 == k
  {
    var refused := Filter(fields, Refused(allowed));
    var ks := Keys(refused);
    assert forall i :: 0 <= i < |fields| && fields[i].0 !in allowed ==> fields[i] in refused;
    assert forall k :: k in ks ==> exists i :: 0 <= i < |refused| && refused[i].0 == k;
    ks
  }

  /** One entry of the response's `results`. */
  datatype Item = Item(value: Value, noChange: bool)

  /** The answer to one row. */
  datatype RowResponse =
    | NotFound
    | Forbidden
    | MissingLockVersion
    | MissingAttributes
    | Unfit
    | Stale(ignoredByPermission: seq<string>)
    | InvalidRecord(results: map<string, Item>)
    | Done(results: map<string, Item>, ignoredByPermission: seq<string>)
  {
    function Status(): (code: nat)
      ensures code == BAD_REQUEST <==> this == MissingLockVersion || this == MissingAttributes
      ensures code == OK <==> this.Done? && this.ignoredByPermission == []
    {
      match this
      case NotFound => NOT_FOUND
      case Forbidden => FORBIDDEN
      case MissingLockVersion => BAD_REQUEST
      case MissingAttributes => BAD_REQUEST
      case Unfit => INTERNAL_SERVER_ERROR
      case Stale(_) => CONFLICT
      case InvalidRecord(_) => UNPROCESSABLE_ENTITY
      case Done(_, ignored) => if ignored == [] then OK else UNPROCESSABLE_ENTITY
    }
  }

  /** The `results` entry of a column: its value read back from the issue. */
  function Report(row: Issue, key: string, noChange: bool): Item
  {
    Item(ReadAttribute(row, key), noChange)
  }

  /** The reporting loop over the assigned columns. */
  method ReportFields(row: Issue, fields: seq<Attribute>, noChange: bool, results0: map<string, Item>) returns (results: map<string, Item>)
    ensures forall k :: k in results <==> k in results0 || k in Keys(fields)
    ensures forall k :: k in Keys(fields) ==> results[k] == Report(row, k, noChange)
    ensures forall k :: k in results0 && k !in Keys(fields) ==> results[k] == results0[k]
  {
    results := results0;
    var i := 0;
    while i < |fields|
      invariant 0 <= i <= |fields|
      invariant forall k :: k in results <==> k in results0 || k in Keys(fields[..i])
      invariant forall k :: k in Keys(fields[..i]) ==> results[k] == Report(row, k, noChange)
      invariant forall k :: k in results0 && k !in Keys(fields[..i]) ==> results[k] == results0[k]
    {
      assert Keys(fields[..i + 1]) == Keys(fields[..i]) + [fields[i].0];
      results := results[fields[i].0 := Report(row, fields[i].0, noChange)];
      i := i + 1;
    }
    assert fields[..i] == fields;
  }

  /** The outcome of one phase of the transaction. */
  datatype Phase = Applied | StaleVersion | RecordInvalid | NullViolation

  /** `issue.touch` after the client's lock version was assigned: the row is
   *  written only if its stored lock version is the client's, and the
   *  version then advances past it. No `after_update` hook runs. */
  method TouchIssue(db: Database, k: nat, lock: int) returns (phase: Phase)
    requires db.Valid() && k < |db.issues|
    modifies db`issues
    ensures phase != RecordInvalid && phase != NullViolation
    ensures phase == StaleVersion <==> lock != old(db.issues[k].lockVersion)
    ensures phase == StaleVersion ==> db.issues == old(db.issues)
    ensures phase == Applied ==> db.issues == old(db.issues)[k := old(db.issues[k]).(lockVersion := lock + 1)]
    ensures db.Valid() && SameIds(old(db.issues), db.issues)
    ensures old(Accurate(db.personTotals, db.entries, db.issues)) ==> Accurate(db.personTotals, db.entries, db.issues)
    ensures old(IssueConsistent(db.issues[k], db.entries)) ==> IssueConsistent(db.issues[k], db.entries)
  {
    var stored := db.issues[k];
    if lock != stored.lockVersion {
      return StaleVersion;
    }
    db.issues := db.issues[k := stored.(lockVersion := lock + 1)];
    assert SameIds(old(db.issues), db.issues);
    if Accurate(db.personTotals, db.entries, old(db.issues)) {
      AccurateSameAssignees(db.personTotals, db.entries, old(db.issues), db.issues);
    }
    phase := Applied;
  }

  /** The keys `results` reports after a real save: every assigned column,
   *  and `check_days` when the estimate was among them. */
  function SavedKeys(fields: seq<Attribute>): set<string>
  {
    (set key | key in Keys(fields)) + (if "estimated_days" in Keys(fields) then {"check_days"} else {})
  }

  /** `issue.save!` of a row the assignment changed, then the report of
   *  every assigned column read back from the saved row (and `check_days`
   *  when the estimate was among them). */
  method SaveFields(db: Database, k: nat, edited: Issue, fields: seq<Attribute>, validate: Issue -> bool, at: Time)
    returns (phase: Phase, results: map<string, Item>)
    requires db.Valid() && k < |db.issues| && edited.id == db.issues[k].id && edited != db.issues[k]
    modifies db`issues, db`personTotals, db`projects, db.registry
    ensures db.entries == old(db.entries)
    ensures phase == Applied ==> db.Valid() && SameIds(old(db.issues), db.issues)
    ensures old(Accurate(db.personTotals, db.entries, db.issues)) ==> Accurate(db.personTotals, db.entries, db.issues)
    ensures phase == RecordInvalid <==> !validate(edited)
    ensures phase == StaleVersion <==> validate(edited) && edited.lockVersion != old(db.issues[k].lockVersion)
    ensures phase == NullViolation <==> validate(edited) && edited.lockVersion == old(db.issues[k].lockVersion) && edited.nilColumns != {}
    ensures phase == Applied ==> db.issues[k] == edited.(lockVersion := edited.lockVersion + 1, checkDays := db.issues[k].checkDays)
                                 && results.Keys == SavedKeys(fields)
                                 && (forall key :: key in results ==> results[key] == Report(db.issues[k], key, false))
    ensures phase == Applied && old(IssueConsistent(db.issues[k], db.entries))
            && edited.scheduleDays == old(db.issues[k].scheduleDays) && edited.checkDays == old(db.issues[k].checkDays)
            ==> IssueConsistent(db.issues[k], db.entries)
    ensures phase != Applied ==> db.issues == old(db.issues) && db.personTotals == old(db.personTotals)
                                 && db.projects == old(db.projects) && db.registry.records == old(db.registry.records)
  {
    var outcome := SaveIssue(db, k, edited, validate, at);
    if outcome == SaveOutcome.Invalid {
      return RecordInvalid, map[];
    } else if outcome == StaleObject {
      return StaleVersion, map[];
    } else if outcome == NotNullViolation {
      return NullViolation, map[];
    }
    var row := db.issues[k];
    results := map[];
    if "estimated_days" in Keys(fields) {
      results := results["check_days" := Report(row, "check_days", false)];
    }
    results := ReportFields(row, fields, false, results);
    phase := Applied;
  }

  /** `issue.safe_attributes = normal_attrs` over the client's lock version,
   *  then `issue.save!` when that changed anything. An assignment that
   *  changes nothing is not saved and every key is reported as 'no change';
   *  a real change is saved as `SaveFields` describes. */
  method AssignFields(db: Database, k: nat, lock: int, fields: seq<Attribute>, validate: Issue -> bool, at: Time)
    returns (phase: Phase, results: map<string, Item>)
    requires db.Valid() && k < |db.issues|
    requires forall i :: 0 <= i < |fields| ==> WellTyped(fields[i].0, fields[i].1)
    modifies db`issues, db`personTotals, db`projects, db.registry
    ensures db.entries == old(db.entries)
    ensures phase == Applied ==> db.Valid() && SameIds(old(db.issues), db.issues)
    ensures old(Accurate(db.personTotals, db.entries, db.issues)) ==> Accurate(db.personTotals, db.entries, db.issues)
    ensures var stored := old(db.issues[k]);
      var edited := AssignAll(stored.(lockVersion := lock), fields);
      && (edited == stored ==> phase == Applied && db.issues == old(db.issues)
                               && db.personTotals == old(db.personTotals) && db.projects == old(db.projects)
                               && db.registry.records == old(db.registry.records)
                               && results == map key | key in Keys(fields) :: Report(stored, key, true))
      && (edited != stored ==>
            && (phase == RecordInvalid <==> !validate(edited))
            && (phase == StaleVersion <==> validate(edited) && lock != stored.lockVersion)
            && (phase == NullViolation <==> validate(edited) && lock == stored.lockVersion && edited.nilColumns != {})
            && (phase == Applied ==> db.issues[k] == edited.(lockVersion := lock + 1, checkDays := db.issues[k].checkDays)
                                     && results.Keys == SavedKeys(fields)
                                     && (forall key :: key in results ==> results[key] == Report(db.issues[k], key, false))))
      && (phase == Applied && old(IssueConsistent(db.issues[k], db.entries))
          && edited.scheduleDays == stored.scheduleDays && edited.checkDays == stored.checkDays
          ==> IssueConsistent(db.issues[k], db.entries))
    ensures phase != Applied ==> db.issues == old(db.issues) && db.personTotals == old(db.personTotals)
                                 && db.projects == old(db.projects) && db.registry.records == old(db.registry.records)
  {
    var stored := db.issues[k];
    var edited := AssignAll(stored.(lockVersion := lock), fields);
    if edited == stored {
      results := ReportFields(stored, fields, true, map[]);
      return Applied, results;
    }
    phase, results := SaveFields(db, k, edited, fields, validate, at);
  }

  /** Two versions of the issues table that differ at most in the derived
   *  totals `schedule_days` and `check_days`. */
  ghost predicate OnlyTotalsChanged(a: seq<Issue>, b: seq<Issue>)
  {
    |a| == |b| && forall j :: 0 <= j < |a| ==> b[j] == a[j].(scheduleDays := b[j].scheduleDays, checkDays := b[j].checkDays)
  }

  /** Recomputing totals leaves who-is-assigned-what alone, so stored person
   *  totals stay accurate. */
  lemma AccurateSameAssignees(pt: map<(UserId, Date), int>, entries: seq<Entry>, a: seq<Issue>, b: seq<Issue>)
    requires SameIds(a, b)
    requires forall j :: 0 <= j < |a| ==> a[j].assignee == b[j].assignee
    requires Accurate(pt, entries, a)
    ensures Accurate(pt, entries, b)
  {
    forall key: (UserId, Date) ensures PersonDayTotal(entries, a, key.0, key.1) == PersonDayTotal(entries, b, key.0, key.1) {
      SameAssigneesSameTotals(entries, a, b, key.0, key.1);
    }
  }

  /** Saving one day's entry (with its `after_save` hook) keeps the keys
   *  unique and the person totals accurate. */
  method SaveDay(db: Database, id: IssueId, d: Date, raw: Option<Decimal>) returns (stored: int)
    requires db.Valid()
    modifies db`entries, db`personTotals
    ensures db.Valid()
    ensures Normalized(raw, MAX_MAN_DAYS, stored)
    ensures db.entries == IssueDailySchedule.UpsertEntry(old(db.entries), id, d, stored)
    ensures old(Accurate(db.personTotals, db.entries, db.issues)) ==> Accurate(db.personTotals, db.entries, db.issues)
  {
    ghost var pt0, entries0 := db.personTotals, db.entries;
    stored := IssueDailySchedule.SaveEntry(db, id, d, raw);
    if Accurate(pt0, entries0, db.issues) {
      EntrySaveKeepsAccurate(pt0, entries0, db.issues, id, d, stored);
    }
  }

  /** `update_schedule_and_check_days` then
   *  `update_project_schedule_days_and_check_days` make the issue and its
   *  project consistent with the entries, without touching assignments. */
  method RecomputeTotals(db: Database, id: IssueId)
    requires db.Valid() && FindIssue(db.issues, id).Some?
    modifies db`issues, db`projects
    ensures db.Valid() && SameIds(old(db.issues), db.issues) && OnlyTotalsChanged(old(db.issues), db.issues)
    ensures FindIssue(db.issues, id) == FindIssue(old(db.issues), id)
    ensures old(Accurate(db.personTotals, db.entries, db.issues)) ==> Accurate(db.personTotals, db.entries, db.issues)
    ensures var row := db.issues[FindIssue(db.issues, id).value];
      && IssueConsistent(row, db.entries)
      && (row.project in db.projects ==> ProjectConsistent(db.projects[row.project], db.issues))
  {
    ghost var issues0 := db.issues;
    UpdateScheduleAndCheckDays(db, id);
    UpdateProjectScheduleDaysAndCheckDays(db, id);
    if Accurate(db.personTotals, db.entries, issues0) {
      AccurateSameAssignees(db.personTotals, db.entries, issues0, db.issues);
    }
  }

  /** One date key: parse it, upsert and save the entry, and recompute the
   *  issue's and the project's totals. A key that is not a calendar date
   *  leaves `schedule_date` blank, which fails validation. */
  method ApplyDay(db: Database, id: IssueId, day: Attribute) returns (ok: bool, stored: int)
    requires db.Valid() && FindIssue(db.issues, id).Some? && IsDateKey(day.0)
    modifies db`entries, db`personTotals, db`issues, db`projects
    ensures ok <==> ParseDateKey(day.0).Some?
    ensures !ok ==> db.entries == old(db.entries) && db.issues == old(db.issues)
                    && db.personTotals == old(db.personTotals) && db.projects == old(db.projects)
    ensures ok ==> db.Valid() && OnlyTotalsChanged(old(db.issues), db.issues) && FindIssue(db.issues, id) == FindIssue(old(db.issues), id)
    ensures ok ==> Normalized(AsDecimal(day.1), MAX_MAN_DAYS, stored)
                   && db.entries == IssueDailySchedule.UpsertEntry(old(db.entries), id, ParseDateKey(day.0).value, stored)
    ensures old(Accurate(db.personTotals, db.entries, db.issues)) ==> Accurate(db.personTotals, db.entries, db.issues)
    ensures ok ==> Settled(db.issues, db.projects, db.entries, id)
  {
    var date := ParseDateKey(day.0);
    if date.None? {
      return false, 0;
    }
    stored := SaveDay(db, id, date.value, AsDecimal(day.1));
    RecomputeTotals(db, id);
    ok := true;
  }

  /** The `results` entries one saved day writes: the stored effort under
   *  the date key, then the issue's check and scheduled totals. */
  function DayResults(results: map<string, Item>, key: string, stored: int, row: Issue): map<string, Item>
  {
    results[key := Item(Num(Decimal(stored, 2)), false)]
           ["check_days" := Report(row, "check_days", false)]
           ["schedule_days" := Report(row, "schedule_days", false)]
  }

  /** What `results` holds after the first `n` date keys: each one's stored
   *  effort, every earlier entry the keys do not overwrite, and (once a day
   *  was saved) the issue's totals as `row` holds them. */
  ghost predicate Reported(results0: map<string, Item>, results: map<string, Item>, days: seq<Attribute>, n: nat, row: Issue)
    requires n <= |days|
  {
    && (forall j :: 0 <= j < n ==> days[j].0 in results && ReportsStored(results[days[j].0], days[j].1))
    && (forall key :: key in results0 && (forall j :: 0 <= j < n ==> days[j].0 != key)
                      && key != "check_days" && key != "schedule_days"
                      ==> key in results && results[key] == results0[key])
    && (n > 0 ==> "check_days" in results && results["check_days"] == Report(row, "check_days", false)
                  && "schedule_days" in results && results["schedule_days"] == Report(row, "schedule_days", false))
  }

  /** A day's entries overwrite no earlier date key's report. */
  lemma DayResultsKeep(results0: map<string, Item>, results: map<string, Item>, days: seq<Attribute>, i: nat,
                       stored: int, before: Issue, row: Issue)
    requires i < |days| && forall j :: 0 <= j <= i ==> IsDateKey(days[j].0)
    requires DistinctKeys(days)
    requires Reported(results0, results, days, i, before)
    requires Normalized(AsDecimal(days[i].1), MAX_MAN_DAYS, stored)
    ensures Reported(results0, DayResults(results, days[i].0, stored, row), days, i + 1, row)
  {
    var r := DayResults(results, days[i].0, stored, row);
    forall j | 0 <= j <= i ensures days[j].0 in r && ReportsStored(r[days[j].0], days[j].1) {
      DateKeyIsNotATotal(days[j].0);
      assert j < i ==> Key(days[j]) != Key(days[i]);
    }
  }

  /** The issue and its project agree with the entries. */
  ghost predicate Settled(issues: seq<Issue>, projects: map<ProjectId, Project>, entries: seq<Entry>, id: IssueId)
  {
    var f := FindIssue(issues, id);
    f.Some?
    && IssueConsistent(issues[f.value], entries)
    && (issues[f.value].project in projects ==> ProjectConsistent(projects[issues[f.value].project], issues))
  }

  /** What `results` says about a date key: the effort as stored, that is
   *  the value sent, normalised. */
  ghost predicate ReportsStored(item: Item, v: Value)
  {
    item.value.Num? && item.value.d.scale == 2 && !item.noChange
    && Normalized(AsDecimal(v), MAX_MAN_DAYS, item.value.d.units)
  }

  /** A date key never collides with the keys the loop reports totals under. */
  lemma DateKeyIsNotATotal(key: string)
    requires IsDateKey(key)
    ensures key != "check_days" && key != "schedule_days"
  {
  }

  lemma OnlyTotalsChangedTransitive(a: seq<Issue>, b: seq<Issue>, c: seq<Issue>)
    requires OnlyTotalsChanged(a, b) && OnlyTotalsChanged(b, c)
    ensures OnlyTotalsChanged(a, c)
  {
    forall j | 0 <= j < |a| ensures c[j] == a[j].(scheduleDays := c[j].scheduleDays, checkDays := c[j].checkDays) {
      assert b[j] == a[j].(scheduleDays := b[j].scheduleDays, checkDays := b[j].checkDays);
    }
  }

  /** One turn of the `date_attrs.each` loop: save the day, recompute, and
   *  write the day's `results` entries. */
  method DayStep(db: Database, id: IssueId, days: seq<Attribute>, i: nat, results0: map<string, Item>, results: map<string, Item>)
    returns (ok: bool, results1: map<string, Item>)
    requires db.Valid() && FindIssue(db.issues, id).Some?
    requires i < |days| && forall j :: 0 <= j < |days| ==> IsDateKey(days[j].0)
    requires DistinctKeys(days)
    requires Reported(results0, results, days, i, db.issues[FindIssue(db.issues, id).value])
    modifies db`entries, db`personTotals, db`issues, db`projects
    ensures db.Valid() && OnlyTotalsChanged(old(db.issues), db.issues)
    ensures FindIssue(db.issues, id) == FindIssue(old(db.issues), id)
    ensures old(Accurate(db.personTotals, db.entries, db.issues)) ==> Accurate(db.personTotals, db.entries, db.issues)
    ensures ok <==> ParseDateKey(days[i].0).Some?
    ensures ok ==> Reported(results0, results1, days, i + 1, db.issues[FindIssue(db.issues, id).value])
                   && Settled(db.issues, db.projects, db.entries, id)
  {
    ghost var before := db.issues[FindIssue(db.issues, id).value];
    var stored;
    ok, stored := ApplyDay(db, id, days[i]);
    if !ok {
      assert OnlyTotalsChanged(old(db.issues), db.issues);
      return ok, results;
    }
    var row := db.issues[FindIssue(db.issues, id).value];
    DayResultsKeep(results0, results, days, i, stored, before, row);
    results1 := DayResults(results, days[i].0, stored, row);
  }

  /** The `date_attrs.each` loop. It stops at the first key that is not a
   *  calendar date; otherwise every key's entry is saved and reported, and
   *  once at least one day was saved the issue and its project are
   *  consistent with the entries and their totals are reported. */
  method ApplyDays(db: Database, id: IssueId, days: seq<Attribute>, results0: map<string, Item>)
    returns (ok: bool, results: map<string, Item>)
    requires db.Valid() && FindIssue(db.issues, id).Some?
    requires forall i :: 0 <= i < |days| ==> IsDateKey(days[i].0)
    requires DistinctKeys(days)
    modifies db`entries, db`personTotals, db`issues, db`projects
    ensures db.Valid() && OnlyTotalsChanged(old(db.issues), db.issues)
    ensures FindIssue(db.issues, id) == FindIssue(old(db.issues), id)
    ensures old(Accurate(db.personTotals, db.entries, db.issues)) ==> Accurate(db.personTotals, db.entries, db.issues)
    ensures ok <==> forall i :: 0 <= i < |days| ==> ParseDateKey(days[i].0).Some?
    ensures days == [] ==> results == results0 && db.entries == old(db.entries) && db.issues == old(db.issues)
                           && db.projects == old(db.projects) && db.personTotals == old(db.personTotals)
    ensures ok ==> Reported(results0, results, days, |days|, db.issues[FindIssue(db.issues, id).value])
    ensures ok && days != [] ==> Settled(db.issues, db.projects, db.entries, id)
  {
    results := results0;
    assert OnlyTotalsChanged(db.issues, db.issues);
    if days == [] {
      return true, results;
    }
    var i := 0;
    while i < |days|
      invariant 0 <= i <= |days|
      invariant db.Valid() && OnlyTotalsChanged(old(db.issues), db.issues)
      invariant FindIssue(db.issues, id) == FindIssue(old(db.issues), id)
      invariant old(Accurate(db.personTotals, db.entries, db.issues)) ==> Accurate(db.personTotals, db.entries, db.issues)
      invariant forall j :: 0 <= j < i ==> ParseDateKey(days[j].0).Some?
      invariant Reported(results0, results, days, i, db.issues[FindIssue(db.issues, id).value])
      invariant i > 0 ==> Settled(db.issues, db.projects, db.entries, id)
    {
      ghost var issues0 := db.issues;
      var ok1;
      ok1, results := DayStep(db, id, days, i, results0, results);
      OnlyTotalsChangedTransitive(old(db.issues), issues0, db.issues);
      if !ok1 {
        return false, results;
      }
      i := i + 1;
    }
    ok := true;
  }

  /** Rails' cast of each request value to the column it is assigned to. */
  function CastAll(attrs: seq<Attribute>): (r: seq<Attribute>)
    ensures |r| == |attrs|
    ensures forall i :: 0 <= i < |attrs| ==> r[i] == (attrs[i].0, CastValue(attrs[i].0, attrs[i].1))
    ensures forall i :: 0 <= i < |r| ==> WellTyped(r[i].0, r[i].1)
  {
    seq(|attrs|, i requires 0 <= i < |attrs| => (attrs[i].0, CastValue(attrs[i].0, attrs[i].1)))
  }

  /** A cleared estimate cell sends an empty string. It casts to nil, so the
   *  edited issue holds nil in the NOT NULL `estimated_days` column and
   *  nowhere else; `RowAnswered` then says the row is refused (500) only
   *  when the edit validates and the lock is current. */
  lemma ClearedEstimateIsNull(stored: Issue, lock: int)
    requires stored.nilColumns == {}
    ensures var fields := CastAll([("estimated_days", Text(""))]);
      AssignAll(stored.(lockVersion := lock), fields).nilColumns == {"estimated_days"}
  {
    var fields := CastAll([("estimated_days", Text(""))]);
    assert fields == [("estimated_days", Null)];
    assert AssignAll(stored.(lockVersion := lock), fields) == Assign(stored.(lockVersion := lock), "estimated_days", Null);
  }

  /** The columns the row assigns: the request's non-date keys the user may
   *  assign, in request order, cast to their columns. */
  function AssignedFields(actor: Actor, id: IssueId, attrs: seq<Attribute>): (r: seq<Attribute>)
    ensures |r| <= |attrs|
    ensures forall i :: 0 <= i < |r| ==>
      && !IsDateKey(r[i].0) && r[i].0 in IssueSafeAttributeNames(actor, id, false) && WellTyped(r[i].0, r[i].1)
      && exists j :: 0 <= j < |attrs| && attrs[j].0 == r[i].0 && r[i].1 == CastValue(attrs[j].0, attrs[j].1)
    ensures forall j :: 0 <= j < |attrs| && !IsDateKey(attrs[j].0) && attrs[j].0 in IssueSafeAttributeNames(actor, id, false) ==>
      (attrs[j].0, CastValue(attrs[j].0, attrs[j].1)) in r
  {
    CastAll(Filter(Filter(attrs, IsFieldAttr), Permitted(IssueSafeAttributeNames(actor, id, false))))
  }

  /** The keys answered as `ignored_by_permission`. */
  function Ignored(actor: Actor, id: IssueId, attrs: seq<Attribute>): seq<string>
  {
    IgnoredKeys(Filter(attrs, IsFieldAttr), IssueSafeAttributeNames(actor, id, false))
  }

  /** The issue part of the transaction goes through: the client's lock
   *  version is current and the row is only touched, left as it was, or
   *  saved with an edit that validates and holds no nil in a `NOT NULL`
   *  column. */
  ghost predicate IssuePartCommits(stored: Issue, edited: Issue, lock: int, fields: seq<Attribute>, validate: Issue -> bool)
  {
    lock == stored.lockVersion && (fields == [] || edited == stored || (validate(edited) && edited.nilColumns == {}))
  }

  /** Every date key names a calendar date, so each entry's `schedule_date`
   *  is set and the entry validates. */
  ghost predicate AllCalendarDates(days: seq<Attribute>)
  {
    forall i :: 0 <= i < |days| ==> IsDateKey(days[i].0) && ParseDateKey(days[i].0).Some?
  }

  /** The body of the transaction: the issue part (touch or assign and
   *  save), then the date keys. Rolling back on failure is the caller's. */
  method Transaction(db: Database, k: nat, lock: int, fields: seq<Attribute>, days: seq<Attribute>,
                     validate: Issue -> bool, at: Time) returns (phase: Phase, results: map<string, Item>)
    requires db.Valid() && k < |db.issues|
    requires forall i :: 0 <= i < |fields| ==> WellTyped(fields[i].0, fields[i].1)
    requires forall i :: 0 <= i < |days| ==> IsDateKey(days[i].0)
    requires DistinctKeys(days)
    modifies db`entries, db`personTotals, db`issues, db`projects, db.registry
    ensures phase == Applied ==> db.Valid() && SameIds(old(db.issues), db.issues)
    ensures old(Accurate(db.personTotals, db.entries, db.issues)) ==> Accurate(db.personTotals, db.entries, db.issues)
    ensures var stored := old(db.issues[k]);
      var edited := AssignAll(stored.(lockVersion := lock), fields);
      && (phase == StaleVersion <==> lock != stored.lockVersion && (fields == [] || validate(edited)))
      && (phase == NullViolation <==> fields != [] && validate(edited) && lock == stored.lockVersion && edited.nilColumns != {})
      && (phase == RecordInvalid <==> (fields != [] && edited != stored && !validate(edited))
                                      || (IssuePartCommits(stored, edited, lock, fields, validate) && !AllCalendarDates(days)))
      && (phase == Applied <==> IssuePartCommits(stored, edited, lock, fields, validate) && AllCalendarDates(days))
      && (phase == Applied ==> db.issues[k].lockVersion == if fields != [] && edited == stored then stored.lockVersion else lock + 1)
    ensures phase == Applied ==>
      && (forall i :: 0 <= i < |days| ==> days[i].0 in results && ReportsStored(results[days[i].0], days[i].1))
      && (days != [] ==> Settled(db.issues, db.projects, db.entries, db.issues[k].id))
  {
    var id := db.issues[k].id;
    FindIssueUnique(db.issues, k);
    results := map[];
    if fields == [] {
      phase := TouchIssue(db, k, lock);
    } else {
      phase, results := AssignFields(db, k, lock, fields, validate, at);
    }
    if phase != Applied {
      return;
    }
    ghost var lockAfter := db.issues[k].lockVersion;
    FindIssueUnique(db.issues, k);
    var ok;
    ok, results := ApplyDays(db, id, days, results);
    if !ok {
      return RecordInvalid, results;
    }
    assert db.issues[k].lockVersion == lockAfter;
  }

  /** What the answer to a row says about the stored issue `stored` and the
   *  issue `edited` the assignment makes of it under the client's lock
   *  version. A save is validated first, so an edit that changes the row
   *  and fails validation is refused (422) whatever the lock. Then the lock
   *  is stale (409) exactly when it differs and the edit validates (or there
   *  is none and the row is only touched). The database refuses a NULL in a
   *  NOT NULL column (500) exactly when the edit validates, the lock is
   *  current and some such column was set to nil. Once the issue part went
   *  through, a date key that is not a calendar date fails the entry's
   *  validation (422), and otherwise the row commits (`Done`), its lock
   *  version moved past the client's unless the edit changed nothing. */
  ghost predicate RowAnswered(response: RowResponse, actor: Actor, attrs: seq<Attribute>, stored: Issue, lock: int,
                              validate: Issue -> bool, after: seq<Issue>, k: nat)
  {
    var fields := AssignedFields(actor, stored.id, attrs);
    var edited := AssignAll(stored.(lockVersion := lock), fields);
    && (response.Stale? <==> lock != stored.lockVersion && (fields == [] || validate(edited)))
    && (response == Unfit <==> fields != [] && validate(edited) && lock == stored.lockVersion && edited.nilColumns != {})
    && (response.InvalidRecord? <==> (fields != [] && edited != stored && !validate(edited))
                                     || (IssuePartCommits(stored, edited, lock, fields, validate)
                                         && !AllCalendarDates(Filter(attrs, IsDateAttr))))
    && (response.Done? <==> IssuePartCommits(stored, edited, lock, fields, validate) && AllCalendarDates(Filter(attrs, IsDateAttr)))
    && (response.Done? ==> k < |after| && after[k].lockVersion == if fields != [] && edited == stored then stored.lockVersion else lock + 1)
  }

  /** `bulk_update_issue` once the issue `k` was found, may be edited and
   *  a lock version came with the request: split the keys, drop those the
   *  user may not assign, run the transaction, roll it back on failure and
   *  touch the registry on commit. */
  method UpdateRow(db: Database, actor: Actor, urlProject: ProjectId, k: nat, lock: int,
                   attrs: seq<Attribute>, validate: Issue -> bool, at: Time) returns (response: RowResponse)
    requires db.Valid() && DistinctKeys(attrs) && k < |db.issues|
    modifies db, db.registry
    ensures db.Valid() && SameIds(old(db.issues), db.issues)
    ensures response.Unfit? || response.Stale? || response.InvalidRecord? || response.Done?
    ensures RowAnswered(response, actor, attrs, old(db.issues[k]), lock, validate, db.issues, k)
    ensures var id := old(db.issues[k].id);
      && (response.Stale? || response.Done? ==> response.ignoredByPermission == Ignored(actor, id, attrs))
      && (response.Done? ==> Settled(db.issues, db.projects, db.entries, id) || Filter(attrs, IsDateAttr) == [])
    ensures !response.Done? ==> db.State() == old(db.State())
    ensures old(Accurate(db.personTotals, db.entries, db.issues)) ==> Accurate(db.personTotals, db.entries, db.issues)
    ensures response.Done? ==> Last(db.registry.records, Some(urlProject)) == Some(at) && Last(db.registry.records, None) == Some(at)
    ensures response.Done? ==> var days := Filter(attrs, IsDateAttr);
      forall i :: 0 <= i < |days| ==> days[i].0 in response.results && ReportsStored(response.results[days[i].0], days[i].1)
  {
    var id := db.issues[k].id;
    var dateAttrs, normalAttrs := SplitAttributes(attrs);
    var allowed := IssueSafeAttributeNames(actor, id, false);
    var ignored := IgnoredKeys(normalAttrs, allowed);
    var fields := CastAll(Filter(normalAttrs, Permitted(allowed)));
    var snapshot := db.State();
    FilterKeepsKeysDistinct(attrs, Key, IsDateAttr);
    var phase, results := Transaction(db, k, lock, fields, dateAttrs, validate, at);
    if phase == StaleVersion {
      db.Restore(snapshot);
      return Stale(ignored);
    } else if phase == RecordInvalid {
      db.Restore(snapshot);
      return InvalidRecord(results);
    } else if phase == NullViolation {
      db.Restore(snapshot);
      return Unfit;
    }
    db.registry.TouchProjectAndGlobal(urlProject, at);
    response := Done(results, ignored);
  }


  /** The checks before the transaction, in the action's order: the issue
   *  must exist, the user must be allowed to edit it, a lock version must be
   *  sent, and `params.require(:attributes)` refuses a missing or empty
   *  object. The first that fails is the answer. */
  function Refusal(found: bool, editable: bool, lock: Option<int>, attrs: seq<Attribute>): (r: Option<RowResponse>)
    ensures r == Some(NotFound) <==> !found
    ensures r == Some(Forbidden) <==> found && !editable
    ensures r == Some(MissingLockVersion) <==> found && editable && lock.None?
    ensures r == Some(MissingAttributes) <==> found && editable && lock.Some? && attrs == []
    ensures r.None? <==> found && editable && lock.Some? && attrs != []
  {
    if !found then Some(NotFound)
    else if !editable then Some(Forbidden)
    else if lock.None? then Some(MissingLockVersion)
    else if attrs == [] then Some(MissingAttributes)
    else None
  }
  /** `bulk_update_issue`. The issue must exist (404), be editable by the
   *  user (403), come with a lock version (400) and with a non-empty
   *  `attributes` object (400, `params.require`). Inside one transaction the
   *  permitted columns are cast, assigned and saved, or the issue is touched
   *  when there are none, and then each date key's entry is saved. Saving
   *  validates first (422), then writes under the client's lock version
   *  (409 when stale), and only a write that reaches the row can be refused
   *  for a NULL in a NOT NULL column (500); each failure rolls everything
   *  back. On commit the registry records of the URL's project and the
   *  global one are touched, and the answer is 200, or 422 when some key was
   *  ignored for lack of permission. */
  method BulkUpdateIssue(db: Database, actor: Actor, urlProject: ProjectId, id: IssueId, lock: Option<int>,
                         attrs: seq<Attribute>, validate: Issue -> bool, at: Time) returns (response: RowResponse)
    requires db.Valid() && DistinctKeys(attrs)
    modifies db, db.registry
    ensures response == NotFound <==> FindIssue(old(db.issues), id).None?
    ensures response == Forbidden <==> FindIssue(old(db.issues), id).Some? && id !in actor.editableIssues
    ensures response == MissingLockVersion <==> FindIssue(old(db.issues), id).Some? && id in actor.editableIssues && lock.None?
    ensures response == MissingAttributes <==> FindIssue(old(db.issues), id).Some? && id in actor.editableIssues && lock.Some? && attrs == []
    ensures response.Status() == BAD_REQUEST <==> FindIssue(old(db.issues), id).Some? && id in actor.editableIssues && (lock.None? || attrs == [])
    ensures !response.Done? ==> db.State() == old(db.State())
    ensures db.Valid()
    ensures old(Accurate(db.personTotals, db.entries, db.issues)) ==> Accurate(db.personTotals, db.entries, db.issues)
    ensures response.Stale? || response.Done? ==> response.ignoredByPermission == Ignored(actor, id, attrs)
    ensures response.Status() == OK <==> response.Done? && Ignored(actor, id, attrs) == []
    ensures FindIssue(old(db.issues), id).Some? && id in actor.editableIssues && lock.Some? && attrs != [] ==>
      var k := FindIssue(old(db.issues), id).value;
      RowAnswered(response, actor, attrs, old(db.issues[k]), lock.value, validate, db.issues, k)
    ensures response.Done? ==> Last(db.registry.records, Some(urlProject)) == Some(at) && Last(db.registry.records, None) == Some(at)
    ensures response.Done? ==> var days := Filter(attrs, IsDateAttr);
      && (forall i :: 0 <= i < |days| ==> days[i].0 in response.results && ReportsStored(response.results[days[i].0], days[i].1))
      && (days != [] ==> Settled(db.issues, db.projects, db.entries, id))
  {
    var f := FindIssue(db.issues, id);
    var refusal := Refusal(f.Some?, id in actor.editableIssues, lock, attrs);
    if refusal.Some? {
      return refusal.value;
    }
    response := UpdateRow(db, actor, urlProject, f.value, lock.value, attrs, validate, at);
  }
}
