/** Rows of the server's tables as the plugin sees them, the values a JSON
 *  request carries, and the signed-in user's permissions. Redmine's own
 *  columns that the plugin neither reads nor writes are kept in an opaque
 *  field map on the issue. */
module Schema {
  import opened Optional
  import opened Hundredths
  import opened Calendar
  import opened Text

  type IssueId = nat
  type UserId = int
  type ProjectId = nat
  type VersionId = nat
  type TrackerId = int
  /** A point in time (`Time.current`), as a count of clock ticks. */
  type Time = int

  /** A value decoded from a JSON request body. */
  datatype Value = Null | Num(d: Decimal) | Text(s: string)

  /** Rails' cast of a request value to a decimal column: null and blank
   *  text are nil; other text, which the client only sends when it is not
   *  a number, reads as zero (`to_d` of a numeric prefix is not modelled). */
  function AsDecimal(v: Value): (r: Option<Decimal>)
    ensures v.Num? ==> r == Some(v.d)
    ensures v.Null? ==> r.None?
    ensures v.Text? ==> (r.None? <==> IsBlank(v.s))
    ensures v.Text? && r.Some? ==> r.value.units == 0
  {
    match v
    case Null => None
    case Num(d) => Some(d)
    case Text(s) => if IsBlank(s) then None else Some(Decimal(0, 0))
  }

  /** Ruby's `to_i` on an integer request parameter: nil reads as zero. */
  function ToI(v: Option<int>): (r: int)
    ensures v.Some? ==> r == v.value
    ensures v.None? ==> r == 0
  {
    if v.None? then 0 else v.value
  }

  /** A row of `issues`. Effort columns are hundredths; `check_days`,
   *  `assigned_to_id` and `color_id` are nullable columns. `fields` holds
   *  Redmine's other columns by name, never one of the columns above.
   *  `nilColumns` names the `NOT NULL` columns that an assignment set to nil
   *  in the record in memory; a row read from the table holds none. */
  datatype Issue = Issue(
    id: IssueId,
    project: ProjectId,
    tracker: TrackerId,
    subject: string,
    assignee: Option<UserId>,
    estimatedDays: int,
    scheduleDays: int,
    checkDays: Option<int>,
    colorId: Option<int>,
    lockVersion: int,
    fields: map<string, Value>,
    nilColumns: set<string>)

  /** A row of `projects` with the plugin's columns; `nilColumns` as for an
   *  issue. */
  datatype Project = Project(
    id: ProjectId,
    identifier: string,
    trackers: seq<TrackerId>,
    estimatedDays: int,
    scheduleDays: int,
    checkDays: Option<int>,
    projectStartDate: Option<Date>,
    endDate: Option<Date>,
    nilColumns: set<string>)

  /** A row of `versions` (a milestone) with the plugin's start-date column.
   *  Redmine requires every version to belong to a project. */
  datatype Version = Version(
    id: VersionId,
    project: ProjectId,
    versionStartDate: Option<Date>,
    effectiveDate: Option<Date>)

  /** A row of `issue_daily_schedules`: planned effort of one issue on one day. */
  datatype Entry = Entry(issue: IssueId, date: Date, manDays: int)

  datatype Permission = EditProject | AddIssues | ManageVersions

  /** What Redmine answers about the signed-in user (`User.current`):
   *  `issue.editable?`, `issue.deletable?`, `issue.attributes_editable?`,
   *  `user.allowed_to?(permission, project)` and the core safe attribute
   *  names. These are Redmine's own rules and are data here. */
  datatype Actor = Actor(
    id: UserId,
    editableIssues: set<IssueId>,
    deletableIssues: set<IssueId>,
    attributesEditable: set<IssueId>,
    coreSafeAttributes: set<string>,
    grants: set<(Permission, ProjectId)>)

  predicate AllowedTo(actor: Actor, permission: Permission, project: ProjectId)
  {
    (permission, project) in actor.grants
  }

  /** The issue columns the plugin declares safe. */
  const PLUGIN_ISSUE_ATTRIBUTES: set<string> := {"estimated_days", "schedule_days", "check_days", "color_id"}

  /** `issue.safe_attribute_names(user)`: Redmine's own names plus the
   *  plugin's four, which are safe only for a new issue or when the user may
   *  edit the issue's attributes. */
  function IssueSafeAttributeNames(actor: Actor, issue: IssueId, isNew: bool): (names: set<string>)
    ensures PLUGIN_ISSUE_ATTRIBUTES <= names <==> (isNew || issue in actor.attributesEditable || PLUGIN_ISSUE_ATTRIBUTES <= actor.coreSafeAttributes)
    ensures actor.coreSafeAttributes <= names
  {
    actor.coreSafeAttributes + (if isNew || issue in actor.attributesEditable then PLUGIN_ISSUE_ATTRIBUTES else {})
  }

  /** The columns of `issues` a request can assign, by their type: the
   *  plugin's columns as its migrations declare them, Redmine's as its own
   *  schema does. */
  const DECIMAL_COLUMNS: set<string> := {"estimated_days", "schedule_days", "check_days"}
  const INTEGER_COLUMNS: set<string> :=
    {"tracker_id", "assigned_to_id", "color_id", "category_id", "status_id", "priority_id", "fixed_version_id", "done_ratio"}
  const TEXT_COLUMNS: set<string> := {"subject", "description"}
  /** The assignable columns declared `NOT NULL`. */
  const NOT_NULL_COLUMNS: set<string> :=
    {"tracker_id", "subject", "estimated_days", "schedule_days", "status_id", "priority_id", "done_ratio"}
  /** The key columns, which this model never assigns from a request. */
  const KEY_COLUMNS: set<string> := {"id", "project_id", "lock_version"}

  /** A value of the column's type: a decimal column holds nil or a number,
   *  an integer column nil or a whole number, a text column nil or text.
   *  Other columns are not typed here. */
  predicate WellTyped(key: string, v: Value)
    ensures v.Null? ==> WellTyped(key, v)
    ensures key !in DECIMAL_COLUMNS && key !in INTEGER_COLUMNS && key !in TEXT_COLUMNS ==> WellTyped(key, v)
    ensures WellTyped(key, v) && key in DECIMAL_COLUMNS ==> v.Null? || v.Num?
    ensures WellTyped(key, v) && key in INTEGER_COLUMNS ==> v.Null? || (v.Num? && v.d.scale == 0)
    ensures WellTyped(key, v) && key in TEXT_COLUMNS ==> v.Null? || v.Text?
  {
    && (key in DECIMAL_COLUMNS ==> !v.Text?)
    && (key in INTEGER_COLUMNS ==> v.Null? || (v.Num? && v.d.scale == 0))
    && (key in TEXT_COLUMNS ==> !v.Num?)
  }

  /** Whole-number division of a magnitude by a positive divisor. */
  function Quotient(m: nat, p: nat): (q: nat)
    requires p >= 1
    ensures q * p <= m < (q + 1) * p
    ensures p == 1 ==> q == m
  {
    var q, rem := m / p, m % p;
    assert m == q * p + rem;
    assert (q + 1) * p == q * p + p;
    q
  }

  /** A decimal cut toward zero to a whole number (Ruby's `to_i` of a
   *  number). */
  function Truncated(d: Decimal): (n: int)
    ensures Abs(n) * Pow10(d.scale) <= Abs(d.units) < (Abs(n) + 1) * Pow10(d.scale)
    ensures (d.units >= 0 ==> n >= 0) && (d.units <= 0 ==> n <= 0)
    ensures d.scale == 0 ==> n == d.units
  {
    var q: int := Quotient(Abs(d.units), Pow10(d.scale));
    if d.units >= 0 then q else -q
  }

  /** Rails' cast of a request value to an integer column: null and blank
   *  text are nil, other text is read by `to_i`, and a number is cut toward
   *  zero. */
  function AsInteger(v: Value): (r: Option<int>)
    ensures v.Null? ==> r.None?
    ensures v.Num? ==> r == Some(Truncated(v.d))
    ensures v.Text? ==> (r.None? <==> IsBlank(v.s))
    ensures v.Text? && r.Some? ==> r.value == RubyToI(v.s)
  {
    match v
    case Null => None
    case Num(d) => Some(Truncated(d))
    case Text(s) => if IsBlank(s) then None else Some(RubyToI(s))
  }

  /** Ruby's `to_s` of a number decoded from JSON: a whole number prints its
   *  digits; a number written with a fraction (a `Float`) prints its digits
   *  with the trailing zeros of the fraction dropped, keeping at least one. */
  function NumberText(d: Decimal): (t: string)
    ensures d.scale == 0 ==> t == IntText(d.units)
    ensures |t| >= 1
    decreases d.scale
  {
    if d.scale == 0 then IntText(d.units)
    else if d.units % 10 == 0 then
      if d.scale == 1 then IntText(d.units / 10) + ".0" else NumberText(Decimal(d.units / 10, d.scale - 1))
    else
      var p := Pow10(d.scale);
      var m := Abs(d.units);
      var q := Quotient(m, p);
      var frac := NatToString(m - q * p);
      var zeros := if |frac| < d.scale then d.scale - |frac| else 0;
      (if d.units < 0 then "-" else "") + NatToString(q) + "." + seq(zeros, _ => '0') + frac
  }

  /** Rails' cast of a request value to the column it is assigned to: a
   *  decimal column reads it as `AsDecimal`, an integer column as
   *  `AsInteger`, a text column prints a number with `to_s`; other columns
   *  keep the value as sent. */
  function CastValue(key: string, v: Value): (r: Value)
    ensures WellTyped(key, r)
    ensures v.Null? ==> r.Null?
    ensures WellTyped(key, v) ==> r == v
    ensures key in INTEGER_COLUMNS && v.Text? ==> (r.Null? <==> IsBlank(v.s)) && (r.Num? ==> r.d == Decimal(RubyToI(v.s), 0))
    ensures key in INTEGER_COLUMNS && v.Num? ==> r == Num(Decimal(Truncated(v.d), 0))
    ensures key in DECIMAL_COLUMNS && v.Text? ==> (r.Null? <==> IsBlank(v.s))
    ensures key in TEXT_COLUMNS && v.Num? ==> r == Text(NumberText(v.d))
  {
    if key in DECIMAL_COLUMNS then
      var d := AsDecimal(v);
      if d.None? then Null else Num(d.value)
    else if key in INTEGER_COLUMNS then
      var n := AsInteger(v);
      if n.None? then Null else Num(Decimal(n.value, 0))
    else if key in TEXT_COLUMNS && v.Num? then Text(NumberText(v.d))
    else v
  }

  /** Assigning one cast request attribute to an issue (`issue.safe_attributes =`
   *  for a single key). Nil in a `NOT NULL` column is held in memory until
   *  the row is written; the effort columns are rounded to hundredths as a
   *  `decimal(5,2)` column stores them. */
  function Assign(issue: Issue, key: string, v: Value): (r: Issue)
    requires WellTyped(key, v)
    ensures r.id == issue.id && r.project == issue.project && r.lockVersion == issue.lockVersion
    ensures key != "assigned_to_id" ==> r.assignee == issue.assignee
    ensures key != "estimated_days" ==> r.estimatedDays == issue.estimatedDays
    ensures key != "schedule_days" ==> r.scheduleDays == issue.scheduleDays
    ensures key != "check_days" ==> r.checkDays == issue.checkDays
    ensures key !in KEY_COLUMNS ==> (key in r.nilColumns <==> key in NOT_NULL_COLUMNS && v.Null?)
    ensures forall c :: c != key ==> (c in r.nilColumns <==> c in issue.nilColumns)
  {
    if key in KEY_COLUMNS then issue
    else if key in NOT_NULL_COLUMNS && v.Null? then issue.(nilColumns := issue.nilColumns + {key})
    else
      var i := issue.(nilColumns := issue.nilColumns - {key});
      match key
      case "estimated_days" => i.(estimatedDays := Round2(v.d))
      case "schedule_days" => i.(scheduleDays := Round2(v.d))
      case "check_days" => i.(checkDays := if v.Null? then None else Some(Round2(v.d)))
      case "assigned_to_id" => i.(assignee := if v.Null? then None else Some(v.d.units))
      case "color_id" => i.(colorId := if v.Null? then None else Some(v.d.units))
      case "tracker_id" => i.(tracker := v.d.units)
      case "subject" => i.(subject := v.s)
      case _ => i.(fields := if v.Null? then i.fields - {key} else i.fields[key := v])
  }

  function AssignAll(issue: Issue, attrs: seq<(string, Value)>): (r: Issue)
    requires forall i :: 0 <= i < |attrs| ==> WellTyped(attrs[i].0, attrs[i].1)
    ensures r.id == issue.id && r.project == issue.project && r.lockVersion == issue.lockVersion
    decreases |attrs|
  {
    if attrs == [] then issue else AssignAll(Assign(issue, attrs[0].0, attrs[0].1), attrs[1..])
  }

  /** Reading an attribute back (`issue.public_send(k)`), as the response
   *  reports it: nil for a column the record holds nil in. */
  function ReadAttribute(issue: Issue, key: string): (r: Value)
    ensures key in issue.nilColumns ==> r.Null?
    ensures key in DECIMAL_COLUMNS + INTEGER_COLUMNS - {"category_id", "status_id", "priority_id", "fixed_version_id", "done_ratio"}
            ==> WellTyped(key, r)
    ensures key in KEY_COLUMNS && key !in issue.nilColumns ==> r.Num?
  {
    if key in issue.nilColumns then Null
    else match key
      case "id" => Num(Decimal(issue.id, 0))
      case "project_id" => Num(Decimal(issue.project, 0))
      case "lock_version" => Num(Decimal(issue.lockVersion, 0))
      case "estimated_days" => Num(Decimal(issue.estimatedDays, 2))
      case "schedule_days" => Num(Decimal(issue.scheduleDays, 2))
      case "check_days" => if issue.checkDays.None? then Null else Num(Decimal(issue.checkDays.value, 2))
      case "assigned_to_id" => if issue.assignee.None? then Null else Num(Decimal(issue.assignee.value, 0))
      case "color_id" => if issue.colorId.None? then Null else Num(Decimal(issue.colorId.value, 0))
      case "tracker_id" => Num(Decimal(issue.tracker, 0))
      case "subject" => Text(issue.subject)
      case _ => if key in issue.fields then issue.fields[key] else Null
  }

  /** A cast request value as its column stores it: effort rounded to
   *  hundredths, every other value as cast. */
  function AsStored(key: string, v: Value): Value
    requires WellTyped(key, v)
  {
    if v.Num? && key in DECIMAL_COLUMNS then Num(Decimal(Round2(v.d), 2)) else v
  }

  /** What a select editor sends for an integer column: the chosen id as
   *  its decimal text, or an empty string for "none". Rails reads the first
   *  as that id and the second as nil. */
  lemma SelectEditorCast(key: string, n: int)
    requires key in INTEGER_COLUMNS
    ensures CastValue(key, Text(IntText(n))) == Num(Decimal(n, 0))
    ensures CastValue(key, Text("")) == Null
  {
    IntTextRoundTrip(n);
    assert !IsRubySpace(IntText(n)[0]);
    assert IsBlank("");
  }

  /** So assigning a user by id from the select editor works, and so does
   *  clearing the assignee. */
  lemma SelectEditorAssignee(issue: Issue, n: int)
    ensures Assign(issue, "assigned_to_id", CastValue("assigned_to_id", Text(IntText(n)))).assignee == Some(n)
    ensures Assign(issue, "assigned_to_id", CastValue("assigned_to_id", Text(""))).assignee == None
  {
    SelectEditorCast("assigned_to_id", n);
  }

  /** Reading an attribute back right after assigning it gives the value as
   *  its column stores it. */
  lemma AssignReadBack(issue: Issue, key: string, v: Value)
    requires WellTyped(key, v) && key !in KEY_COLUMNS
    ensures ReadAttribute(Assign(issue, key, v), key) == AsStored(key, v)
  {
  }

  /** Assigning one attribute leaves every other attribute as it reads. */
  lemma AssignLeavesOthers(issue: Issue, key: string, v: Value, other: string)
    requires WellTyped(key, v) && other != key
    ensures ReadAttribute(Assign(issue, key, v), other) == ReadAttribute(issue, other)
  {
  }

  /** Assigning a list of attributes leaves every attribute it does not
   *  name as it was. */
  lemma {:induction false} AssignAllOthers(issue: Issue, attrs: seq<(string, Value)>, other: string)
    requires forall i :: 0 <= i < |attrs| ==> WellTyped(attrs[i].0, attrs[i].1)
    requires forall i :: 0 <= i < |attrs| ==> attrs[i].0 != other
    ensures ReadAttribute(AssignAll(issue, attrs), other) == ReadAttribute(issue, other)
    decreases |attrs|
  {
    if attrs != [] {
      AssignLeavesOthers(issue, attrs[0].0, attrs[0].1, other);
      AssignAllOthers(Assign(issue, attrs[0].0, attrs[0].1), attrs[1..], other);
    }
  }

  /** With distinct keys, each assigned attribute reads back as its column
   *  stores the value sent for it. */
  lemma {:induction false} AssignAllReadBack(issue: Issue, attrs: seq<(string, Value)>, k: nat)
    requires forall i :: 0 <= i < |attrs| ==> WellTyped(attrs[i].0, attrs[i].1)
    requires forall i, j :: 0 <= i < j < |attrs| ==> attrs[i].0 != attrs[j].0
    requires k < |attrs| && attrs[k].0 !in KEY_COLUMNS
    ensures ReadAttribute(AssignAll(issue, attrs), attrs[k].0) == AsStored(attrs[k].0, attrs[k].1)
    decreases |attrs|
  {
    var next := Assign(issue, attrs[0].0, attrs[0].1);
    if k == 0 {
      AssignReadBack(issue, attrs[0].0, attrs[0].1);
      AssignAllOthers(next, attrs[1..], attrs[0].0);
    } else {
      AssignAllReadBack(next, attrs[1..], k - 1);
    }
  }
}
