/** `UserTotalDaysGenerator#generate`: the footer grid of per-person daily
 *  totals, one tally row per user with each stored total written under its
 *  date key. */
module UserTotalDaysGenerator {
  import opened Hundredths
  import opened Js
  import opened Grid

  /** One `user_daily_schedules` record of the payload. */
  datatype DailyTotal = DailyTotal(userId: JsValue, scheduleDate: JsValue, totalManDays: JsValue)

  /** The property a total is written under: `row[schedule.schedule_date]`. */
  function DateProp(t: DailyTotal): string
  {
    ToText(t.scheduleDate)
  }

  /** The literal each user's row starts from. */
  function TallyRow(user: Row): (row: Row)
    ensures Get(row, "assigned_to_id") == Get(user, "id")
    ensures Get(row, "id") == Null && Get(row, "project_id") == Null && Get(row, "lock_version") == Null
    ensures Get(row, "is_tally_row") == Bool(true)
  {
    map[
      "id" := Null, "project_id" := Null, "lock_version" := Null,
      "version_id" := Str("-"), "category_id" := Str("-"),
      "assigned_to_id" := Get(user, "id"),
      "subject" := Str("工数管理"), "description" := Str("1日の合計工数"),
      "done_ratio" := Str("-"), "is_tally_row" := Bool(true),
      "estimated_days" := Str("-"), "schedule_days" := Str("-"), "check_days" := Str("-")
    ]
  }

  function TallyRows(users: seq<Row>): (rows: seq<Row>)
    ensures |rows| == |users|
    ensures forall k :: 0 <= k < |users| ==> rows[k] == TallyRow(users[k])
  {
    seq(|users|, k requires 0 <= k < |users| => TallyRow(users[k]))
  }

  /** `rows.find(r => r.assigned_to_id === userId)`, as an index: the first
   *  row assigned to the user, or -1 when there is none. */
  function FirstRowOf(rows: seq<Row>, userId: JsValue): (k: int)
    ensures -1 <= k < |rows|
    ensures k >= 0 ==> StrictEquals(Get(rows[k], "assigned_to_id"), userId)
    ensures forall j :: 0 <= j < |rows| && (k == -1 || j < k) ==> !StrictEquals(Get(rows[j], "assigned_to_id"), userId)
  {
    if rows == [] then -1
    else
      var k := FirstRowOf(rows[..|rows| - 1], userId);
      if k >= 0 then k
      else if StrictEquals(Get(rows[|rows| - 1], "assigned_to_id"), userId) then |rows| - 1
      else -1
  }

  /** One `forEach` step: the total lands in its user's first row, or
   *  nowhere. */
  function MergeTotal(rows: seq<Row>, t: DailyTotal): (r: seq<Row>)
    ensures |r| == |rows|
  {
    var k := FirstRowOf(rows, t.userId);
    if k < 0 then rows else rows[k := rows[k][DateProp(t) := t.totalManDays]]
  }

  /** All the totals, in payload order. */
  function MergeTotals(rows: seq<Row>, totals: seq<DailyTotal>): (r: seq<Row>)
    ensures |r| == |rows|
  {
    if totals == [] then rows else MergeTotal(MergeTotals(rows, totals[..|totals| - 1]), totals[|totals| - 1])
  }

  /** `generate()`: the users' rows, then the loop over the totals. */
  method Generate(allUsers: seq<Row>, userDailySchedules: seq<DailyTotal>) returns (rows: seq<Row>)
    ensures rows == MergeTotals(TallyRows(allUsers), userDailySchedules)
  {
    rows := TallyRows(allUsers);
    for i := 0 to |userDailySchedules|
      invariant rows == MergeTotals(TallyRows(allUsers), userDailySchedules[..i])
    {
      assert userDailySchedules[..i + 1][..i] == userDailySchedules[..i];
      var schedule := userDailySchedules[i];
      var k := FirstRowOf(rows, schedule.userId);
      if k >= 0 {
        rows := rows[k := rows[k][DateProp(schedule) := schedule.totalManDays]];
      }
    }
    assert userDailySchedules[..|userDailySchedules|] == userDailySchedules;
  }

  /** No total is filed under the user column itself. */
  ghost predicate DatesAvoidUserColumn(totals: seq<DailyTotal>)
  {
    forall i :: 0 <= i < |totals| ==> DateProp(totals[i]) != "assigned_to_id"
  }

  ghost predicate SameUsers(a: seq<Row>, b: seq<Row>)
  {
    |a| == |b| && forall k :: 0 <= k < |a| ==> Get(a[k], "assigned_to_id") == Get(b[k], "assigned_to_id")
  }

  lemma {:induction false} FirstRowOfSameUsers(a: seq<Row>, b: seq<Row>, userId: JsValue)
    requires SameUsers(a, b)
    ensures FirstRowOf(a, userId) == FirstRowOf(b, userId)
  {
    if a != [] {
      FirstRowOfSameUsers(a[..|a| - 1], b[..|b| - 1], userId);
    }
  }

  lemma {:induction false} MergeKeepsUsers(rows: seq<Row>, totals: seq<DailyTotal>)
    requires DatesAvoidUserColumn(totals)
    ensures SameUsers(MergeTotals(rows, totals), rows)
  {
    if totals != [] {
      MergeKeepsUsers(rows, totals[..|totals| - 1]);
    }
  }

  /** The index of the last total that lands in row `k` under property `d`,
   *  or -1 when none does. */
  function LastLanding(rows: seq<Row>, totals: seq<DailyTotal>, k: int, d: string): (i: int)
    ensures -1 <= i < |totals|
    ensures i >= 0 ==> FirstRowOf(rows, totals[i].userId) == k && DateProp(totals[i]) == d
    ensures forall j :: i < j < |totals| ==> !(FirstRowOf(rows, totals[j].userId) == k && DateProp(totals[j]) == d)
  {
    if totals == [] then -1
    else
      var t := totals[|totals| - 1];
      if FirstRowOf(rows, t.userId) == k && DateProp(t) == d then |totals| - 1
      else LastLanding(rows, totals[..|totals| - 1], k, d)
  }

  /** Every cell of the merged rows: the last total filed for the row's user
   *  under that property wins, a property no total names keeps the row's
   *  own value, and totals of users without a row are dropped. */
  lemma {:induction false} MergedCell(rows: seq<Row>, totals: seq<DailyTotal>, k: int, d: string)
    requires DatesAvoidUserColumn(totals) && 0 <= k < |rows|
    ensures var i := LastLanding(rows, totals, k, d);
      Get(MergeTotals(rows, totals)[k], d) == if i >= 0 then totals[i].totalManDays else Get(rows[k], d)
  {
    if totals != [] {
      var prefix := totals[..|totals| - 1];
      var t := totals[|totals| - 1];
      assert DatesAvoidUserColumn(prefix);
      MergedCell(rows, prefix, k, d);
      MergeKeepsUsers(rows, prefix);
      FirstRowOfSameUsers(MergeTotals(rows, prefix), rows, t.userId);
    }
  }

  /** A total whose user has no row changes nothing. */
  lemma UnknownUserIgnored(rows: seq<Row>, totals: seq<DailyTotal>, t: DailyTotal)
    requires DatesAvoidUserColumn(totals)
    requires FirstRowOf(rows, t.userId) == -1
    ensures MergeTotals(rows, totals + [t]) == MergeTotals(rows, totals)
  {
    assert (totals + [t])[..|totals|] == totals;
    MergeKeepsUsers(rows, totals);
    FirstRowOfSameUsers(MergeTotals(rows, totals), rows, t.userId);
  }

  /** A row that is not its user's first row, such as a second row for the
   *  same user, never receives a total. */
  lemma {:induction false} LaterRowUntouched(rows: seq<Row>, totals: seq<DailyTotal>, k: int)
    requires DatesAvoidUserColumn(totals) && 0 <= k < |rows|
    requires FirstRowOf(rows, Get(rows[k], "assigned_to_id")) != k
    ensures MergeTotals(rows, totals)[k] == rows[k]
  {
    if totals != [] {
      var prefix := totals[..|totals| - 1];
      var t := totals[|totals| - 1];
      assert DatesAvoidUserColumn(prefix);
      LaterRowUntouched(rows, prefix, k);
      MergeKeepsUsers(rows, prefix);
      FirstRowOfSameUsers(MergeTotals(rows, prefix), rows, t.userId);
      if FirstRowOf(rows, t.userId) == k {
        FirstRowMatches(rows, t.userId, k);
      }
    }
  }

  /** A row found for one user id is the first row of its own user id. */
  lemma FirstRowMatches(rows: seq<Row>, userId: JsValue, k: int)
    requires 0 <= k < |rows| && FirstRowOf(rows, userId) == k
    ensures FirstRowOf(rows, Get(rows[k], "assigned_to_id")) == k
  {
    var own := Get(rows[k], "assigned_to_id");
    var f := FirstRowOf(rows, own);
    StrictEqualsReflexive(own);
    if f < k {
      StrictEqualsTransitive(Get(rows[f], "assigned_to_id"), own, userId);
    }
  }

  lemma StrictEqualsReflexive(a: JsValue)
    ensures StrictEquals(a, a)
  {
  }

  lemma StrictEqualsTransitive(a: JsValue, b: JsValue, c: JsValue)
    requires StrictEquals(a, b) && StrictEquals(b, c)
    ensures StrictEquals(a, c)
  {
    if a.Number? && b.Number? && c.Number? {
      var pa, pb, pc := Pow10(a.n.scale), Pow10(b.n.scale), Pow10(c.n.scale);
      assert a.n.units * pb == b.n.units * pa;
      assert b.n.units * pc == c.n.units * pb;
      assert a.n.units * pc * pb == c.n.units * pa * pb by {
        calc {
          a.n.units * pc * pb;
          == (a.n.units * pb) * pc;
          == b.n.units * pa * pc;
          == (b.n.units * pc) * pa;
          == c.n.units * pb * pa;
        }
      }
      CancelPositive(a.n.units * pc, c.n.units * pa, pb);
    }
  }

  lemma CancelPositive(x: int, y: int, p: int)
    requires p > 0 && x * p == y * p
    ensures x == y
  {
  }
}
