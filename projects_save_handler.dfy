/** `ProjectsSaveHandler`: after the estimate of a project-control row is
 *  edited, one request per edited row sends the project's id and the
 *  row's estimate; a successful answer writes back the reported values
 *  and reloads the chart. */
module ProjectsSaveHandler {
  import opened Optional
  import opened Text
  import opened Js
  import opened Grid
  import opened Hundredths
  import IssuesSaveHandler

  /** One entry of `changes`, as the issue handler receives it too. */
  type Change = IssuesSaveHandler.Change

  /** The largest project estimate the client accepts, 99999.99, in
   *  hundredths. */
  const MAX_PROJECT_DAYS: int := 9999999

  /** `isValid(column, newValue)`, where `n` is `Number(s)`: only the
   *  estimate can be edited, and it passes the amount checks with the
   *  project cap; any other column is refused. */
  predicate ProjectValid(column: string, newValue: JsValue, n: NumberReading)
    ensures ProjectValid(column, newValue, n) ==>
      && column == "estimated_days"
      && Trim(ToText(newValue)) != "" && !EndsWith(Trim(ToText(newValue)), ".")
      && n.Finite? && !Negative(n.value) && !Above(n.value, MAX_PROJECT_DAYS)
    ensures (&& column == "estimated_days"
             && Trim(ToText(newValue)) != "" && !EndsWith(Trim(ToText(newValue)), ".")
             && n.Finite? && !Negative(n.value) && !Above(n.value, MAX_PROJECT_DAYS))
            ==> ProjectValid(column, newValue, n)
  {
    column == "estimated_days" && IssuesSaveHandler.AmountAccepted(Trim(ToText(newValue)), n, MAX_PROJECT_DAYS)
  }

  /** The value checks of the loop: the new value differs from the old one
   *  and passes `isValid`. */
  predicate ProjectKept(c: Change)
  {
    !StrictEquals(c.oldValue, c.newValue) && ProjectValid(c.column, c.newValue, c.reading)
  }

  /** Only an edit of the estimate is ever kept, and only with a finite,
   *  non-negative amount of at most 99999.99 that does not end in `.`. */
  lemma KeptIsEstimate(c: Change)
    requires ProjectKept(c)
    ensures c.column == "estimated_days" && !StrictEquals(c.oldValue, c.newValue)
    ensures var s := Trim(ToText(c.newValue));
      s != [] && s[|s| - 1] != '.'
    ensures c.reading.Finite? && !Negative(c.reading.value) && !Above(c.reading.value, MAX_PROJECT_DAYS)
  {
  }

  /** `rowMap`'s value for one row: the project's id and the row's
   *  estimate, read from the grid when the row is first seen. */
  datatype ProjectBucket = ProjectBucket(row: int, projectId: JsValue, estimatedDays: JsValue)

  /** `rowMap.has(row)`. */
  predicate Opened(buckets: seq<ProjectBucket>, row: int)
  {
    buckets != [] && (buckets[|buckets| - 1].row == row || Opened(buckets[..|buckets| - 1], row))
  }

  /** `row` has a bucket in `buckets`. */
  lemma {:induction false} OpenedMeans(buckets: seq<ProjectBucket>, row: int)
    ensures Opened(buckets, row) <==> exists i :: 0 <= i < |buckets| && buckets[i].row == row
  {
    if buckets != [] {
      var n := |buckets| - 1;
      OpenedMeans(buckets[..n], row);
      if exists i :: 0 <= i < n && buckets[..n][i].row == row {
        var i :| 0 <= i < n && buckets[..n][i].row == row;
        assert buckets[i].row == row;
      }
      if exists i :: 0 <= i < |buckets| && buckets[i].row == row {
        var i :| 0 <= i < |buckets| && buckets[i].row == row;
        if i < n {
          assert buckets[..n][i].row == row;
        }
      }
    }
  }

  /** The change is past the skips: a column the client may edit and a
   *  value that passes the value checks `keep` (`ProjectKept` in the
   *  handler). */
  predicate Passes(keep: Change -> bool, c: Change)
  {
    !IssuesSaveHandler.Computed(c.column) && keep(c)
  }

  /** The change makes the whole handler return: it passes the skips and
   *  its row carries an issue id, so it is an issue row. */
  predicate Stops(grid: seq<Row>, keep: Change -> bool, c: Change)
  {
    Passes(keep, c) && !IsNullish(DataAt(grid, c.row, "id"))
  }

  /** One pass of the loop over `changes`; `None` is the `return` at an
   *  issue row. */
  function Step(grid: seq<Row>, buckets: seq<ProjectBucket>, c: Change, keep: Change -> bool): Option<seq<ProjectBucket>>
  {
    if !Passes(keep, c) then Some(buckets)
    else if !IsNullish(DataAt(grid, c.row, "id")) then None
    else if Opened(buckets, c.row) then Some(buckets)
    else Some(buckets + [ProjectBucket(c.row, DataAt(grid, c.row, "project_id"), DataAt(grid, c.row, "estimated_days"))])
  }

  /** The buckets after the whole loop, `None` when it returned early. */
  function Collect(grid: seq<Row>, changes: seq<Change>, keep: Change -> bool): Option<seq<ProjectBucket>>
  {
    if changes == [] then Some([])
    else
      var prev := Collect(grid, changes[..|changes| - 1], keep);
      if prev.None? then None else Step(grid, prev.value, changes[|changes| - 1], keep)
  }

  /** What `handleAfterChange` ends in. */
  datatype ProjectOutcome =
    | Skipped          // no changes, or a source that is not saved
    | Stopped          // a change on an issue row
    | Unchanged        // every change was skipped
    | SendRows(buckets: seq<ProjectBucket>)

  /** The outcome the handler reaches with the value checks `keep`. */
  function Outcome(grid: seq<Row>, changes: Option<seq<Change>>, source: string, keep: Change -> bool): ProjectOutcome
  {
    if changes.None? || source in IssuesSaveHandler.IGNORED_SOURCES then Skipped
    else
      match Collect(grid, changes.value, keep)
      case None => Stopped
      case Some(buckets) => if buckets == [] then Unchanged else SendRows(buckets)
  }

  /** The outcome `handleAfterChange(changes, source)` reaches. */
  function AfterChange(grid: seq<Row>, changes: Option<seq<Change>>, source: string): ProjectOutcome
  {
    Outcome(grid, changes, source, ProjectKept)
  }

  /** One pass of the loop over `changes`: `stopped` is its `return`,
   *  otherwise the row's bucket is opened if the change passes. */
  method Record(grid: seq<Row>, rowMap0: seq<ProjectBucket>, c: Change, keep: Change -> bool) returns (stopped: bool, rowMap: seq<ProjectBucket>)
    ensures stopped <==> Step(grid, rowMap0, c, keep).None?
    ensures !stopped ==> Step(grid, rowMap0, c, keep) == Some(rowMap)
  {
    rowMap := rowMap0;
    stopped := false;
    if c.column == "lock_version" || c.column == "schedule_days" || c.column == "check_days" {
      return;
    }
    if !keep(c) {
      return;
    }
    if DataAt(grid, c.row, "id") != Null && DataAt(grid, c.row, "id") != Undefined {
      return true, rowMap;
    }
    if !Opened(rowMap, c.row) {
      rowMap := rowMap + [ProjectBucket(c.row, DataAt(grid, c.row, "project_id"), DataAt(grid, c.row, "estimated_days"))];
    }
  }

  /** `handleAfterChange(changes, source)` up to the requests: the loop that
   *  collects the edited project rows. */
  method HandleAfterChange(grid: seq<Row>, changes: Option<seq<Change>>, source: string) returns (outcome: ProjectOutcome)
    ensures outcome == AfterChange(grid, changes, source)
  {
    outcome := Handle(grid, changes, source, ProjectKept);
  }

  /** The handler with the value checks `keep`. */
  method Handle(grid: seq<Row>, changes: Option<seq<Change>>, source: string, keep: Change -> bool) returns (outcome: ProjectOutcome)
    ensures outcome == Outcome(grid, changes, source, keep)
  {
    if changes.None? || source == "loadData" || source == "copy" || source == "MergeCells" || source == IssuesSaveHandler.SERVER_VALUE {
      return Skipped;
    }
    var cs := changes.value;
    var rowMap: seq<ProjectBucket> := [];
    for i := 0 to |cs|
      invariant Collect(grid, cs[..i], keep) == Some(rowMap)
    {
      assert cs[..i + 1][..i] == cs[..i];
      var stopped;
      stopped, rowMap := Record(grid, rowMap, cs[i], keep);
      if stopped {
        StopIsFinal(grid, cs, keep, i + 1);
        return Stopped;
      }
    }
    assert cs[..|cs|] == cs;
    if |rowMap| == 0 {
      return Unchanged;
    }
    return SendRows(rowMap);
  }

  /** Once the loop has returned, no later change revives it. */
  lemma {:induction false} StopIsFinal(grid: seq<Row>, changes: seq<Change>, keep: Change -> bool, i: nat)
    requires i <= |changes| && Collect(grid, changes[..i], keep).None?
    ensures Collect(grid, changes, keep).None?
    decreases |changes| - i
  {
    if i < |changes| {
      assert changes[..i + 1][..i] == changes[..i];
      StopIsFinal(grid, changes, keep, i + 1);
    } else {
      assert changes[..i] == changes;
    }
  }

  /** The loop returns early exactly when some change that passes the
   *  skips is on an issue row, wherever that change comes. */
  lemma {:induction false} StopsExactly(grid: seq<Row>, changes: seq<Change>, keep: Change -> bool)
    ensures Collect(grid, changes, keep).None? <==> exists i :: 0 <= i < |changes| && Stops(grid, keep, changes[i])
  {
    if changes != [] {
      var n := |changes| - 1;
      StopsExactly(grid, changes[..n], keep);
      if exists i :: 0 <= i < n && Stops(grid, keep, changes[..n][i]) {
        var i :| 0 <= i < n && Stops(grid, keep, changes[..n][i]);
        assert changes[i] == changes[..n][i];
      }
      if exists i :: 0 <= i < |changes| && Stops(grid, keep, changes[i]) {
        var i :| 0 <= i < |changes| && Stops(grid, keep, changes[i]);
        if i < n {
          assert changes[..n][i] == changes[i];
        }
      }
    }
  }

  /** Some change in `changes` passes the skips on `row`. */
  ghost predicate Edited(keep: Change -> bool, changes: seq<Change>, row: int)
  {
    exists j :: 0 <= j < |changes| && Passes(keep, changes[j]) && changes[j].row == row
  }

  /** Every bucket belongs to a different row and carries the project id
   *  and the estimate the grid holds for that row; a row has a bucket
   *  exactly when a change to it passes the skips. */
  lemma {:induction false} BucketsOfEditedRows(grid: seq<Row>, changes: seq<Change>, keep: Change -> bool, row: int)
    requires Collect(grid, changes, keep).Some?
    ensures var buckets := Collect(grid, changes, keep).value;
      && (forall i, j :: 0 <= i < j < |buckets| ==> buckets[i].row != buckets[j].row)
      && (forall i :: 0 <= i < |buckets| ==>
            buckets[i].projectId == DataAt(grid, buckets[i].row, "project_id")
            && buckets[i].estimatedDays == DataAt(grid, buckets[i].row, "estimated_days"))
      && (Opened(buckets, row) <==> Edited(keep, changes, row))
  {
    if changes != [] {
      var n := |changes| - 1;
      var c := changes[n];
      BucketsOfEditedRows(grid, changes[..n], keep, row);
      EditedLast(keep, changes, row);
      var prev := Collect(grid, changes[..n], keep).value;
      if Passes(keep, c) && !Opened(prev, c.row) {
        var next := Collect(grid, changes, keep).value;
        OpenedMeans(prev, row);
        OpenedMeans(next, row);
        OpenedMeans(prev, c.row);
        assert next == prev + [ProjectBucket(c.row, DataAt(grid, c.row, "project_id"), DataAt(grid, c.row, "estimated_days"))];
        if Opened(next, row) {
          var i :| 0 <= i < |next| && next[i].row == row;
          if i < |prev| {
            assert Opened(prev, row);
          }
        }
        if Opened(prev, row) {
          var i :| 0 <= i < |prev| && prev[i].row == row;
          assert next[i].row == row;
        }
        if c.row == row {
          assert next[|prev|].row == row;
        }
      }
    }
  }

  lemma EditedLast(keep: Change -> bool, changes: seq<Change>, row: int)
    requires changes != []
    ensures var n := |changes| - 1;
      Edited(keep, changes, row) <==> Edited(keep, changes[..n], row) || (Passes(keep, changes[n]) && changes[n].row == row)
  {
    var n := |changes| - 1;
    if Edited(keep, changes[..n], row) {
      var j :| 0 <= j < n && Passes(keep, changes[..n][j]) && changes[..n][j].row == row;
      assert changes[j] == changes[..n][j];
    }
    if Edited(keep, changes, row) {
      var j :| 0 <= j < |changes| && Passes(keep, changes[j]) && changes[j].row == row;
      if j < n {
        assert changes[..n][j] == changes[j];
      }
    }
  }

  /** The body of one request. */
  datatype ProjectPayload = ProjectPayload(id: JsValue, estimatedDays: JsValue)

  /** The write-back sets whatever `ok` result the server reports. */
  predicate AnyColumn(column: string)
  {
    true
  }

  /** The bodies of the requests, one per bucket in order: the project's
   *  id and the row's estimate. */
  function Payloads(buckets: seq<ProjectBucket>): (ps: seq<ProjectPayload>)
    ensures |ps| == |buckets|
    ensures forall i :: 0 <= i < |buckets| ==> ps[i] == ProjectPayload(buckets[i].projectId, buckets[i].estimatedDays)
  {
    if buckets == [] then []
    else
      var n := |buckets| - 1;
      Payloads(buckets[..n]) + [ProjectPayload(buckets[n].projectId, buckets[n].estimatedDays)]
  }

  /** The writes one response leads to. */
  function ResponseWrites(row: int, response: Response): seq<Update>
  {
    if response.Answered? && response.results.Some? then WriteBacks(row, response.results.value, AnyColumn) else []
  }

  /** The `setDataAtRowProp` calls the responses lead to, in bucket order. */
  function ProjectWrites(buckets: seq<ProjectBucket>, responses: seq<Response>): seq<Update>
    requires |responses| == |buckets|
  {
    if buckets == [] then []
    else
      var n := |buckets| - 1;
      ProjectWrites(buckets[..n], responses[..n]) + ResponseWrites(buckets[n].row, responses[n])
  }

  /** How many requests succeeded: each success reloads the chart. */
  function Successes(responses: seq<Response>): (k: nat)
    ensures k <= |responses|
  {
    if responses == [] then 0
    else Successes(responses[..|responses| - 1]) + (if responses[|responses| - 1].Answered? then 1 else 0)
  }

  /** The asynchronous part: one request per bucket, in order; a success
   *  writes back its results and reloads the chart, a failure is only
   *  reported. `responses[i]` is what request `i` gets. */
  method SaveRows(buckets: seq<ProjectBucket>, responses: seq<Response>)
    returns (payloads: seq<ProjectPayload>, writes: seq<Update>, reloads: nat)
    requires |responses| == |buckets|
    ensures payloads == Payloads(buckets)
    ensures writes == ProjectWrites(buckets, responses)
    ensures reloads == Successes(responses)
  {
    payloads, writes, reloads := [], [], 0;
    for i := 0 to |buckets|
      invariant payloads == Payloads(buckets[..i])
      invariant writes == ProjectWrites(buckets[..i], responses[..i])
      invariant reloads == Successes(responses[..i])
    {
      assert buckets[..i + 1][..i] == buckets[..i] && responses[..i + 1][..i] == responses[..i];
      var bucket := buckets[i];
      payloads := payloads + [ProjectPayload(bucket.projectId, bucket.estimatedDays)];
      var updates, succeeded := Send(bucket, responses[i]);
      writes := writes + updates;
      if succeeded {
        reloads := reloads + 1;
      }
    }
    assert buckets[..|buckets|] == buckets && responses[..|responses|] == responses;
  }

  /** One request's answer: on success the write-back, then the reload. */
  method Send(bucket: ProjectBucket, response: Response) returns (updates: seq<Update>, succeeded: bool)
    ensures updates == ResponseWrites(bucket.row, response)
    ensures succeeded <==> response.Answered?
  {
    updates, succeeded := [], false;
    if response.Failed? {
      return;
    }
    if response.results.Some? {
      updates := WriteResults(bucket.row, response.results.value);
    }
    succeeded := true;
  }

  /** The `batch` callback: one `setDataAtRowProp` per `ok` result. */
  method WriteResults(row: int, entries: seq<(string, ResultEntry)>) returns (updates: seq<Update>)
    ensures updates == WriteBacks(row, entries, AnyColumn)
  {
    updates := [];
    for j := 0 to |entries|
      invariant updates == WriteBacks(row, entries[..j], AnyColumn)
    {
      assert entries[..j + 1][..j] == entries[..j];
      var (k, r) := entries[j];
      if r.Entry? && Truthy(Get(r.fields, "ok")) {
        updates := updates + [Update(row, k, Get(r.fields, "value"))];
      }
    }
    assert entries[..|entries|] == entries;
  }

  /** The server answers with bare values (the new estimate and check
   *  value), never with `{ok, value}` objects, so the write-back writes
   *  nothing: the reload is what shows the new figures. */
  lemma {:induction false} BareResultsWriteNothing(row: int, results: seq<(string, ResultEntry)>)
    requires forall i :: 0 <= i < |results| ==> results[i].1.Bare?
    ensures WriteBacks(row, results, AnyColumn) == []
  {
    if results != [] {
      var n := |results| - 1;
      assert forall i :: 0 <= i < n ==> results[..n][i] == results[i];
      BareResultsWriteNothing(row, results[..n]);
    }
  }
}
