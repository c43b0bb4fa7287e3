/** `IssuesSaveHandler`: after cells of issue rows are edited, the accepted
 *  changes are grouped per row into one request each (the issue's id, its
 *  `lock_version` and the changed attributes), and what the server reports
 *  back for non-date columns is written into the row. */
module IssuesSaveHandler {
  import opened Optional
  import opened Hundredths
  import opened Text
  import opened Js
  import opened Grid

  /** One entry of `changes`: `[row, column, oldValue, newValue]`, with the
   *  browser's `Number(String(newValue).trim())` alongside. */
  datatype Change = Change(row: int, column: string, oldValue: JsValue, newValue: JsValue, reading: NumberReading)

  /** The source tag the write-back passes to `setDataAtRowProp`. */
  const SERVER_VALUE: string := "server calculate value"

  /** The sources whose changes are not saved: the initial load, a row copy,
   *  a cell merge and the write-back itself. */
  const IGNORED_SOURCES: set<string> := {"loadData", "copy", "MergeCells", SERVER_VALUE}

  /** Columns the server computes; edits to them are never sent. */
  predicate Computed(column: string)
  {
    column == "lock_version" || column == "schedule_days" || column == "check_days"
  }

  /** The attribute an edit of `column` sets: the version column is sent as
   *  `fixed_version_id`. */
  function AttributeKey(column: string): (key: string)
    ensures key == "fixed_version_id" <==> column == "version_id" || column == "fixed_version_id"
    ensures key != "version_id"
    ensures Computed(key) <==> Computed(column)
  {
    if column == "version_id" then "fixed_version_id" else column
  }

  /** The amount checks of an effort cell, in code order: no trailing `.`,
   *  not empty, a finite number, at most `max / 100`, not negative. */
  predicate AmountAccepted(s: string, n: NumberReading, max: int)
  {
    if EndsWith(s, ".") then false
    else if s == "" then false
    else if !n.Finite? then false
    else if Above(n.value, max) then false
    else !Negative(n.value)
  }

  /** `isValid(column, newValue)`, where `n` is `Number(s)`. */
  predicate IsValid(column: string, newValue: JsValue, n: NumberReading)
    ensures IsValid(column, newValue, n) && column == "subject" ==>
      Trim(ToText(newValue)) != "" && Utf16Length(Trim(ToText(newValue))) <= 255
    ensures IsValid(column, newValue, n) && column == "estimated_days" ==>
      n.Finite? && !Negative(n.value) && !Above(n.value, MAX_MAN_DAYS)
    ensures column !in {"category_id", "assigned_to_id", "subject", "description", "estimated_days"} && !IsDateKey(column)
            ==> IsValid(column, newValue, n)
  {
    var s := Trim(ToText(newValue));
    if column == "category_id" && n.NotANumber? then false
    else if column == "assigned_to_id" && n.NotANumber? then false
    else if column == "subject" && (s == "" || Utf16Length(s) > 255) then false
    else if column == "description" && Utf16Length(s) > 255 then false
    else if column == "estimated_days" && !AmountAccepted(s, n, MAX_MAN_DAYS) then false
    else if IsDateKey(column) then s == "" || AmountAccepted(s, n, MAX_MAN_DAYS)
    else true
  }

  /** `rowMap`'s value for one row. */
  datatype Bucket = Bucket(row: int, id: JsValue, lockVersion: JsValue, attributes: Row)

  /** The value checks of the loop: the new value differs from the old
   *  one and passes `isValid`. */
  predicate Kept(c: Change)
  {
    !StrictEquals(c.oldValue, c.newValue) && IsValid(c.column, c.newValue, c.reading)
  }

  /** The change is recorded: a column the client may edit and a value
   *  that passes the value checks `keep` (`Kept` in the handler; the
   *  grouping below holds for any checks). */
  predicate Accepted(keep: Change -> bool, c: Change)
  {
    !Computed(c.column) && keep(c)
  }

  /** The change makes the whole handler return: its column is not a
   *  computed one and its row has no issue id. */
  predicate Aborts(grid: seq<Row>, c: Change)
  {
    !Computed(c.column) && IsNullish(DataAt(grid, c.row, "id"))
  }

  /** The position of `row`'s bucket, -1 when it has none yet. */
  function BucketIndex(buckets: seq<Bucket>, row: int): (k: int)
    ensures -1 <= k < |buckets|
    ensures k >= 0 ==> buckets[k].row == row
    ensures k == -1 ==> forall i :: 0 <= i < |buckets| ==> buckets[i].row != row
  {
    if buckets == [] then -1
    else if buckets[|buckets| - 1].row == row then |buckets| - 1
    else BucketIndex(buckets[..|buckets| - 1], row)
  }

  /** Recording `key := value` for `row`, opening its bucket (with the id
   *  and lock version the grid holds) at the row's first change. */
  function Put(grid: seq<Row>, buckets: seq<Bucket>, row: int, key: string, value: JsValue): (r: seq<Bucket>)
  {
    var k := BucketIndex(buckets, row);
    if k < 0 then buckets + [Bucket(row, DataAt(grid, row, "id"), DataAt(grid, row, "lock_version"), map[key := value])]
    else buckets[k := buckets[k].(attributes := buckets[k].attributes[key := value])]
  }

  /** One pass of the loop over `changes`; `None` is the `return` at a row
   *  without an id. */
  function Step(grid: seq<Row>, buckets: seq<Bucket>, c: Change, keep: Change -> bool): Option<seq<Bucket>>
  {
    if Computed(c.column) then Some(buckets)
    else if IsNullish(DataAt(grid, c.row, "id")) then None
    else if !keep(c) then Some(buckets)
    else Some(Put(grid, buckets, c.row, AttributeKey(c.column), c.newValue))
  }

  /** The buckets after the whole loop, `None` when it returned early. */
  function Collect(grid: seq<Row>, changes: seq<Change>, keep: Change -> bool): Option<seq<Bucket>>
  {
    if changes == [] then Some([])
    else
      var prev := Collect(grid, changes[..|changes| - 1], keep);
      if prev.None? then None else Step(grid, prev.value, changes[|changes| - 1], keep)
  }

  /** What `handleAfterChange` ends in. */
  datatype Outcome =
    | Ignored          // no changes, or a source that is not saved
    | Aborted          // a change on a row without an issue id
    | NothingToSave    // every change was skipped
    | Send(buckets: seq<Bucket>)

  /** The outcome `handleAfterChange(changes, source)` reaches. */
  function AfterChange(grid: seq<Row>, changes: Option<seq<Change>>, source: string): Outcome
  {
    if changes.None? || source in IGNORED_SOURCES then Ignored
    else
      match Collect(grid, changes.value, Kept)
      case None => Aborted
      case Some(buckets) => if buckets == [] then NothingToSave else Send(buckets)
  }

  /** One pass of the loop over `changes`: `aborted` is its `return`,
   *  otherwise `rowMap` is updated with the change if `keep` (the
   *  `oldValue === newValue` and `isValid` checks) lets it through. */
  method Record(grid: seq<Row>, rowMap0: seq<Bucket>, c: Change, keep: Change -> bool) returns (aborted: bool, rowMap: seq<Bucket>)
    ensures aborted <==> Step(grid, rowMap0, c, keep).None?
    ensures !aborted ==> Step(grid, rowMap0, c, keep) == Some(rowMap)
  {
    rowMap := rowMap0;
    aborted := false;
    if c.column == "lock_version" || c.column == "schedule_days" || c.column == "check_days" {
      return;
    }
    if IsNullish(DataAt(grid, c.row, "id")) {
      return true, rowMap;
    }
    if !keep(c) {
      return;
    }
    var k := BucketIndex(rowMap, c.row);
    if k < 0 {
      rowMap := rowMap + [Bucket(c.row, DataAt(grid, c.row, "id"), DataAt(grid, c.row, "lock_version"), map[])];
      k := |rowMap| - 1;
    }
    var key := if c.column == "version_id" then "fixed_version_id" else c.column;
    rowMap := rowMap[k := rowMap[k].(attributes := rowMap[k].attributes[key := c.newValue])];
    assert rowMap == Put(grid, rowMap0, c.row, AttributeKey(c.column), c.newValue);
  }

  /** `handleAfterChange(changes, source)` up to the requests: the loop that
   *  groups the changes per row. */
  method HandleAfterChange(grid: seq<Row>, changes: Option<seq<Change>>, source: string) returns (outcome: Outcome)
    ensures outcome == AfterChange(grid, changes, source)
  {
    if changes.None? || source == "loadData" || source == "copy" || source == "MergeCells" || source == SERVER_VALUE {
      return Ignored;
    }
    var cs := changes.value;
    var rowMap: seq<Bucket> := [];
    for i := 0 to |cs|
      invariant Collect(grid, cs[..i], Kept) == Some(rowMap)
    {
      assert cs[..i + 1][..i] == cs[..i];
      var aborted;
      aborted, rowMap := Record(grid, rowMap, cs[i], Kept);
      if aborted {
        AbortIsFinal(grid, cs, Kept, i + 1);
        return Aborted;
      }
    }
    assert cs[..|cs|] == cs;
    if |rowMap| == 0 {
      return NothingToSave;
    }
    return Send(rowMap);
  }

  /** Once the loop has returned, no later change revives it. */
  lemma {:induction false} AbortIsFinal(grid: seq<Row>, changes: seq<Change>, keep: Change -> bool, i: nat)
    requires i <= |changes| && Collect(grid, changes[..i], keep).None?
    ensures Collect(grid, changes, keep).None?
    decreases |changes| - i
  {
    if i < |changes| {
      assert changes[..i + 1][..i] == changes[..i];
      AbortIsFinal(grid, changes, keep, i + 1);
    } else {
      assert changes[..i] == changes;
    }
  }

  /** The loop returns early exactly when some change's row, for a column
   *  the client may edit, has no issue id, wherever that change comes. */
  lemma {:induction false} AbortsExactly(grid: seq<Row>, changes: seq<Change>, keep: Change -> bool)
    ensures Collect(grid, changes, keep).None? <==> exists i :: 0 <= i < |changes| && Aborts(grid, changes[i])
  {
    if changes != [] {
      var n := |changes| - 1;
      AbortsExactly(grid, changes[..n], keep);
      if exists i :: 0 <= i < n && Aborts(grid, changes[..n][i]) {
        var i :| 0 <= i < n && Aborts(grid, changes[..n][i]);
        assert changes[i] == changes[..n][i];
      }
      if exists i :: 0 <= i < |changes| && Aborts(grid, changes[i]) {
        var i :| 0 <= i < |changes| && Aborts(grid, changes[i]);
        if i < n {
          assert changes[..n][i] == changes[i];
        }
      }
    }
  }

  /** At most one bucket per row. */
  ghost predicate DistinctRows(buckets: seq<Bucket>)
  {
    forall i, j :: 0 <= i < j < |buckets| ==> buckets[i].row != buckets[j].row
  }

  /** What `Put` does to the buckets: the row's bucket, new or old, gets
   *  `key := value`, and every other bucket is left as it was. */
  lemma PutEffect(grid: seq<Row>, buckets: seq<Bucket>, row: int, key: string, value: JsValue)
    requires DistinctRows(buckets)
    ensures var r := Put(grid, buckets, row, key, value);
      && DistinctRows(r)
      && |r| == |buckets| + (if BucketIndex(buckets, row) < 0 then 1 else 0)
      && (forall i :: 0 <= i < |buckets| ==>
            && r[i].row == buckets[i].row && r[i].id == buckets[i].id && r[i].lockVersion == buckets[i].lockVersion
            && r[i].attributes == (if buckets[i].row == row then buckets[i].attributes[key := value] else buckets[i].attributes))
      && (BucketIndex(buckets, row) < 0 ==>
            r[|buckets|] == Bucket(row, DataAt(grid, row, "id"), DataAt(grid, row, "lock_version"), map[key := value]))
  {
  }

  /** One change more, when the loop does not return at it: the change is
   *  either skipped or put into its row's bucket. */
  lemma CollectLast(grid: seq<Row>, changes: seq<Change>, keep: Change -> bool)
    requires changes != [] && Collect(grid, changes, keep).Some?
    ensures var n := |changes| - 1;
      var c := changes[n];
      && Collect(grid, changes[..n], keep).Some? && !Aborts(grid, c)
      && Collect(grid, changes, keep).value
         == if Accepted(keep, c) then Put(grid, Collect(grid, changes[..n], keep).value, c.row, AttributeKey(c.column), c.newValue)
            else Collect(grid, changes[..n], keep).value
  {
  }

  /** Every bucket belongs to a different row and carries the id and the
   *  lock version the grid holds for that row. */
  lemma {:induction false} BucketsFromGrid(grid: seq<Row>, changes: seq<Change>, keep: Change -> bool)
    requires Collect(grid, changes, keep).Some?
    ensures var buckets := Collect(grid, changes, keep).value;
      && DistinctRows(buckets)
      && forall i :: 0 <= i < |buckets| ==>
           buckets[i].id == DataAt(grid, buckets[i].row, "id") && buckets[i].lockVersion == DataAt(grid, buckets[i].row, "lock_version")
  {
    if changes != [] {
      var n := |changes| - 1;
      CollectLast(grid, changes, keep);
      BucketsFromGrid(grid, changes[..n], keep);
      var c := changes[n];
      if Accepted(keep, c) {
        PutEffect(grid, Collect(grid, changes[..n], keep).value, c.row, AttributeKey(c.column), c.newValue);
      }
    }
  }

  /** `c` sets `key` on `row`. */
  predicate Sets(keep: Change -> bool, c: Change, row: int, key: string)
  {
    Accepted(keep, c) && c.row == row && AttributeKey(c.column) == key
  }

  /** `row` has a bucket. */
  ghost predicate HasBucket(buckets: seq<Bucket>, row: int)
  {
    exists i :: 0 <= i < |buckets| && buckets[i].row == row
  }

  /** Some change in `changes` is recorded for `row`. */
  ghost predicate Touches(keep: Change -> bool, changes: seq<Change>, row: int)
  {
    exists j :: 0 <= j < |changes| && Accepted(keep, changes[j]) && changes[j].row == row
  }

  /** A row has a bucket exactly when some change to it is recorded. */
  lemma {:induction false} BucketForRow(grid: seq<Row>, changes: seq<Change>, keep: Change -> bool, row: int)
    requires Collect(grid, changes, keep).Some?
    ensures HasBucket(Collect(grid, changes, keep).value, row) <==> Touches(keep, changes, row)
  {
    if changes != [] {
      var n := |changes| - 1;
      CollectLast(grid, changes, keep);
      BucketForRow(grid, changes[..n], keep, row);
      TouchesLast(keep, changes, row);
      var c := changes[n];
      if Accepted(keep, c) {
        BucketsFromGrid(grid, changes[..n], keep);
        PutHasBucket(grid, Collect(grid, changes[..n], keep).value, c.row, AttributeKey(c.column), c.newValue, row);
      }
    }
  }

  lemma TouchesLast(keep: Change -> bool, changes: seq<Change>, row: int)
    requires changes != []
    ensures var n := |changes| - 1;
      Touches(keep, changes, row) <==> Touches(keep, changes[..n], row) || (Accepted(keep, changes[n]) && changes[n].row == row)
  {
    var n := |changes| - 1;
    if Touches(keep, changes[..n], row) {
      var j :| 0 <= j < n && Accepted(keep, changes[..n][j]) && changes[..n][j].row == row;
      assert changes[j] == changes[..n][j];
    }
    if Touches(keep, changes, row) {
      var j :| 0 <= j < |changes| && Accepted(keep, changes[j]) && changes[j].row == row;
      if j < n {
        assert changes[..n][j] == changes[j];
      }
    }
  }

  lemma PutHasBucket(grid: seq<Row>, buckets: seq<Bucket>, r: int, key: string, value: JsValue, row: int)
    requires DistinctRows(buckets)
    ensures HasBucket(Put(grid, buckets, r, key, value), row) <==> HasBucket(buckets, row) || row == r
  {
    var after := Put(grid, buckets, r, key, value);
    PutEffect(grid, buckets, r, key, value);
    if HasBucket(buckets, row) {
      var i :| 0 <= i < |buckets| && buckets[i].row == row;
      assert after[i].row == row;
    }
    if row == r {
      var k := BucketIndex(buckets, r);
      if k < 0 {
        assert after[|buckets|].row == row;
      } else {
        assert after[k].row == row;
      }
    }
    if HasBucket(after, row) {
      var i :| 0 <= i < |after| && after[i].row == row;
      if i < |buckets| {
        assert buckets[i].row == row;
      }
    }
  }

  /** A bucket's attributes are exactly the keys its row's recorded changes
   *  set. */
  lemma {:induction false} AttributesOfBucket(grid: seq<Row>, changes: seq<Change>, keep: Change -> bool, i: int, key: string)
    requires Collect(grid, changes, keep).Some? && 0 <= i < |Collect(grid, changes, keep).value|
    ensures var b := Collect(grid, changes, keep).value[i];
      key in b.attributes <==> exists j :: 0 <= j < |changes| && Sets(keep, changes[j], b.row, key)
  {
    var n := |changes| - 1;
    CollectLast(grid, changes, keep);
    BucketsFromGrid(grid, changes[..n], keep);
    var prev := Collect(grid, changes[..n], keep).value;
    var b := Collect(grid, changes, keep).value[i];
    var c := changes[n];
    if Accepted(keep, c) {
      PutEffect(grid, prev, c.row, AttributeKey(c.column), c.newValue);
    }
    if i < |prev| {
      AttributesOfBucket(grid, changes[..n], keep, i, key);
      assert b.row == prev[i].row;
    } else {
      // the bucket the last change opened: no earlier change touched its row
      BucketForRow(grid, changes[..n], keep, c.row);
    }
    assert forall j :: 0 <= j < n ==> changes[..n][j] == changes[j];
  }

  /** Each attribute holds the value of the last change that set it. */
  lemma {:induction false} LastChangeWins(grid: seq<Row>, changes: seq<Change>, keep: Change -> bool, i: int, key: string, j: int)
    requires Collect(grid, changes, keep).Some? && 0 <= i < |Collect(grid, changes, keep).value|
    requires 0 <= j < |changes| && Sets(keep, changes[j], Collect(grid, changes, keep).value[i].row, key)
    requires forall k :: j < k < |changes| ==> !Sets(keep, changes[k], Collect(grid, changes, keep).value[i].row, key)
    ensures var b := Collect(grid, changes, keep).value[i];
      key in b.attributes && b.attributes[key] == changes[j].newValue
  {
    var n := |changes| - 1;
    CollectLast(grid, changes, keep);
    BucketsFromGrid(grid, changes[..n], keep);
    var prev := Collect(grid, changes[..n], keep).value;
    var b := Collect(grid, changes, keep).value[i];
    var c := changes[n];
    if Accepted(keep, c) {
      PutEffect(grid, prev, c.row, AttributeKey(c.column), c.newValue);
    }
    if j < n {
      assert changes[..n][j] == changes[j];
      if i == |prev| {
        // the last change opened this bucket, yet change j is an earlier one on its row
        BucketForRow(grid, changes[..n], keep, c.row);
      } else {
        assert b.row == prev[i].row;
        assert forall k :: j < k < n ==> changes[..n][k] == changes[k];
        LastChangeWins(grid, changes[..n], keep, i, key, j);
      }
    }
  }

  /** Columns the server computes, and the version column under its own
   *  name, never reach a request. */
  lemma ComputedNeverSent(grid: seq<Row>, changes: seq<Change>, keep: Change -> bool, i: int)
    requires Collect(grid, changes, keep).Some? && 0 <= i < |Collect(grid, changes, keep).value|
    ensures var attributes := Collect(grid, changes, keep).value[i].attributes;
      "lock_version" !in attributes && "schedule_days" !in attributes && "check_days" !in attributes
      && "version_id" !in attributes
  {
    var b := Collect(grid, changes, keep).value[i];
    AttributesOfBucket(grid, changes, keep, i, "lock_version");
    AttributesOfBucket(grid, changes, keep, i, "schedule_days");
    AttributesOfBucket(grid, changes, keep, i, "check_days");
    AttributesOfBucket(grid, changes, keep, i, "version_id");
  }

  /** Surrounding white space never changes the verdict: `isValid` looks at
   *  the trimmed text only. */
  lemma ValidityIgnoresPadding(column: string, s: string, n: NumberReading)
    ensures IsValid(column, Str(s), n) == IsValid(column, Str(Trim(s)), n)
  {
    TrimIdempotent(s);
  }

  /** The 255 limits count UTF-16 code units: 128 characters beyond the
   *  Basic Multilingual Plane already make a subject or a description too
   *  long. */
  lemma AstralTextTooLong(s: string, n: NumberReading)
    requires |s| >= 128 && forall i :: 0 <= i < |s| ==> s[i] as int >= 0x1_0000
    ensures !IsValid("subject", Str(s), n) && !IsValid("description", Str(s), n)
  {
    assert forall i :: 0 <= i < |s| ==> !IsJsSpace(s[i]);
    assert LeadingSpaces(s) == 0;
    assert Trim(s) == s;
    Utf16LengthUniform(s);
  }

  /** Up to 255 characters of the Basic Multilingual Plane are always an
   *  acceptable description. */
  lemma PlaneTextFitsDescription(s: string, n: NumberReading)
    requires |s| <= 255 && forall i :: 0 <= i < |s| ==> s[i] as int < 0x1_0000
    ensures IsValid("description", Str(s), n)
  {
    var t := Trim(s);
    var lead := LeadingSpaces(s);
    assert forall i :: 0 <= i < |t| ==> t[i] == s[lead + i];
    Utf16LengthUniform(t);
  }

  /** An effort figure the client lets through, non-empty, is one the
   *  server stores as it is rounded, without clamping it: its rounding lies
   *  within `0..999.99`. */
  lemma AcceptedAmountIsStoredUnclamped(column: string, v: JsValue, x: Decimal)
    requires IsDateKey(column) || column == "estimated_days"
    requires IsValid(column, v, Finite(x)) && Trim(ToText(v)) != ""
    ensures 0 <= Round2(x) <= MAX_MAN_DAYS
    ensures Normalized(Some(x), MAX_MAN_DAYS, Round2(x))
  {
    assert !Negative(x) && !Above(x, MAX_MAN_DAYS);
    RoundedAtMost(x, MAX_MAN_DAYS);
  }

  /** A non-negative decimal at most `h / 100` rounds to at most `h`
   *  hundredths. */
  lemma RoundedAtMost(x: Decimal, h: int)
    requires x.units >= 0 && h >= 0 && !Above(x, h)
    ensures Round2(x) <= h
  {
    assert Pow10(2) == 100;
    if x.scale <= 2 {
      Pow10Add(2 - x.scale, x.scale);
      ExactAtMost(x.units, h, Pow10(2 - x.scale), Pow10(x.scale));
    } else {
      Pow10Add(2, x.scale - 2);
      RoundedProductAtMost(x.units, h, Pow10(x.scale - 2), Round2(x));
    }
  }

  /** With at most two decimals the rounding is exact: `u * q` hundredths,
   *  `q * big` being 100 and `u / big` at most `h / 100`. */
  lemma ExactAtMost(u: int, h: int, q: nat, big: nat)
    requires big >= 1 && q * big == 100 && u * 100 <= h * big
    ensures u * q <= h
  {
    var r := u * q;
    assert r * big == u * (q * big);
    if r > h {
      MulGrows(r, h, big);
    }
  }

  /** With more decimals, `r` is within half a unit of `u / p` while `u` is
   *  at most `h * p`. */
  lemma RoundedProductAtMost(u: int, h: int, p: nat, r: int)
    requires p >= 1 && u * 100 <= h * (100 * p) && 2 * Abs(r * p - u) <= p
    ensures r <= h
  {
    assert h * (100 * p) == 100 * (h * p);
    if r > h {
      MulGrows(r, h, p);
    }
  }

  lemma {:induction false} MulGrows(a: int, b: int, p: nat)
    requires a > b
    ensures a * p >= b * p + p
  {
    if p > 0 {
      MulGrows(a, b, p - 1);
      assert a * p == a * (p - 1) + a;
      assert b * p == b * (p - 1) + b;
    }
  }

  /** A column the write-back may set: any but a date column. */
  predicate Writable(column: string)
  {
    !IsDateKey(column)
  }

  /** The `batch` callback: collects the updates from `data.results` (none
   *  when the response has no results). */
  method CollectUpdates(row: int, results: Option<seq<(string, ResultEntry)>>) returns (updates: seq<Update>)
    ensures updates == if results.None? then [] else WriteBacks(row, results.value, Writable)
  {
    updates := [];
    if results.None? {
      return;
    }
    var entries := results.value;
    for i := 0 to |entries|
      invariant updates == WriteBacks(row, entries[..i], Writable)
    {
      assert entries[..i + 1][..i] == entries[..i];
      var (k, r) := entries[i];
      if !Ok(r) {
        continue;
      }
      if IsDateKey(k) {
        continue;
      }
      updates := updates + [Update(row, k, Get(r.fields, "value"))];
    }
    assert entries[..|entries|] == entries;
  }

  /** The write-back's own `afterChange` is not saved again. */
  lemma WriteBackIsNotSaved(grid: seq<Row>, changes: seq<Change>)
    ensures AfterChange(grid, Some(changes), SERVER_VALUE) == Ignored
  {
  }

  /** The body of one request. */
  datatype Payload = Payload(id: JsValue, lockVersion: JsValue, attributes: Row)

  /** The `setDataAtRowProp` calls the responses lead to, in bucket order:
   *  one per answered bucket with something to write. */
  function Writes(buckets: seq<Bucket>, responses: seq<Response>): seq<seq<Update>>
    requires |responses| == |buckets|
  {
    if buckets == [] then []
    else
      var n := |buckets| - 1;
      var updates := if responses[n].Answered? && responses[n].results.Some?
                     then WriteBacks(buckets[n].row, responses[n].results.value, Writable) else [];
      Writes(buckets[..n], responses[..n]) + (if updates != [] then [updates] else [])
  }

  /** The asynchronous part: one request per bucket, in order, each
   *  followed by its write-back; `responses[i]` is what request `i` gets. */
  method SaveBuckets(buckets: seq<Bucket>, responses: seq<Response>) returns (payloads: seq<Payload>, writes: seq<seq<Update>>)
    requires |responses| == |buckets|
    ensures |payloads| == |buckets|
    ensures forall i :: 0 <= i < |buckets| ==>
      payloads[i] == Payload(buckets[i].id, buckets[i].lockVersion, buckets[i].attributes)
    ensures writes == Writes(buckets, responses)
  {
    payloads, writes := [], [];
    for i := 0 to |buckets|
      invariant |payloads| == i
      invariant forall k :: 0 <= k < i ==> payloads[k] == Payload(buckets[k].id, buckets[k].lockVersion, buckets[k].attributes)
      invariant writes == Writes(buckets[..i], responses[..i])
    {
      assert buckets[..i + 1][..i] == buckets[..i] && responses[..i + 1][..i] == responses[..i];
      var bucket := buckets[i];
      payloads := payloads + [Payload(bucket.id, bucket.lockVersion, bucket.attributes)];
      if responses[i].Failed? {
        continue;
      }
      var updates := CollectUpdates(bucket.row, responses[i].results);
      if |updates| > 0 {
        writes := writes + [updates];
      }
    }
    assert buckets[..|buckets|] == buckets && responses[..|responses|] == responses;
  }

  /** Every write goes to the row of one of the buckets sent. */
  lemma {:induction false} WritesStayInSavedRows(buckets: seq<Bucket>, responses: seq<Response>, w: int, u: Update)
    requires |responses| == |buckets|
    requires 0 <= w < |Writes(buckets, responses)| && u in Writes(buckets, responses)[w]
    ensures exists i :: 0 <= i < |buckets| && u.row == buckets[i].row
  {
    var n := |buckets| - 1;
    var prev := Writes(buckets[..n], responses[..n]);
    if w < |prev| {
      WritesStayInSavedRows(buckets[..n], responses[..n], w, u);
      var i :| 0 <= i < n && u.row == buckets[..n][i].row;
      assert buckets[i] == buckets[..n][i];
    } else {
      WritesExactlyRow(buckets[n].row, responses[n].results.value, u);
    }
  }

  lemma WritesExactlyRow(row: int, results: seq<(string, ResultEntry)>, u: Update)
    requires u in WriteBacks(row, results, Writable)
    ensures u.row == row
  {
    WriteBacksExactly(row, results, Writable, u);
  }
}
