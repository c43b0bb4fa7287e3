/** The part of the spreadsheet's table that the row-editing commands use:
 *  inserting blank rows, removing rows, reading and writing the issue id in
 *  the first column, and what a request to the server brought back. */
module HotTable {
  import opened Optional
  import opened Js
  import opened Grid

  /** The `alter` actions the commands use. */
  datatype Action = InsertRowAbove | InsertRowBelow | RemoveRow

  /** An index past either end of the table is taken as that end. */
  function Clamp(at: int, len: nat): (a: nat)
    ensures a <= len
    ensures 0 <= at <= len ==> a == at
    ensures at < 0 ==> a == 0
    ensures at > len ==> a == len
  {
    if at < 0 then 0 else if at > len then len else at
  }

  /** `n` rows without any property. */
  function Blank(n: nat): (rows: seq<Row>)
    ensures |rows| == n
    ensures forall i :: 0 <= i < n ==> rows[i] == map[]
  {
    if n == 0 then [] else Blank(n - 1) + [map[]]
  }

  /** `n` blank rows placed so that the first of them is row `at`. */
  function Inserted(rows: seq<Row>, at: int, n: nat): seq<Row>
  {
    var a := Clamp(at, |rows|);
    rows[..a] + Blank(n) + rows[a..]
  }

  /** Rows `at` to `at + n - 1` taken out, as far as they exist. */
  function Removed(rows: seq<Row>, at: int, n: nat): seq<Row>
  {
    var a := Clamp(at, |rows|);
    rows[..a] + rows[Clamp(a + n, |rows|)..]
  }

  /** `alter(action, index, amount)`: `insert_row_below` places the new
   *  rows after row `index`. */
  function Altered(rows: seq<Row>, action: Action, index: int, amount: nat): seq<Row>
  {
    match action
    case InsertRowAbove => Inserted(rows, index, amount)
    case InsertRowBelow => Inserted(rows, index + 1, amount)
    case RemoveRow => Removed(rows, index, amount)
  }

  /** `setDataAtCell(r, 0, id)`: column 0 holds the property `id`; a row
   *  outside the table is left alone. */
  function SetId(rows: seq<Row>, r: int, id: JsValue): seq<Row>
  {
    if 0 <= r < |rows| then rows[r := rows[r]["id" := id]] else rows
  }

  /** `ids.forEach((id, i) => setDataAtCell(start + i, 0, id))`: the row
   *  `start + i` gets id `ids[i]`, every other row is as it was. */
  function WithIds(rows: seq<Row>, start: int, ids: seq<JsValue>): (r: seq<Row>)
    ensures |r| == |rows|
    ensures forall j :: 0 <= j < |rows| ==>
      r[j] == if start <= j < start + |ids| then rows[j]["id" := ids[j - start]] else rows[j]
  {
    if ids == [] then rows
    else
      var n := |ids| - 1;
      var prev := WithIds(rows, start, ids[..n]);
      assert forall k :: 0 <= k < n ==> ids[..n][k] == ids[k];
      SetId(prev, start + n, ids[n])
  }

  /** The values of property `prop` in the `n` rows from `start` on, in
   *  order; a row outside the table gives `undefined`. */
  function Column(rows: seq<Row>, start: int, n: nat, prop: string): (vs: seq<JsValue>)
    ensures |vs| == n
    ensures forall i :: 0 <= i < n ==> vs[i] == DataAt(rows, start + i, prop)
  {
    if n == 0 then [] else Column(rows, start, n - 1, prop) + [DataAt(rows, start + n - 1, prop)]
  }

  /** `getSourceDataAtRow(r)` for the `n` rows from `start` on, in order. */
  function SourceRows(rows: seq<Row>, start: int, n: nat): (rs: seq<Option<Row>>)
    ensures |rs| == n
    ensures forall i :: 0 <= i < n ==> rs[i] == RowAt(rows, start + i)
  {
    if n == 0 then [] else SourceRows(rows, start, n - 1) + [RowAt(rows, start + n - 1)]
  }

  /** The shape of an insertion inside the table: the rows above stay, the
   *  new rows are blank, and the rows from `at` on move down by `n`. */
  lemma InsertedShape(rows: seq<Row>, at: int, n: nat)
    requires 0 <= at <= |rows|
    ensures |Inserted(rows, at, n)| == |rows| + n
    ensures forall j :: 0 <= j < at ==> Inserted(rows, at, n)[j] == rows[j]
    ensures forall j :: at <= j < at + n ==> Inserted(rows, at, n)[j] == map[]
    ensures forall j :: at <= j < |rows| ==> Inserted(rows, at, n)[j + n] == rows[j]
  {
  }

  /** Removing the rows just inserted gives the table back. */
  lemma {:induction false} RemoveUndoesInsert(rows: seq<Row>, at: int, n: nat)
    requires at <= |rows|
    ensures Removed(Inserted(rows, at, n), at, n) == rows
  {
    var a := Clamp(at, |rows|);
    var grown := Inserted(rows, at, n);
    assert Clamp(at, |grown|) == a;
    assert grown[..a] == rows[..a];
    assert grown[a + n..] == rows[a..];
  }

  /** The shape of a removal: the rows above stay, and the rows after the
   *  removed ones move up; no more than the rows that exist go. */
  lemma RemovedShape(rows: seq<Row>, at: int, n: nat)
    requires 0 <= at <= |rows|
    ensures var gone := if at + n <= |rows| then n else |rows| - at;
      && |Removed(rows, at, n)| == |rows| - gone
      && (forall j :: 0 <= j < at ==> Removed(rows, at, n)[j] == rows[j])
      && (forall j :: at + gone <= j < |rows| ==> Removed(rows, at, n)[j - gone] == rows[j])
  {
  }

  /** Inserting `|ids|` rows at `at` and writing `ids` into them from `at`
   *  on: the rows above stay, new row `i` holds only the id `ids[i]`, and
   *  the old rows from `at` on move down below the new block. */
  lemma {:induction false} NewRowsCarryIds(rows: seq<Row>, at: int, ids: seq<JsValue>)
    requires 0 <= at <= |rows|
    ensures var after := WithIds(Inserted(rows, at, |ids|), at, ids);
      && |after| == |rows| + |ids|
      && (forall j :: 0 <= j < at ==> after[j] == rows[j])
      && (forall i :: 0 <= i < |ids| ==> after[at + i] == map["id" := ids[i]])
      && (forall j :: at <= j < |rows| ==> after[j + |ids|] == rows[j])
  {
    InsertedShape(rows, at, |ids|);
  }

  /** What `sendRequest.send(payload)` gave back: an error thrown for a
   *  failed request or a status that is not ok, or the body, whose
   *  `results` array may be missing. */
  datatype Reply = Failed | Answered(results: Option<seq<JsValue>>)

  /** How a command ended: nothing sent, an alert, or the grid reloaded
   *  (after saving the sort order, where the command does). */
  datatype Outcome = NotSent | Alerted | Refreshed

  /** The spreadsheet's table (`hotMain`) as its rows. */
  class Table {
    var rows: seq<Row>

    constructor(rows: seq<Row>)
      ensures this.rows == rows
    {
      this.rows := rows;
    }

    /** `alter(action, index, amount)`. */
    method Alter(action: Action, index: int, amount: nat)
      modifies this
      ensures rows == Altered(old(rows), action, index, amount)
    {
      rows := Altered(rows, action, index, amount);
    }

    /** `getDataAtCell(r, 0)`: the issue id of row `r`. */
    method GetId(r: int) returns (id: JsValue)
      ensures 0 <= r < |rows| ==> id == Get(rows[r], "id")
      ensures !(0 <= r < |rows|) ==> id == Undefined
    {
      id := DataAt(rows, r, "id");
    }

    /** `ids.forEach((id, i) => setDataAtCell(start + i, 0, id))`. */
    method SetIds(start: int, ids: seq<JsValue>)
      modifies this
      ensures rows == WithIds(old(rows), start, ids)
    {
      for i := 0 to |ids|
        invariant rows == WithIds(old(rows), start, ids[..i])
      {
        assert ids[..i + 1][..i] == ids[..i];
        rows := SetId(rows, start + i, ids[i]);
      }
      assert ids[..|ids|] == ids;
    }
  }
}
