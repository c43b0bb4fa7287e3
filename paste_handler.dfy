/** `PasteHandler`: the spreadsheet's own paste. The clipboard text is cut
 *  into lines and cells, made rectangular, and written into the grid from
 *  the top-left corner of the first selection, clipped to the table; it
 *  only happens when the clipboard may be read and edit mode is on. */
module PasteHandler {
  import opened Optional
  import opened Text
  import opened Grid

  /** Rows of cell texts. */
  type Matrix = seq<seq<string>>

  /** `parsePastedText(text)`: every CR removed, the text split into lines
   *  at LF, one trailing empty line dropped, each line split into cells at
   *  tabs (empty cells kept). */
  function ParsePastedText(text: string): (m: Matrix)
    ensures |m| == |KeptLines(text)|
    ensures forall i :: 0 <= i < |m| ==> |m[i]| >= 1
  {
    var kept := KeptLines(text);
    seq(|kept|, i requires 0 <= i < |kept| => Split(kept[i], '\t'))
  }

  /** Each parsed row, its cells joined by tabs again, is the line it was
   *  read from. */
  lemma ParsedLineRoundTrip(text: string, i: int)
    requires 0 <= i < |ParsePastedText(text)|
    ensures JoinCells(ParsePastedText(text)[i]) == KeptLines(text)[i]
  {
    JoinSplit(KeptLines(text)[i], '\t');
  }

  /** Writing a matrix back as clipboard text: cells joined by tabs, lines
   *  by LF. */
  function Unparse(m: Matrix): string
  {
    if m == [] then [] else Join(seq(|m|, i requires 0 <= i < |m| => JoinCells(m[i])), '\n')
  }

  /** One line of cells joined by tabs. */
  function JoinCells(row: seq<string>): string
  {
    if row == [] then [] else Join(row, '\t')
  }

  /** The lines `parsePastedText` keeps. */
  function KeptLines(text: string): (kept: seq<string>)
    ensures forall i, k :: 0 <= i < |kept| && 0 <= k < |kept[i]| ==> kept[i][k] != '\n' && kept[i][k] != '\r'
  {
    var t := RemoveAll(text, '\r');
    var lines := Split(t, '\n');
    var kept := if lines[|lines| - 1] == [] then lines[..|lines| - 1] else lines;
    assert forall i, k :: 0 <= i < |kept| && 0 <= k < |kept[i]| ==> kept[i][k] == lines[i][k];
    forall i, k | 0 <= i < |kept| && 0 <= k < |kept[i]|
      ensures kept[i][k] != '\r'
    {
      SplitPiecesAreInside(t, '\n', i, k);
    }
    kept
  }

  /** No cell holds a tab, a line feed or a carriage return. */
  lemma ParsedCellsAreClean(text: string, i: int, j: int, k: int)
    requires var m := ParsePastedText(text); 0 <= i < |m| && 0 <= j < |m[i]| && 0 <= k < |m[i][j]|
    ensures var c := ParsePastedText(text)[i][j][k]; c != '\t' && c != '\n' && c != '\r'
  {
    var kept := KeptLines(text);
    assert ParsePastedText(text) == seq(|kept|, i requires 0 <= i < |kept| => Split(kept[i], '\t'));
    var cells := Split(kept[i], '\t');
    SplitPiecesAreInside(kept[i], '\t', j, k);
    var p :| 0 <= p < |kept[i]| && kept[i][p] == cells[j][k];
  }

  /** A character of a piece of `s.split(sep)` is a character of `s`. */
  lemma {:induction false} SplitPiecesAreInside(s: string, sep: char, j: int, k: int)
    requires 0 <= j < |Split(s, sep)| && 0 <= k < |Split(s, sep)[j]|
    ensures Split(s, sep)[j][k] in s
    decreases |s|
  {
    if s == [] {
    } else if s[0] == sep {
      if j > 0 {
        SplitPiecesAreInside(s[1..], sep, j - 1, k);
      }
    } else {
      var rest := Split(s[1..], sep);
      if j == 0 && k == 0 {
      } else if j == 0 {
        SplitPiecesAreInside(s[1..], sep, 0, k - 1);
      } else {
        SplitPiecesAreInside(s[1..], sep, j, k);
      }
    }
  }

  /** Parsing loses nothing but the CRs and one final line feed: writing
   *  the matrix back gives the CR-free text, less its final LF if it had
   *  one. */
  lemma ParseRoundTrip(text: string)
    ensures var t := RemoveAll(text, '\r');
      Unparse(ParsePastedText(text)) + (if EndsWith(t, "\n") then "\n" else "") == t
  {
    var t := RemoveAll(text, '\r');
    var lines := Split(t, '\n');
    var n := |lines| - 1;
    var u := Unparse(ParsePastedText(text));
    UnparseKeptLines(text);
    if lines[n] == [] {
      DroppedLastLine(t);
      assert KeptLines(text) == lines[..n];
      if n >= 1 {
        assert u == Join(lines[..n], '\n');
        assert t == u + "\n";
        assert t[|t| - 1..] == "\n";
        assert EndsWith(t, "\n");
      } else {
        assert u == [] && t == [];
        assert !EndsWith(t, "\n");
      }
    } else {
      KeptLastLine(t);
      assert KeptLines(text) == lines;
      assert u == t;
    }
  }

  /** When the last piece is empty, the text is empty or is the other
   *  pieces followed by a line feed. */
  lemma DroppedLastLine(t: string)
    requires var lines := Split(t, '\n'); lines[|lines| - 1] == []
    ensures var lines := Split(t, '\n'); var n := |lines| - 1;
      (n == 0 ==> t == []) && (n >= 1 ==> t == Join(lines[..n], '\n') + "\n")
  {
    var lines := Split(t, '\n');
    JoinSplit(t, '\n');
    if |lines| >= 2 {
      JoinSnoc(lines, '\n');
    }
  }

  /** When the last piece is not empty, the text is all the pieces joined
   *  and does not end with a line feed. */
  lemma KeptLastLine(t: string)
    requires var lines := Split(t, '\n'); lines[|lines| - 1] != []
    ensures t == Join(Split(t, '\n'), '\n') && !EndsWith(t, "\n")
  {
    var lines := Split(t, '\n');
    var n := |lines| - 1;
    JoinSplit(t, '\n');
    if n >= 1 {
      JoinSnoc(lines, '\n');
    }
    LastPieceEnd(lines, n);
    assert t[|t| - 1] != '\n';
  }

  /** Writing the parsed matrix back gives the kept lines joined by LF. */
  lemma UnparseKeptLines(text: string)
    ensures var kept := KeptLines(text);
      Unparse(ParsePastedText(text)) == if kept == [] then [] else Join(kept, '\n')
  {
    var kept := KeptLines(text);
    var m := ParsePastedText(text);
    if kept != [] {
      var rows := seq(|m|, i requires 0 <= i < |m| => JoinCells(m[i]));
      forall i | 0 <= i < |kept|
        ensures rows[i] == kept[i]
      {
        JoinSplit(kept[i], '\t');
      }
      assert rows == kept;
    }
  }

  /** The text ends with the last piece. */
  lemma LastPieceEnd(lines: seq<string>, n: int)
    requires |lines| == n + 1 && n >= 0 && lines[n] != []
    requires n == 0 || Join(lines, '\n') == Join(lines[..n], '\n') + "\n" + lines[n]
    ensures var t := Join(lines, '\n'); t != [] && t[|t| - 1] == lines[n][|lines[n]| - 1]
  {
  }

  /** `parts.join(sep)` ends with the separator and the last part. */
  lemma {:induction false} JoinSnoc(parts: seq<string>, sep: char)
    requires |parts| >= 2
    ensures Join(parts, sep) == Join(parts[..|parts| - 1], sep) + [sep] + parts[|parts| - 1]
    decreases |parts|
  {
    var n := |parts| - 1;
    if |parts| > 2 {
      JoinSnoc(parts[1..], sep);
      assert parts[1..][..n - 1] == parts[..n][1..];
    }
  }

  /** The longest row's length, 0 for no rows (`Math.max` over the row
   *  lengths, seeded with 0). */
  function MaxLen(m: Matrix): (w: nat)
    ensures forall i :: 0 <= i < |m| ==> |m[i]| <= w
    ensures m != [] ==> exists i :: 0 <= i < |m| && |m[i]| == w
  {
    if m == [] then 0
    else
      var w := MaxLen(m[..|m| - 1]);
      var last := |m[|m| - 1]|;
      assert forall i :: 0 <= i < |m| - 1 ==> m[i] == m[..|m| - 1][i];
      if last > w then last else w
  }

  /** `maxCols`: the longest row's length, or 1 when every row is empty. */
  function Width(m: Matrix): (w: nat)
  {
    if MaxLen(m) == 0 then 1 else MaxLen(m)
  }

  /** `rectifyAndSanitize(matrix)`: every row padded with `''` to `maxCols`
   *  cells. */
  function Rectified(m: Matrix): (out: Matrix)
    ensures |out| == |m|
    ensures forall r :: 0 <= r < |m| ==> |out[r]| == Width(m) >= |m[r]|
    ensures forall r, i :: 0 <= r < |m| && 0 <= i < |m[r]| ==> out[r][i] == m[r][i]
    ensures forall r, i :: 0 <= r < |m| && |m[r]| <= i < |out[r]| ==> out[r][i] == ""
  {
    seq(|m|, r requires 0 <= r < |m| =>
      seq(Width(m), i requires 0 <= i < Width(m) => if i < |m[r]| then m[r][i] else ""))
  }

  /** The rectified matrix keeps the row count; every row is as long as the
   *  longest (at least one cell); every cell keeps its place and a missing
   *  one becomes `''`. */
  lemma RectifiedShape(m: Matrix)
    ensures var out := Rectified(m);
      && |out| == |m|
      && (forall r :: 0 <= r < |m| ==> |out[r]| == Width(m) && |m[r]| <= |out[r]|)
      && (forall r, i :: 0 <= r < |m| && 0 <= i < Width(m) ==> out[r][i] == if i < |m[r]| then m[r][i] else "")
      && Width(m) >= 1
      && (m != [] && MaxLen(m) > 0 ==> exists r :: 0 <= r < |m| && |m[r]| == Width(m))
  {
  }

  /** A matrix that is already rectangular, with at least one column, comes
   *  back unchanged. */
  lemma RectifiedKeepsRectangle(m: Matrix, w: nat)
    requires w >= 1 && forall r :: 0 <= r < |m| ==> |m[r]| == w
    ensures Rectified(m) == m
  {
    if m != [] {
      assert |m[0]| == w;
      assert Width(m) == w;
      forall r | 0 <= r < |m|
        ensures Rectified(m)[r] == m[r]
      {
      }
    }
  }

  /** `rectifyAndSanitize(matrix)`: each output row is filled cell by cell
   *  in a fresh array. */
  method RectifyAndSanitize(matrix: Matrix) returns (out: Matrix)
    ensures out == Rectified(matrix)
  {
    var maxCols := Width(matrix);
    out := [];
    for r := 0 to |matrix|
      invariant out == Rectified(matrix)[..r]
    {
      var row := matrix[r];
      var cells := new string[maxCols];
      for i := 0 to maxCols
        invariant forall k :: 0 <= k < i ==> cells[k] == if k < |row| then row[k] else ""
      {
        cells[i] := if i < |row| then row[i] else "";
      }
      assert cells[..] == Rectified(matrix)[r];
      out := out + [cells[..]];
    }
  }

  /** `row.slice(0, n)` for `n >= 0`. */
  function Prefix(row: seq<string>, n: nat): (p: seq<string>)
    ensures |p| == Min(n, |row|) && p == row[..|p|]
  {
    if n <= |row| then row[..n] else row
  }

  /** What `insertPastedData` does: nothing but an alert when the start lies
   *  outside the table, else one `populateFromArray` call. */
  datatype Placement =
    | OutsideTable
    | Populate(startRow: int, startCol: int, block: Matrix, endRow: int, endCol: int)

  /** The data pasted: `[['']]` in place of nothing. */
  function OrBlank(data: Matrix): (d: Matrix)
    ensures d != []
  {
    if data == [] then [[""]] else data
  }

  /** `insertPastedData(data, startRow, startCol)` on a table of `rowCount`
   *  rows and `colCount` columns. */
  function Place(data: Matrix, startRow: int, startCol: int, rowCount: int, colCount: int): (p: Placement)
    ensures p.OutsideTable? <==> startRow >= rowCount || startCol >= colCount
    ensures p.Populate? ==> p.startRow == startRow && p.startCol == startCol
                            && startRow <= p.endRow < rowCount && p.endCol < colCount
  {
    var d := OrBlank(data);
    var wantedEndRow := startRow + |d| - 1;
    var wantedEndCol := startCol + MaxLen(d) - 1;
    if startRow >= rowCount || startCol >= colCount then OutsideTable
    else
      var endRow := Min(wantedEndRow, rowCount - 1);
      var endCol := Min(wantedEndCol, colCount - 1);
      var rowsToPaste := endRow - startRow + 1;
      var colsToPaste := endCol - startCol + 1;
      var trimmed := seq(Min(rowsToPaste, |d|), i requires 0 <= i < Min(rowsToPaste, |d|) => Prefix(d[i], colsToPaste));
      Populate(startRow, startCol, trimmed, endRow, endCol)
  }

  /** A start outside the table writes nothing. */
  lemma PlaceOutside(data: Matrix, startRow: int, startCol: int, rowCount: int, colCount: int)
    ensures Place(data, startRow, startCol, rowCount, colCount).OutsideTable? <==> startRow >= rowCount || startCol >= colCount
  {
  }

  /** Otherwise the block starts at the start cell and ends inside the
   *  table, as far down and right as the data reaches or the table ends; it
   *  is the top-left part of the data of that size. */
  lemma PlaceClipsToTable(data: Matrix, startRow: int, startCol: int, rowCount: int, colCount: int)
    requires startRow < rowCount && startCol < colCount
    ensures var p := Place(data, startRow, startCol, rowCount, colCount);
      var d := OrBlank(data);
      && p.Populate? && p.startRow == startRow && p.startCol == startCol
      && startRow <= p.endRow < rowCount && startCol - 1 <= p.endCol < colCount
      && (p.endRow == rowCount - 1 || p.endRow == startRow + |d| - 1)
      && (p.endCol == colCount - 1 || p.endCol == startCol + MaxLen(d) - 1)
      && p.endRow <= startRow + |d| - 1 && p.endCol <= startCol + MaxLen(d) - 1
      && |p.block| == p.endRow - startRow + 1
      && forall i :: 0 <= i < |p.block| ==> p.block[i] == d[i][..Min(p.endCol - startCol + 1, |d[i]|)]
  {
  }

  /** Pasting nothing writes one empty cell at the start. */
  lemma PlaceNothing(startRow: int, startCol: int, rowCount: int, colCount: int)
    requires startRow < rowCount && startCol < colCount
    ensures Place([], startRow, startCol, rowCount, colCount) == Populate(startRow, startCol, [[""]], startRow, startCol)
  {
    var d: Matrix := [[""]];
    assert MaxLen(d) == 1 by {
      assert MaxLen(d[..0]) == 0;
    }
    assert OrBlank([]) == d;
    var p := Place([], startRow, startCol, rowCount, colCount);
    assert p.endRow == startRow && p.endCol == startCol;
    assert |p.block| == 1 && p.block[0] == Prefix(d[0], 1) == [""];
    assert p.block == d;
  }

  /** A rectangular block that fits is pasted whole. */
  lemma PlaceWhole(data: Matrix, w: nat, startRow: int, startCol: int, rowCount: int, colCount: int)
    requires data != [] && w >= 1 && forall r :: 0 <= r < |data| ==> |data[r]| == w
    requires 0 <= startRow && startRow + |data| <= rowCount && 0 <= startCol && startCol + w <= colCount
    ensures Place(data, startRow, startCol, rowCount, colCount) == Populate(startRow, startCol, data, startRow + |data| - 1, startCol + w - 1)
  {
    assert |data[0]| == w;
    var p := Place(data, startRow, startCol, rowCount, colCount);
    assert MaxLen(data) == w;
    assert |p.block| == |data|;
    forall i | 0 <= i < |data|
      ensures p.block[i] == data[i]
    {
      assert p.block[i] == Prefix(data[i], w);
    }
  }

  /** The paste anchor: the top-left corner of a selection, `(min row, min
   *  column)`. */
  function Anchor(sel: Selection): (a: (int, int))
    ensures a.0 <= sel.row1 && a.0 <= sel.row2 && (a.0 == sel.row1 || a.0 == sel.row2)
    ensures a.1 <= sel.col1 && a.1 <= sel.col2 && (a.1 == sel.col1 || a.1 == sel.col2)
  {
    (Min(sel.row1, sel.row2), Min(sel.col1, sel.col2))
  }

  /** What a paste ends in. */
  datatype PasteOutcome =
    | Ignored               // not a paste, edit mode off, or no text
    | ClipboardUnavailable  // the alert that the clipboard cannot be used
    | NoSelection           // nothing selected to paste into
    | Placed(placement: Placement)

  /** `processPastedData(text)` against the current selection and table
   *  size. */
  function Processed(text: string, selected: seq<Selection>, rowCount: int, colCount: int): (r: PasteOutcome)
    ensures r == NoSelection <==> selected == []
    ensures selected != [] ==> r.Placed?
    ensures r.Placed? && r.placement.Populate? ==>
      r.placement.startRow == Min(selected[0].row1, selected[0].row2) && r.placement.startCol == Min(selected[0].col1, selected[0].col2)
  {
    if selected == [] then NoSelection
    else
      var (startRow, startCol) := Anchor(selected[0]);
      Placed(Place(Rectified(ParsePastedText(text)), startRow, startCol, rowCount, colCount))
  }

  /** A paste always lands at the first selection's top-left corner and
   *  never writes more rows than the text has lines. */
  lemma ProcessedAtAnchor(text: string, selected: seq<Selection>, rowCount: int, colCount: int)
    requires selected != []
    ensures var out := Processed(text, selected, rowCount, colCount);
      var sel := selected[0];
      var lines := |ParsePastedText(text)|;
      && out.Placed?
      && (out.placement.Populate? ==>
            && out.placement.startRow == Min(sel.row1, sel.row2)
            && out.placement.startCol == Min(sel.col1, sel.col2)
            && |out.placement.block| <= if lines == 0 then 1 else lines)
  {
    var (startRow, startCol) := Anchor(selected[0]);
    var data := Rectified(ParsePastedText(text));
    if startRow < rowCount && startCol < colCount {
      PlaceClipsToTable(data, startRow, startCol, rowCount, colCount);
    }
  }

  class PasteHandler {
    /** Whether the clipboard may be read, fixed at construction. */
    const isClipboardAvailable: bool
    /** Edit mode, switched by the edit-mode toggle. */
    var isEdit: bool

    constructor(isClipboardAvailable: bool)
      ensures this.isClipboardAvailable == isClipboardAvailable && !isEdit
    {
      this.isClipboardAvailable := isClipboardAvailable;
      isEdit := false;
    }

    /** `setIsEdit(isEdit)`. */
    method SetIsEdit(isEdit: bool)
      modifies this
      ensures this.isEdit == isEdit
    {
      this.isEdit := isEdit;
    }

    /** `processPasteEvent`, then `processPastedData`: `text` is what the
     *  clipboard gave, `None` for `null` or `undefined`. */
    method ProcessPasteEvent(text: Option<string>, selected: seq<Selection>, rowCount: int, colCount: int)
      returns (outcome: PasteOutcome)
      ensures text.None? ==> outcome == Ignored
      ensures text.Some? ==> outcome == Processed(text.value, selected, rowCount, colCount)
    {
      if text.None? {
        return Ignored;
      }
      var raw := ParsePastedText(text.value);
      var data := RectifyAndSanitize(raw);
      if |selected| == 0 {
        return NoSelection;
      }
      var sel := selected[0];
      var startRow := Min(sel.row1, sel.row2);
      var startCol := Min(sel.col1, sel.col2);
      return Placed(Place(data, startRow, startCol, rowCount, colCount));
    }

    /** The paste event of the context menu: refused with an alert when the
     *  clipboard cannot be used, carried out only in edit mode. */
    method HandlePaste(text: Option<string>, selected: seq<Selection>, rowCount: int, colCount: int)
      returns (outcome: PasteOutcome)
      ensures !isClipboardAvailable ==> outcome == ClipboardUnavailable
      ensures isClipboardAvailable && !isEdit ==> outcome == Ignored
      ensures isClipboardAvailable && isEdit && text.Some? ==> outcome == Processed(text.value, selected, rowCount, colCount)
      ensures outcome.Placed? || outcome.NoSelection? ==> isClipboardAvailable && isEdit && text.Some?
    {
      if !isClipboardAvailable {
        return ClipboardUnavailable;
      }
      if isEdit {
        outcome := ProcessPasteEvent(text, selected, rowCount, colCount);
      } else {
        outcome := Ignored;
      }
    }

    /** A key press: only Ctrl+V or Cmd+V is a paste, then as for the paste
     *  event. */
    method HandleKeyboardPaste(ctrlKey: bool, metaKey: bool, key: string, text: Option<string>,
                               selected: seq<Selection>, rowCount: int, colCount: int)
      returns (outcome: PasteOutcome)
      ensures !(ctrlKey || metaKey) || key != "v" ==> outcome == Ignored
      ensures (ctrlKey || metaKey) && key == "v" && !isClipboardAvailable ==> outcome == ClipboardUnavailable
      ensures (ctrlKey || metaKey) && key == "v" && isClipboardAvailable && isEdit && text.Some? ==>
                outcome == Processed(text.value, selected, rowCount, colCount)
      ensures outcome.Placed? || outcome.NoSelection? ==> (ctrlKey || metaKey) && key == "v" && isClipboardAvailable && isEdit
    {
      outcome := Ignored;
      if (ctrlKey || metaKey) && key == "v" {
        if !isClipboardAvailable {
          return ClipboardUnavailable;
        }
        if isEdit {
          outcome := ProcessPasteEvent(text, selected, rowCount, colCount);
        }
      }
    }
  }
}
