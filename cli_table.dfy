/**
 * `Table` of the command-line tool (`rocal_cli/src/commands/utils/table.rs`):
 * a header and rows of cells printed as a boxed text table whose columns are
 * as wide as their widest cell.
 *
 * A row may not have more cells than the header: the width loop indexes the
 * header's widths by cell position and panics past them. `Display` returns
 * `None` for that panic.
 */
module CliTable {
  import opened Wrappers
  import CliList

  function Max(a: nat, b: nat): nat {
    if a < b then b else a
  }

  /** Every row has at most as many cells as the header. */
  predicate Fits(header: seq<string>, rows: seq<seq<string>>) {
    forall j :: 0 <= j < |rows| ==> |rows[j]| <= |header|
  }

  /** The width of column `i` over the header and the given rows: its longest cell. */
  function ColWidth(header: seq<string>, rows: seq<seq<string>>, i: nat): nat
    requires i < |header|
    decreases |rows|
  {
    if rows == [] then |header[i]|
    else
      var last := rows[|rows| - 1];
      Max(ColWidth(header, rows[..|rows| - 1], i), if i < |last| then |last[i]| else 0)
  }

  function Widths(header: seq<string>, rows: seq<seq<string>>): (ws: seq<nat>)
    ensures |ws| == |header|
  {
    seq(|header|, i requires 0 <= i < |header| => ColWidth(header, rows, i))
  }

  /** A column is at least as wide as each of its cells, and as wide as one of them. */
  lemma {:induction false} ColWidthIsMax(header: seq<string>, rows: seq<seq<string>>, i: nat)
    requires i < |header|
    ensures ColWidth(header, rows, i) >= |header[i]|
    ensures forall j :: 0 <= j < |rows| && i < |rows[j]| ==> ColWidth(header, rows, i) >= |rows[j][i]|
    ensures ColWidth(header, rows, i) == |header[i]| ||
            exists j :: 0 <= j < |rows| && i < |rows[j]| && ColWidth(header, rows, i) == |rows[j][i]|
    decreases |rows|
  {
    if rows != [] {
      var n := |rows| - 1;
      ColWidthIsMax(header, rows[..n], i);
      assert forall j :: 0 <= j < n ==> rows[..n][j] == rows[j];
    }
  }

  /** The separator: `+`, then per column `width + 2` dashes and `+`. */
  function Separator(ws: seq<nat>): string
    decreases |ws|
  {
    if ws == [] then "+" else Separator(ws[..|ws| - 1]) + CliList.Repeat('-', ws[|ws| - 1] + 2) + "+"
  }

  /** `{:<width$}`: the text, then spaces up to the width. */
  function Pad(cell: string, w: nat): (s: string)
    ensures |s| == Max(|cell|, w) && s[..|cell|] == cell
  {
    cell + CliList.Repeat(' ', if |cell| < w then w - |cell| else 0)
  }

  /** The cells of a line, each as ` cell |`, padded to its column's width. */
  function Cells(cells: seq<string>, ws: seq<nat>): string
    requires |cells| <= |ws|
    decreases |cells|
  {
    if cells == [] then ""
    else Cells(cells[..|cells| - 1], ws) + " " + Pad(cells[|cells| - 1], ws[|cells| - 1]) + " |"
  }

  function Line(cells: seq<string>, ws: seq<nat>): string
    requires |cells| <= |ws|
  {
    "|" + Cells(cells, ws) + "\n"
  }

  /** The rows' lines one after the other. */
  function RowLines(rows: seq<seq<string>>, ws: seq<nat>): string
    requires forall j :: 0 <= j < |rows| ==> |rows[j]| <= |ws|
    decreases |rows|
  {
    if rows == [] then "" else RowLines(rows[..|rows| - 1], ws) + Line(rows[|rows| - 1], ws)
  }

  /** What `Display::fmt` writes: separator, header, separator, rows, separator; `None` where it panics. */
  function Rendered(header: seq<string>, rows: seq<seq<string>>): Option<string> {
    if !Fits(header, rows) then None
    else
      var ws := Widths(header, rows);
      var sep := Separator(ws) + "\n";
      Some(sep + Line(header, ws) + sep + RowLines(rows, ws) + sep)
  }

  /** The total width of a full line: `1 + Σ (width + 3)`. */
  function Total(ws: seq<nat>): nat
    decreases |ws|
  {
    if ws == [] then 1 else Total(ws[..|ws| - 1]) + ws[|ws| - 1] + 3
  }

  lemma {:induction false} SeparatorLength(ws: seq<nat>)
    ensures |Separator(ws)| == Total(ws)
    decreases |ws|
  {
    if ws != [] {
      SeparatorLength(ws[..|ws| - 1]);
    }
  }

  /** A line with a cell for every column, none wider than its column, is exactly as long as the separator. */
  lemma {:induction false} CellsLength(cells: seq<string>, ws: seq<nat>)
    requires |cells| == |ws| && forall i :: 0 <= i < |cells| ==> |cells[i]| <= ws[i]
    ensures |"|" + Cells(cells, ws)| == Total(ws)
    decreases |cells|
  {
    if cells != [] {
      var n := |cells| - 1;
      CellsLength(cells[..n], ws[..n]);
      CellsPrefix(cells[..n], ws, ws[..n]);
    }
  }

  /** The cells of a line depend only on the widths of its own columns. */
  lemma {:induction false} CellsPrefix(cells: seq<string>, ws: seq<nat>, vs: seq<nat>)
    requires |cells| <= |ws| && |cells| <= |vs| && ws[..|cells|] == vs[..|cells|]
    ensures Cells(cells, ws) == Cells(cells, vs)
    decreases |cells|
  {
    if cells != [] {
      var n := |cells| - 1;
      assert ws[..n] == ws[..|cells|][..n];
      assert vs[..n] == vs[..|cells|][..n];
      CellsPrefix(cells[..n], ws, vs);
      assert ws[n] == ws[..|cells|][n];
      assert vs[n] == vs[..|cells|][n];
    }
  }

  /** The header line is as long as the separator. */
  lemma HeaderLineLength(header: seq<string>, rows: seq<seq<string>>)
    ensures |"|" + Cells(header, Widths(header, rows))| == |Separator(Widths(header, rows))|
  {
    var ws := Widths(header, rows);
    forall i | 0 <= i < |header|
      ensures |header[i]| <= ws[i]
    {
      ColWidthIsMax(header, rows, i);
    }
    CellsLength(header, ws);
    SeparatorLength(ws);
  }

  /** A row with a cell for every column is as long as the separator. */
  lemma FullRowLength(header: seq<string>, rows: seq<seq<string>>, j: nat)
    requires j < |rows| && |rows[j]| == |header|
    ensures |"|" + Cells(rows[j], Widths(header, rows))| == |Separator(Widths(header, rows))|
  {
    var ws := Widths(header, rows);
    forall i | 0 <= i < |header|
      ensures |rows[j][i]| <= ws[i]
    {
      ColWidthIsMax(header, rows, i);
    }
    CellsLength(rows[j], ws);
    SeparatorLength(ws);
  }

  /** A row longer than the header makes `Display` panic. */
  lemma TooLongRow(header: seq<string>, rows: seq<seq<string>>, j: nat)
    requires j < |rows| && |rows[j]| > |header|
    ensures Rendered(header, rows).None?
  {
  }

  // ---- the loops of `Display::fmt` ----

  /** The width one row brings to column `i`. */
  lemma ColWidthStep(header: seq<string>, rows: seq<seq<string>>, j: nat, i: nat)
    requires j < |rows| && i < |header|
    ensures ColWidth(header, rows[..j + 1], i) ==
      Max(ColWidth(header, rows[..j], i), if i < |rows[j]| then |rows[j][i]| else 0)
  {
    assert rows[..j + 1][..j] == rows[..j];
  }

  /** The inner `for (i, cell) in row` loop: widen each column to the row's cell; `false` where it panics. */
  method Widen(header: seq<string>, rows: seq<seq<string>>, j: nat, ws: array<nat>) returns (ok: bool)
    requires j < |rows| && ws.Length == |header|
    requires forall i :: 0 <= i < |header| ==> ws[i] == ColWidth(header, rows[..j], i)
    modifies ws
    ensures ok <==> |rows[j]| <= |header|
    ensures ok ==> forall i :: 0 <= i < |header| ==> ws[i] == ColWidth(header, rows[..j + 1], i)
  {
    var row := rows[j];
    for i := 0 to |row|
      invariant i <= ws.Length
      invariant forall k :: 0 <= k < i ==> ws[k] == ColWidth(header, rows[..j + 1], k)
      invariant forall k :: i <= k < ws.Length ==> ws[k] == ColWidth(header, rows[..j], k)
    {
      if i >= ws.Length {
        return false;
      }
      ColWidthStep(header, rows, j, i);
      if |row[i]| > ws[i] {
        ws[i] := |row[i]|;
      }
    }
    forall k | |row| <= k < ws.Length
      ensures ws[k] == ColWidth(header, rows[..j + 1], k)
    {
      ColWidthStep(header, rows, j, k);
    }
    return |row| <= |header|;
  }

  /** `col_widths`: the header's lengths, widened row by row; `None` where the loop panics. */
  method ColumnWidths(header: seq<string>, rows: seq<seq<string>>) returns (r: Option<seq<nat>>)
    ensures r.None? <==> !Fits(header, rows)
    ensures r.Some? ==> r.value == Widths(header, rows)
  {
    var ws := new nat[|header|](i requires 0 <= i < |header| => |header[i]|);
    for j := 0 to |rows|
      invariant forall i :: 0 <= i < |header| ==> ws[i] == ColWidth(header, rows[..j], i)
      invariant forall j' :: 0 <= j' < j ==> |rows[j']| <= |header|
    {
      var ok := Widen(header, rows, j, ws);
      if !ok {
        return None;
      }
    }
    assert rows[..|rows|] == rows;
    return Some(ws[..]);
  }

  /** The `separator` string, pushed column by column. */
  method BuildSeparator(ws: seq<nat>) returns (s: string)
    ensures s == Separator(ws)
  {
    s := "+";
    for i := 0 to |ws|
      invariant s == Separator(ws[..i])
    {
      assert ws[..i + 1][..i] == ws[..i];
      s := s + CliList.Repeat('-', ws[i] + 2) + "+";
    }
    assert ws[..|ws|] == ws;
  }

  /** One line: `|`, then ` cell |` per cell, then the newline. */
  method WriteLine(cells: seq<string>, ws: seq<nat>) returns (s: string)
    requires |cells| <= |ws|
    ensures s == Line(cells, ws)
  {
    var body := "";
    for i := 0 to |cells|
      invariant body == Cells(cells[..i], ws)
    {
      assert cells[..i + 1][..i] == cells[..i];
      body := body + " " + Pad(cells[i], ws[i]) + " |";
    }
    assert cells[..|cells|] == cells;
    s := "|" + body + "\n";
  }

  /** The `for row in &self.rows` loop. */
  method WriteRows(rows: seq<seq<string>>, ws: seq<nat>) returns (s: string)
    requires forall j :: 0 <= j < |rows| ==> |rows[j]| <= |ws|
    ensures s == RowLines(rows, ws)
  {
    s := "";
    for j := 0 to |rows|
      invariant s == RowLines(rows[..j], ws)
    {
      assert rows[..j + 1][..j] == rows[..j];
      var line := WriteLine(rows[j], ws);
      s := s + line;
    }
    assert rows[..|rows|] == rows;
  }

  class Table {
    var header: seq<string>
    var rows: seq<seq<string>>

    constructor ()
      ensures header == [] && rows == []
    {
      header := [];
      rows := [];
    }

    /** `add_header`: replaces the header. */
    method AddHeader(h: seq<string>)
      modifies this
      ensures header == h && rows == old(rows)
    {
      header := h;
    }

    /** `add_row`: appends a row. */
    method AddRow(row: seq<string>)
      modifies this
      ensures rows == old(rows) + [row] && header == old(header)
    {
      rows := rows + [row];
    }

    /** `Display::fmt`. */
    method Display() returns (r: Option<string>)
      ensures r == Rendered(header, rows)
    {
      var ws := ColumnWidths(header, rows);
      if ws.None? {
        return None;
      }
      var sep := BuildSeparator(ws.value);
      sep := sep + "\n";
      var head := WriteLine(header, ws.value);
      var body := WriteRows(rows, ws.value);
      return Some(sep + head + sep + body + sep);
    }
  }
}
