/** Console table layout: column widths, left-justified cells, ` | `-joined lines. */
module Table {
  import opened Text

  function Max(a: nat, b: nat): nat
  {
    if a >= b then a else b
  }

  /** The inner loop of the width computation: widens `width` to each row's cell in
      column `col`, skipping rows too short to have one. */
  function WidenColumn(rows: seq<seq<string>>, col: nat, width: nat): (w: nat)
    ensures w >= width
    ensures forall r :: 0 <= r < |rows| && col < |rows[r]| ==> w >= |rows[r][col]|
    ensures w == width || exists r :: 0 <= r < |rows| && col < |rows[r]| && w == |rows[r][col]|
    decreases |rows|
  {
    if rows == [] then width
    else
      var next := if col < |rows[0]| then Max(width, |rows[0][col]|) else width;
      var w := WidenColumn(rows[1..], col, next);
      assert forall r :: 1 <= r < |rows| ==> rows[r] == rows[1..][r - 1];
      w
  }

  /** One width per header column: the longest of the header cell and the cells below it. */
  function ColumnWidths(header: seq<string>, rows: seq<seq<string>>): (widths: seq<nat>)
    ensures |widths| == |header|
    ensures forall i :: 0 <= i < |header| ==> widths[i] >= |header[i]|
    ensures forall r, i :: 0 <= r < |rows| && 0 <= i < |rows[r]| && i < |header| ==>
      widths[i] >= |rows[r][i]|
  {
    seq(|header|, i requires 0 <= i < |header| => WidenColumn(rows, i, |header[i]|))
  }

  /** No column is wider than needed: each width is the header cell's length or the
      length of some cell below it. */
  lemma ColumnWidthsTight(header: seq<string>, rows: seq<seq<string>>, i: nat)
    requires i < |header|
    ensures var w := ColumnWidths(header, rows)[i];
      w == |header[i]| || exists r :: 0 <= r < |rows| && i < |rows[r]| && w == |rows[r][i]|
  {
    assert ColumnWidths(header, rows)[i] == WidenColumn(rows, i, |header[i]|);
  }

  /** `s.ljust(width)`: `s` followed by as many spaces as it falls short of `width`. */
  function LJust(s: string, width: nat): (r: string)
    ensures |r| == Max(|s|, width)
    ensures r[..|s|] == s
    ensures forall k :: |s| <= k < |r| ==> r[k] == ' '
  {
    if |s| >= width then s else s + Repeat(' ', width - |s|)
  }

  /** Each cell left-justified to its column's width. */
  function PadCells(cells: seq<string>, widths: seq<nat>): (padded: seq<string>)
    requires |cells| <= |widths|
    ensures |padded| == |cells|
    ensures forall i :: 0 <= i < |cells| ==> padded[i] == LJust(cells[i], widths[i])
  {
    seq(|cells|, i requires 0 <= i < |cells| => LJust(cells[i], widths[i]))
  }

  const ColumnSeparator := " | "

  /** One printed line: the padded cells joined by ` | `. */
  function FormatLine(cells: seq<string>, widths: seq<nat>): (line: string)
    requires |cells| <= |widths|
    ensures cells != [] ==>
      |line| == Sum(Lengths(PadCells(cells, widths))) + |ColumnSeparator| * (|cells| - 1)
  {
    var padded := PadCells(cells, widths);
    if padded == [] then Join(padded, ColumnSeparator)
    else
      JoinLayout(padded, 0);
      Join(padded, ColumnSeparator)
  }

  function Sum(ns: seq<nat>): nat
  {
    if ns == [] then 0 else ns[0] + Sum(ns[1..])
  }

  /** The offset at which column `i` starts in a line. */
  function ColumnStart(widths: seq<nat>, i: nat): nat
    requires i <= |widths|
  {
    Sum(widths[..i]) + |ColumnSeparator| * i
  }

  function Lengths(parts: seq<string>): (ns: seq<nat>)
    ensures |ns| == |parts|
    ensures forall i :: 0 <= i < |parts| ==> ns[i] == |parts[i]|
  {
    seq(|parts|, i requires 0 <= i < |parts| => |parts[i]|)
  }

  /** Where each part lands in a joined string, and the joined string's length. */
  lemma {:induction false} JoinLayout(parts: seq<string>, i: nat)
    requires i < |parts|
    ensures |Join(parts, ColumnSeparator)| == Sum(Lengths(parts)) + |ColumnSeparator| * (|parts| - 1)
    ensures ColumnStart(Lengths(parts), i) + |parts[i]| <= |Join(parts, ColumnSeparator)|
    ensures Join(parts, ColumnSeparator)[ColumnStart(Lengths(parts), i)..ColumnStart(Lengths(parts), i) + |parts[i]|]
      == parts[i]
    decreases |parts|
  {
    var ls := Lengths(parts);
    if |parts| == 1 {
      assert ls[..i] == [];
      assert Sum(ls[1..]) == 0;
    } else {
      var tail := parts[1..];
      var j := if i == 0 then 0 else i - 1;
      JoinLayout(tail, j);
      var joined := Join(parts, ColumnSeparator);
      assert joined == parts[0] + ColumnSeparator + Join(tail, ColumnSeparator);
      assert Lengths(tail) == ls[1..];
      if i == 0 {
        assert ls[..0] == [];
      } else {
        assert ls[..i] == [ls[0]] + ls[1..][..i - 1];
        assert ColumnStart(ls, i) == |parts[0]| + |ColumnSeparator| + ColumnStart(ls[1..], i - 1);
      }
    }
  }

  /** A row whose cells all fit their columns prints each padded cell at its column's
      start, exactly that column's width long. */
  lemma LineLayout(cells: seq<string>, widths: seq<nat>, i: nat)
    requires |cells| == |widths|
    requires forall k :: 0 <= k < |cells| ==> |cells[k]| <= widths[k]
    requires i < |cells|
    ensures |FormatLine(cells, widths)| == Sum(widths) + |ColumnSeparator| * (|widths| - 1)
    ensures ColumnStart(widths, i) + widths[i] <= |FormatLine(cells, widths)|
    ensures FormatLine(cells, widths)[ColumnStart(widths, i)..ColumnStart(widths, i) + widths[i]]
      == LJust(cells[i], widths[i])
  {
    var padded := PadCells(cells, widths);
    assert Lengths(padded) == widths;
    JoinLayout(padded, i);
  }

  /** `print_summary_table`'s layout: the header line, a rule of dashes as long as it,
      then one line per row. */
  function RenderTable(header: seq<string>, rows: seq<seq<string>>): (lines: seq<string>)
    requires forall r :: 0 <= r < |rows| ==> |rows[r]| <= |header|
    ensures |lines| == |rows| + 2
    ensures lines[1] == Repeat('-', |lines[0]|)
    ensures lines[0] == FormatLine(header, ColumnWidths(header, rows))
    ensures forall r :: 0 <= r < |rows| ==> lines[r + 2] == FormatLine(rows[r], ColumnWidths(header, rows))
  {
    var widths := ColumnWidths(header, rows);
    var headerLine := FormatLine(header, widths);
    [headerLine, Repeat('-', |headerLine|)]
      + seq(|rows|, r requires 0 <= r < |rows| => FormatLine(rows[r], widths))
  }

  /** Columns line up: in the header line and in every full-width row line, column `i`
      starts at the same offset and holds that row's cell padded to the column width,
      which fits every cell of the column. */
  lemma ColumnsAligned(header: seq<string>, rows: seq<seq<string>>, widths: seq<nat>, lines: seq<string>, r: nat, i: nat)
    requires forall k :: 0 <= k < |rows| ==> |rows[k]| <= |header|
    requires widths == ColumnWidths(header, rows) && lines == RenderTable(header, rows)
    requires r < |rows| && |rows[r]| == |header|
    requires i < |header|
    ensures |lines[r + 2]| == |lines[0]|
    ensures |header[i]| <= widths[i] && |rows[r][i]| <= widths[i]
    ensures ColumnStart(widths, i) + widths[i] <= |lines[0]|
    ensures lines[0][ColumnStart(widths, i)..ColumnStart(widths, i) + widths[i]] == LJust(header[i], widths[i])
    ensures lines[r + 2][ColumnStart(widths, i)..ColumnStart(widths, i) + widths[i]] == LJust(rows[r][i], widths[i])
  {
    var row := rows[r];
    assert forall k :: 0 <= k < |row| ==> |row[k]| <= widths[k];
    LineLayout(header, widths, i);
    LineLayout(row, widths, i);
  }

  /** When every row has a cell for each header column, every row line is exactly as
      long as the header line. */
  lemma UniformRowLines(header: seq<string>, rows: seq<seq<string>>, r: nat)
    requires forall k :: 0 <= k < |rows| ==> |rows[k]| == |header|
    requires r < |rows|
    ensures |RenderTable(header, rows)[r + 2]| == |RenderTable(header, rows)[0]|
  {
    if header != [] {
      ColumnsAligned(header, rows, ColumnWidths(header, rows), RenderTable(header, rows), r, 0);
    } else {
      assert rows[r] == [];
    }
  }
}
