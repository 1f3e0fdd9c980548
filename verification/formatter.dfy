/**
 * The box-drawing table printer (src/formatter.rs). Its printed output is
 * modelled as the sequence of lines it prints: a top border, the header line,
 * a separator, one line per row, a bottom border and a blank line. Lengths
 * count characters, which match the source's byte lengths for ASCII cells.
 */
module BoxTable {
  import opened Common
  import opened Connector

  const TOP_LEFT := '┌'
  const TOP_RIGHT := '┐'
  const BOTTOM_LEFT := '└'
  const BOTTOM_RIGHT := '┘'
  const HORIZONTAL := '─'
  const VERTICAL := '│'
  const CROSS := '┼'
  const TOP_T := '┬'
  const BOTTOM_T := '┴'
  const LEFT_T := '├'
  const RIGHT_T := '┤'

  /** Every row has a value under every header; otherwise the source's `unwrap` panics. */
  predicate HasAllColumns(t: MySqlTable) {
    forall r, i :: 0 <= r < |t.values| && 0 <= i < |t.headers| ==> t.headers[i] in t.values[r]
  }

  /**
   * A fetched result can be printed without a panic when every row has a
   * column of each name the first row has, as the rows of one result set do.
   */
  lemma ResultSetPrintable(rows: seq<Row>)
    requires forall r, j :: 0 <= r < |rows| && 0 <= j < |rows[0]| ==>
               exists c :: c in rows[r] && c.name == rows[0][j].name
    ensures HasAllColumns(TableOf(rows))
  {
    var t := TableOf(rows);
    forall r, i | 0 <= r < |t.values| && 0 <= i < |t.headers|
      ensures t.headers[i] in t.values[r]
    {
      RowMapKeys(rows[r]);
    }
  }

  function Max(a: nat, b: nat): nat {
    if a < b then b else a
  }

  /** Column `i`'s width after the first `n` rows: the longest of its header and its first `n` cells. */
  function WidthUpTo(t: MySqlTable, i: nat, n: nat): nat
    requires HasAllColumns(t) && i < |t.headers| && n <= |t.values|
  {
    if n == 0 then |t.headers[i]|
    else Max(WidthUpTo(t, i, n - 1), |t.values[n - 1][t.headers[i]]|)
  }

  function Widths(t: MySqlTable): (ws: seq<nat>)
    requires HasAllColumns(t)
    ensures |ws| == |t.headers|
  {
    seq(|t.headers|, i requires 0 <= i < |t.headers| => WidthUpTo(t, i, |t.values|))
  }

  /** A column's width is the length of its header or of one of its cells, and no shorter than any of them. */
  lemma {:induction false} WidthIsMaximum(t: MySqlTable, i: nat, n: nat)
    requires HasAllColumns(t) && i < |t.headers| && n <= |t.values|
    ensures |t.headers[i]| <= WidthUpTo(t, i, n)
    ensures forall r :: 0 <= r < n ==> |t.values[r][t.headers[i]]| <= WidthUpTo(t, i, n)
    ensures WidthUpTo(t, i, n) == |t.headers[i]|
            || exists r :: 0 <= r < n && WidthUpTo(t, i, n) == |t.values[r][t.headers[i]]|
    decreases n
  {
    if n > 0 {
      WidthIsMaximum(t, i, n - 1);
      if WidthUpTo(t, i, n) != WidthUpTo(t, i, n - 1) {
        assert WidthUpTo(t, i, n) == |t.values[n - 1][t.headers[i]]|;
      }
    }
  }

  function Repeat(c: char, n: nat): (r: string)
    ensures |r| == n && forall j :: 0 <= j < n ==> r[j] == c
  {
    seq(n, _ => c)
  }

  /** `{:>width$}`: right-aligned in `w` columns with leading spaces; a longer text is kept whole. */
  function PadLeft(s: string, w: nat): (r: string)
    ensures |r| == Max(|s|, w)
    ensures IsSuffixOf(s, r)
    ensures forall j :: 0 <= j < |r| - |s| ==> r[j] == ' '
  {
    if |s| < w then Repeat(' ', w - |s|) + s else s
  }

  /** The part of a border for column `i`: its run of horizontals, then `mid` unless it is the last column. */
  function BorderPart(ws: seq<nat>, mid: char, i: nat): string
    requires i < |ws|
  {
    Repeat(HORIZONTAL, ws[i] + 2) + (if i != |ws| - 1 then [mid] else [])
  }

  function BorderUpTo(ws: seq<nat>, mid: char, n: nat): string
    requires n <= |ws|
  {
    if n == 0 then [] else BorderUpTo(ws, mid, n - 1) + BorderPart(ws, mid, n - 1)
  }

  /** A border line: a corner, each column's horizontals with `mid` between columns, a corner. */
  function Border(left: char, mid: char, right: char, ws: seq<nat>): string {
    [left] + BorderUpTo(ws, mid, |ws|) + [right]
  }

  function CellsUpTo(cells: seq<string>, ws: seq<nat>, n: nat): string
    requires |cells| == |ws| && n <= |ws|
  {
    if n == 0 then [] else CellsUpTo(cells, ws, n - 1) + PadLeft(cells[n - 1], ws[n - 1]) + [' ', VERTICAL, ' ']
  }

  /** A header or data line: a bar, then each cell right-aligned to its width and followed by a bar. */
  function CellLine(cells: seq<string>, ws: seq<nat>): string
    requires |cells| == |ws|
  {
    [VERTICAL, ' '] + CellsUpTo(cells, ws, |ws|)
  }

  /** The cells of row `r`, in header order. */
  function RowCells(t: MySqlTable, r: nat): (cells: seq<string>)
    requires HasAllColumns(t) && r < |t.values|
    ensures |cells| == |t.headers|
  {
    seq(|t.headers|, i requires 0 <= i < |t.headers| => t.values[r][t.headers[i]])
  }

  /** One line per row, in row order. */
  function RowLines(t: MySqlTable, ws: seq<nat>): (lines: seq<string>)
    requires HasAllColumns(t) && |ws| == |t.headers|
    ensures |lines| == |t.values|
  {
    seq(|t.values|, r requires 0 <= r < |t.values| => CellLine(RowCells(t, r), ws))
  }

  /** Everything `print_table` prints, line by line. */
  function Render(t: MySqlTable): seq<string>
    requires HasAllColumns(t)
  {
    var ws := Widths(t);
    [Border(TOP_LEFT, TOP_T, TOP_RIGHT, ws), CellLine(t.headers, ws), Border(LEFT_T, CROSS, RIGHT_T, ws)]
    + RowLines(t, ws)
    + [Border(BOTTOM_LEFT, BOTTOM_T, BOTTOM_RIGHT, ws), ""]
  }

  /** The columns' total span: each width plus three for the padding spaces and a bar. */
  function Span(ws: seq<nat>, n: nat): nat
    requires n <= |ws|
  {
    if n == 0 then 0 else Span(ws, n - 1) + ws[n - 1] + 3
  }

  /** The output has the three top lines, a line per row in row order, the bottom border and a blank line. */
  lemma RenderShape(t: MySqlTable)
    requires HasAllColumns(t)
    ensures |Render(t)| == |t.values| + 5
    ensures Render(t)[0] == Border(TOP_LEFT, TOP_T, TOP_RIGHT, Widths(t))
    ensures Render(t)[1] == CellLine(t.headers, Widths(t))
    ensures Render(t)[2] == Border(LEFT_T, CROSS, RIGHT_T, Widths(t))
    ensures forall r :: 0 <= r < |t.values| ==> Render(t)[3 + r] == CellLine(RowCells(t, r), Widths(t))
    ensures Render(t)[|t.values| + 3] == Border(BOTTOM_LEFT, BOTTOM_T, BOTTOM_RIGHT, Widths(t))
    ensures Render(t)[|t.values| + 4] == ""
  {
    var ws := Widths(t);
    var front := [Border(TOP_LEFT, TOP_T, TOP_RIGHT, ws), CellLine(t.headers, ws), Border(LEFT_T, CROSS, RIGHT_T, ws)];
    var back := [Border(BOTTOM_LEFT, BOTTOM_T, BOTTOM_RIGHT, ws), ""];
    var rows := RowLines(t, ws);
    assert Render(t) == front + rows + back;
    forall r | 0 <= r < |t.values|
      ensures Render(t)[3 + r] == CellLine(RowCells(t, r), ws)
    {
      Middle(front, rows, back, r);
    }
  }

  lemma Middle<T>(a: seq<T>, m: seq<T>, b: seq<T>, i: nat)
    requires i < |m|
    ensures (a + m + b)[|a| + i] == m[i]
  {
  }

  /** A border is two corners around each column's `w + 2` horizontals and the `n - 1` joints. */
  lemma {:induction false} BorderLength(ws: seq<nat>, mid: char, n: nat)
    requires n <= |ws|
    ensures |BorderUpTo(ws, mid, n)| == Span(ws, n) - n + (if n == |ws| && n > 0 then n - 1 else n)
    decreases n
  {
    if n > 0 {
      BorderLength(ws, mid, n - 1);
    }
  }

  /** With every cell within its width, a cell line is the bar and space plus the span. */
  lemma {:induction false} CellsLength(cells: seq<string>, ws: seq<nat>, n: nat)
    requires |cells| == |ws| && n <= |ws|
    requires forall i :: 0 <= i < |ws| ==> |cells[i]| <= ws[i]
    ensures |CellsUpTo(cells, ws, n)| == Span(ws, n)
    decreases n
  {
    if n > 0 {
      CellsLength(cells, ws, n - 1);
    }
  }

  /**
   * Header and data lines all have length `2 + Σ(w + 3)`: no cell is wider
   * than its column, so no padding is ever short. Borders have length
   * `1 + Σ(w + 3)`, or 2 when there are no columns.
   */
  lemma LineLengths(t: MySqlTable)
    requires HasAllColumns(t)
    ensures var ws := Widths(t);
            && |CellLine(t.headers, ws)| == 2 + Span(ws, |ws|)
            && (forall r :: 0 <= r < |t.values| ==> |CellLine(RowCells(t, r), ws)| == 2 + Span(ws, |ws|))
            && (forall l, m, rt :: |Border(l, m, rt, ws)| == if ws == [] then 2 else 1 + Span(ws, |ws|))
  {
    var ws := Widths(t);
    forall i | 0 <= i < |ws| ensures |t.headers[i]| <= ws[i] {
      WidthIsMaximum(t, i, |t.values|);
    }
    CellsLength(t.headers, ws, |ws|);
    forall r | 0 <= r < |t.values|
      ensures |CellLine(RowCells(t, r), ws)| == 2 + Span(ws, |ws|)
    {
      forall i | 0 <= i < |ws| ensures |RowCells(t, r)[i]| <= ws[i] {
        WidthIsMaximum(t, i, |t.values|);
      }
      CellsLength(RowCells(t, r), ws, |ws|);
    }
    forall l, m, rt ensures |Border(l, m, rt, ws)| == if ws == [] then 2 else 1 + Span(ws, |ws|) {
      BorderLength(ws, m, |ws|);
    }
  }

  /** Computes the column widths: header lengths, widened by each row's cells. */
  method ColumnWidths(t: MySqlTable) returns (maxLengths: array<nat>)
    requires HasAllColumns(t)
    ensures fresh(maxLengths) && maxLengths[..] == Widths(t)
  {
    maxLengths := new nat[|t.headers|](i requires 0 <= i < |t.headers| => |t.headers[i]|);
    for r := 0 to |t.values|
      invariant forall i :: 0 <= i < maxLengths.Length ==> maxLengths[i] == WidthUpTo(t, i, r)
    {
      for i := 0 to |t.headers|
        invariant forall j :: 0 <= j < maxLengths.Length ==>
                    maxLengths[j] == WidthUpTo(t, j, if j < i then r + 1 else r)
      {
        var column := t.values[r][t.headers[i]];
        maxLengths[i] := Max(maxLengths[i], |column|);
      }
    }
  }

  /** Prints one border with the given corners and joint. */
  method BorderLine(left: char, mid: char, right: char, maxLengths: array<nat>) returns (line: string)
    ensures line == Border(left, mid, right, maxLengths[..])
  {
    ghost var ws := maxLengths[..];
    var body := [];
    for i := 0 to maxLengths.Length
      invariant body == BorderUpTo(ws, mid, i)
    {
      var part := [];
      for j := 0 to maxLengths[i] + 2
        invariant part == Repeat(HORIZONTAL, j)
      {
        part := part + [HORIZONTAL];
      }
      if i != maxLengths.Length - 1 {
        part := part + [mid];
      }
      body := body + part;
    }
    line := [left] + body + [right];
  }

  /** Prints one header or data line. */
  method CellsLine(cells: seq<string>, maxLengths: array<nat>) returns (line: string)
    requires |cells| == maxLengths.Length
    ensures line == CellLine(cells, maxLengths[..])
  {
    ghost var ws := maxLengths[..];
    var body := [];
    for i := 0 to maxLengths.Length
      invariant body == CellsUpTo(cells, ws, i)
    {
      body := body + PadLeft(cells[i], maxLengths[i]) + [' ', VERTICAL, ' '];
    }
    line := [VERTICAL, ' '] + body;
  }

  /** Gathers row `r`'s cells in header order. */
  method CellsOfRow(t: MySqlTable, r: nat) returns (cells: seq<string>)
    requires HasAllColumns(t) && r < |t.values|
    ensures cells == RowCells(t, r)
  {
    cells := [];
    for i := 0 to |t.headers|
      invariant cells == RowCells(t, r)[..i]
    {
      cells := cells + [t.values[r][t.headers[i]]];
    }
  }

  /** Prints the data lines, one per row in row order. */
  method PrintRows(t: MySqlTable, maxLengths: array<nat>) returns (rowLines: seq<string>)
    requires HasAllColumns(t) && maxLengths.Length == |t.headers|
    ensures rowLines == RowLines(t, maxLengths[..])
  {
    ghost var ws := maxLengths[..];
    rowLines := [];
    for r := 0 to |t.values|
      invariant rowLines == RowLines(t, ws)[..r]
    {
      var cells := CellsOfRow(t, r);
      var line := CellsLine(cells, maxLengths);
      TakeSnoc(RowLines(t, ws), r);
      rowLines := rowLines + [line];
    }
  }

  /** `print_table`: the lines printed for `t`. */
  method PrintTable(t: MySqlTable) returns (lines: seq<string>)
    requires HasAllColumns(t)
    ensures lines == Render(t)
  {
    var maxLengths := ColumnWidths(t);
    var top := BorderLine(TOP_LEFT, TOP_T, TOP_RIGHT, maxLengths);
    var header := CellsLine(t.headers, maxLengths);
    var middle := BorderLine(LEFT_T, CROSS, RIGHT_T, maxLengths);
    var rowLines := PrintRows(t, maxLengths);
    var bottom := BorderLine(BOTTOM_LEFT, BOTTOM_T, BOTTOM_RIGHT, maxLengths);
    lines := [top, header, middle] + rowLines + [bottom, ""];
  }
}
