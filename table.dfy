/**
 * `TablePrinter.print`: the column widths are the longest cell of each
 * column, found in nested loops over a widths buffer; then a border line,
 * one line per row with every cell padded to its column's width, and the
 * border again. The printed lines are returned instead of written out.
 */
module TablePrinter {
  import opened Wrappers
  import opened Text

  /** The `IndexError`s `print` raises: no rows at all, or a row with more cells than the first. */
  datatype TableError = NoRows | RowTooWide(row: nat)

  function Repeat(c: char, n: nat): (r: string)
    ensures |r| == n && forall i :: 0 <= i < n ==> r[i] == c
  {
    seq(n, _ => c)
  }

  function Max(a: nat, b: nat): nat { if a < b then b else a }

  /** The width of column `c`: its longest cell, or 0 when no row reaches it. */
  function Width(rows: seq<seq<string>>, c: nat): (w: nat)
    ensures forall r :: 0 <= r < |rows| && c < |rows[r]| ==> |rows[r][c]| <= w
    ensures w == 0 || exists r :: 0 <= r < |rows| && c < |rows[r]| && |rows[r][c]| == w
    decreases |rows|
  {
    if rows == [] then 0
    else
      var init := rows[..|rows| - 1];
      var last := rows[|rows| - 1];
      assert forall r :: 0 <= r < |init| ==> init[r] == rows[r];
      Max(Width(init, c), if c < |last| then |last[c]| else 0)
  }

  function Widths(rows: seq<seq<string>>, n: nat): (ws: seq<nat>)
    ensures |ws| == n && forall c :: 0 <= c < n ==> ws[c] == Width(rows, c)
  {
    seq(n, c requires 0 <= c < n => Width(rows, c))
  }

  /** No row has more cells than there are columns. */
  predicate Fits(rows: seq<seq<string>>, n: nat)
  {
    forall r :: 0 <= r < |rows| ==> |rows[r]| <= n
  }

  /** The first row with more than `n` cells, where the widths loop raises. */
  function FirstTooWide(rows: seq<seq<string>>, n: nat): (k: nat)
    requires !Fits(rows, n)
    ensures k < |rows| && |rows[k]| > n && Fits(rows[..k], n)
  {
    if |rows[0]| > n then 0
    else
      var k := FirstTooWide(rows[1..], n);
      assert forall r :: 0 <= r < k ==> rows[1..][r] == rows[r + 1];
      k + 1
  }

  /** A too-wide row with only fitting rows before it is the first too-wide row. */
  lemma FirstTooWideAt(rows: seq<seq<string>>, n: nat, k: nat)
    requires k < |rows| && |rows[k]| > n && Fits(rows[..k], n)
    ensures !Fits(rows, n) && FirstTooWide(rows, n) == k
  {
    assert |rows[k]| > n;
    var f := FirstTooWide(rows, n);
    forall r | 0 <= r < k ensures |rows[r]| <= n {
      assert rows[..k][r] == rows[r];
    }
    forall r | 0 <= r < f ensures |rows[r]| <= n {
      assert rows[..f][r] == rows[r];
    }
  }

  /** Each cells' text fits its column. */
  predicate CellsFit(row: seq<string>, ws: seq<nat>)
  {
    |row| <= |ws| && forall i :: 0 <= i < |row| ==> |row[i]| <= ws[i]
  }

  /** The `+---+---+` line: each column is its width plus two dashes wide. */
  function Border(ws: seq<nat>): string
  {
    "+" + Join(seq(|ws|, i requires 0 <= i < |ws| => Repeat('-', ws[i] + 2)), "+") + "+"
  }

  /** A cell with one space before it and enough spaces after it to fill `w + 2` characters. */
  function Pad(cell: string, w: nat): (r: string)
    requires |cell| <= w
    ensures |r| == w + 2
  {
    " " + cell + Repeat(' ', w - |cell| + 1)
  }

  function Padded(row: seq<string>, ws: seq<nat>): (r: seq<string>)
    requires CellsFit(row, ws)
    ensures |r| == |row| && forall i :: 0 <= i < |row| ==> r[i] == Pad(row[i], ws[i])
  {
    seq(|row|, i requires 0 <= i < |row| => Pad(row[i], ws[i]))
  }

  /** The `| a | b |` line of one row. */
  function RowLine(row: seq<string>, ws: seq<nat>): string
    requires CellsFit(row, ws)
  {
    "|" + Join(Padded(row, ws), "|") + "|"
  }

  /** What `print` writes for `rows`, line by line, or the error it raises before writing anything. */
  function Layout(rows: seq<seq<string>>): (r: Result<seq<string>, TableError>)
    ensures r.Err? <==> rows == [] || !Fits(rows, |rows[0]|)
    ensures rows != [] && r.Err? ==> r.error == RowTooWide(FirstTooWide(rows, |rows[0]|))
    ensures r.Ok? ==> |r.value| == |rows| + 2 && r.value[0] == r.value[|rows| + 1]
  {
    if rows == [] then Err(NoRows)
    else
      var n := |rows[0]|;
      if !Fits(rows, n) then Err(RowTooWide(FirstTooWide(rows, n)))
      else
        var ws := Widths(rows, n);
        assert forall r :: 0 <= r < |rows| ==> CellsFit(rows[r], ws);
        Ok([Border(ws)] + seq(|rows|, r requires 0 <= r < |rows| => RowLine(rows[r], ws)) + [Border(ws)])
  }

  /** `TablePrinter.print`. */
  method Print(rows: seq<seq<string>>) returns (r: Result<seq<string>, TableError>)
    ensures r == Layout(rows)
  {
    if |rows| == 0 {
      return Err(NoRows);
    }
    var widths := ColumnWidths(rows);
    if widths.Err? {
      return Err(widths.error);
    }
    var ws := widths.value;
    assert forall k :: 0 <= k < |rows| ==> CellsFit(rows[k], ws);
    var border := Border(ws);
    var lines := [border];
    var k := 0;
    while k < |rows|
      invariant 0 <= k <= |rows|
      invariant lines == [border] + seq(k, i requires 0 <= i < k => RowLine(rows[i], ws))
    {
      var line := FormatRow(rows[k], ws);
      lines := lines + [line];
      k := k + 1;
    }
    return Ok(lines + [border]);
  }

  /** The first loop of `print`: `col_widths`, or the row on which indexing it fails. */
  method ColumnWidths(rows: seq<seq<string>>) returns (r: Result<seq<nat>, TableError>)
    requires rows != []
    ensures Fits(rows, |rows[0]|) ==> r == Ok(Widths(rows, |rows[0]|))
    ensures !Fits(rows, |rows[0]|) ==> r == Err(RowTooWide(FirstTooWide(rows, |rows[0]|)))
  {
    var n := |rows[0]|;
    var widths := new nat[n](_ => 0);
    var k := 0;
    while k < |rows|
      invariant 0 <= k <= |rows|
      invariant Fits(rows[..k], n)
      invariant forall c :: 0 <= c < n ==> widths[c] == Width(rows[..k], c)
    {
      if |rows[k]| > n {
        FirstTooWideAt(rows, n, k);
        return Err(RowTooWide(k));
      }
      WidenColumns(widths, rows, k);
      assert rows[..k + 1][..k] == rows[..k];
      k := k + 1;
    }
    assert rows[..|rows|] == rows;
    assert widths[..] == Widths(rows, n);
    return Ok(widths[..]);
  }

  /** The inner loop: each cell of row `k` widens its column when it is longer. */
  method WidenColumns(widths: array<nat>, rows: seq<seq<string>>, k: nat)
    requires k < |rows| && |rows[k]| <= widths.Length
    requires forall c :: 0 <= c < widths.Length ==> widths[c] == Width(rows[..k], c)
    modifies widths
    ensures forall c :: 0 <= c < widths.Length ==> widths[c] == Width(rows[..k + 1], c)
  {
    var row := rows[k];
    assert rows[..k + 1][..k] == rows[..k];
    var j := 0;
    while j < |row|
      invariant 0 <= j <= |row|
      invariant forall c :: 0 <= c < widths.Length ==> widths[c] == if c < j then Width(rows[..k + 1], c) else Width(rows[..k], c)
    {
      widths[j] := Max(widths[j], |row[j]|);
      j := j + 1;
    }
  }

  /** One row's line, built from its padded cells as the inner loop of `print` does. */
  method FormatRow(row: seq<string>, ws: seq<nat>) returns (line: string)
    requires CellsFit(row, ws)
    ensures line == RowLine(row, ws)
  {
    var padded: seq<string> := [];
    var i := 0;
    while i < |row|
      invariant 0 <= i <= |row|
      invariant padded == Padded(row, ws)[..i]
    {
      var padding := ws[i] - |row[i]|;
      padded := padded + [" " + row[i] + Repeat(' ', padding + 1)];
      i := i + 1;
    }
    assert padded == Padded(row, ws);
    line := "|" + Join(padded, "|") + "|";
  }

  // ---------------------------------------------------------------- layout

  /** Total characters of a sequence of strings. */
  function SumLen(parts: seq<string>): nat
  {
    if parts == [] then 0 else |parts[0]| + SumLen(parts[1..])
  }

  /** The columns' share of a line: each column is its width plus two. */
  function Total(ws: seq<nat>): nat
  {
    if ws == [] then 0 else ws[0] + 2 + Total(ws[1..])
  }

  lemma {:induction false} JoinLength(parts: seq<string>, sep: string)
    requires parts != [] && |sep| == 1
    ensures |Join(parts, sep)| == SumLen(parts) + |parts| - 1
  {
    if |parts| > 1 {
      JoinLength(parts[1..], sep);
    }
  }

  lemma {:induction false} SumLenOfColumns(parts: seq<string>, ws: seq<nat>)
    requires |parts| == |ws|
    requires forall i :: 0 <= i < |ws| ==> |parts[i]| == ws[i] + 2
    ensures SumLen(parts) == Total(ws)
  {
    if parts != [] {
      SumLenOfColumns(parts[1..], ws[1..]);
    }
  }

  lemma {:induction false} JoinSnoc(parts: seq<string>, x: string, sep: string)
    requires parts != []
    ensures Join(parts + [x], sep) == Join(parts, sep) + sep + x
  {
    if |parts| > 1 {
      assert (parts + [x])[1..] == parts[1..] + [x];
      JoinSnoc(parts[1..], x, sep);
    }
  }

  /**
   * With at least one column and every row as long as the first, the
   * border and every row line have the same length: the columns' widths
   * plus two each, one bar between columns and one at each end.
   */
  lemma LayoutLineLengths(rows: seq<seq<string>>)
    requires rows != [] && |rows[0]| >= 1
    requires forall r :: 0 <= r < |rows| ==> |rows[r]| == |rows[0]|
    ensures Layout(rows).Ok?
    ensures var ws := Widths(rows, |rows[0]|);
            |Layout(rows).value| == |rows| + 2 &&
            forall i :: 0 <= i < |Layout(rows).value| ==> |Layout(rows).value[i]| == Total(ws) + |ws| + 1
  {
    var n := |rows[0]|;
    var ws := Widths(rows, n);
    assert forall r :: 0 <= r < |rows| ==> CellsFit(rows[r], ws);
    var body := seq(|rows|, r requires 0 <= r < |rows| => RowLine(rows[r], ws));
    var lines := Layout(rows).value;
    assert lines == [Border(ws)] + body + [Border(ws)];
    BorderLength(ws);
    forall i | 0 <= i < |lines| ensures |lines[i]| == Total(ws) + n + 1 {
      if 0 < i <= |rows| {
        assert lines[i] == body[i - 1];
        RowLineLength(rows[i - 1], ws);
      }
    }
  }

  /** A border is as long as the columns plus one `+` around each. */
  lemma BorderLength(ws: seq<nat>)
    requires ws != []
    ensures |Border(ws)| == Total(ws) + |ws| + 1
  {
    var dashes := seq(|ws|, i requires 0 <= i < |ws| => Repeat('-', ws[i] + 2));
    JoinLength(dashes, "+");
    SumLenOfColumns(dashes, ws);
  }

  /** A full row line is as long as the border. */
  lemma RowLineLength(row: seq<string>, ws: seq<nat>)
    requires CellsFit(row, ws) && row != [] && |row| == |ws|
    ensures |RowLine(row, ws)| == Total(ws) + |ws| + 1
  {
    var padded := Padded(row, ws);
    JoinLength(padded, "|");
    SumLenOfColumns(padded, ws);
  }

  /**
   * When no cell contains a bar, splitting a row line on `|` gives back its
   * padded cells between two empty ends, and each padded cell holds the
   * cell's text right after its leading space.
   */
  lemma RowLineCells(row: seq<string>, ws: seq<nat>)
    requires CellsFit(row, ws) && row != []
    requires forall i :: 0 <= i < |row| ==> '|' !in row[i]
    ensures Split(RowLine(row, ws), '|') == [""] + Padded(row, ws) + [""]
    ensures forall i :: 0 <= i < |row| ==> Padded(row, ws)[i][1..|row[i]| + 1] == row[i]
  {
    var padded := Padded(row, ws);
    var parts := [""] + padded + [""];
    forall k | 0 <= k < |parts| ensures '|' !in parts[k] {
      if 0 < k < |parts| - 1 {
        var i := k - 1;
        assert parts[k] == " " + row[i] + Repeat(' ', ws[i] - |row[i]| + 1);
      }
    }
    JoinSnoc(padded, "", "|");
    assert ([""] + padded + [""])[1..] == padded + [""];
    assert Join(parts, "|") == RowLine(row, ws);
    SplitJoin(parts, '|');
  }
}
