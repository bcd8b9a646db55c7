/** The box-drawing table renderer of util.py (main.py carries an identical copy): `grid_str`
    lays out a table whose cells may hold several whitespace-separated tokens, one token per
    physical line, centred in columns as wide as their widest token. */
module Grid {
  import opened Wrappers
  import opened Ordering
  import opened Strings

  const BoxHorizontal: char := '\U{2500}'
  const BoxVertical: char := '\U{2502}'
  const BoxDownAndRight: char := '\U{250C}'
  const BoxDownAndHorizontal: char := '\U{252C}'
  const BoxVerticalAndHorizontal: char := '\U{253C}'

  /** A table cell: the tables handed to grid_str mix strings and integers. */
  datatype Cell = Text(s: string) | Num(n: int)

  /** str(cell). */
  function CellText(c: Cell): string
  {
    match c
    case Text(s) => s
    case Num(n) => IntToString(n)
  }

  /** surround(first_column, two_d_list, last_column): adds a first and a last column. */
  function Surround<T>(first: seq<T>, rows: seq<seq<T>>, last: seq<T>): (r: Result<seq<seq<T>>>)
    ensures r.Err? <==> |first| != |rows| || |last| != |rows|
    ensures r.Err? ==> r.error == ValueError
    ensures r.Ok? ==> |r.value| == |rows| && forall i :: 0 <= i < |rows| ==>
      var row := r.value[i];
      |row| == |rows[i]| + 2 && row[0] == first[i] && row[|row| - 1] == last[i]
      && row[1..|row| - 1] == rows[i]
    ensures r.Ok? ==> forall i :: 0 <= i < |rows| ==> r.value[i] == [first[i]] + rows[i] + [last[i]]
  {
    if |first| != |rows| || |last| != |rows| then Err(ValueError)
    else
      var out := seq(|rows|, i requires 0 <= i < |rows| => [first[i]] + rows[i] + [last[i]]);
      assert forall i :: 0 <= i < |rows| ==> out[i][1..|out[i]| - 1] == rows[i];
      Ok(out)
  }

  // ---------------------------------------------------------------- sizes

  /** The length of the longest whitespace-separated token of a cell, or 0 when it has none. */
  function MaxTokenLength(cell: string): (n: nat)
    ensures forall k :: 0 <= k < |Split(cell)| ==> |Split(cell)[k]| <= n
    ensures n == 0 || exists k :: 0 <= k < |Split(cell)| && |Split(cell)[k]| == n
  {
    MaxOrZero(TokenLengths(Split(cell)))
  }

  function TokenLengths(tokens: seq<string>): (lens: seq<nat>)
    ensures |lens| == |tokens| && forall k :: 0 <= k < |tokens| ==> lens[k] == |tokens[k]|
  {
    seq(|tokens|, k requires 0 <= k < |tokens| => |tokens[k]|)
  }

  /** The widest token of each cell of column c. */
  function ColumnTokenWidths(rows: seq<seq<string>>, c: nat): (ws: seq<nat>)
    requires forall r :: 0 <= r < |rows| ==> c < |rows[r]|
    ensures |ws| == |rows| && forall r :: 0 <= r < |rows| ==> ws[r] == MaxTokenLength(rows[r][c])
  {
    seq(|rows|, r requires 0 <= r < |rows| => MaxTokenLength(rows[r][c]))
  }

  /** The number of tokens of each cell of a row. */
  function TokenCounts(row: seq<string>): (ns: seq<nat>)
    ensures |ns| == |row| && forall c :: 0 <= c < |row| ==> ns[c] == |Split(row[c])|
  {
    seq(|row|, c requires 0 <= c < |row| => |Split(row[c])|)
  }

  /** The number of columns zip(*rows) yields: the shortest row's length, 0 without rows. */
  function ColumnCount(rows: seq<seq<string>>): (n: nat)
    ensures forall r :: 0 <= r < |rows| ==> n <= |rows[r]|
    ensures rows != [] ==> exists r :: 0 <= r < |rows| && n == |rows[r]|
  {
    if rows == [] then 0
    else if |rows| == 1 then |rows[0]|
    else
      var n := ColumnCount(rows[1..]);
      assert forall r :: 1 <= r < |rows| ==> rows[r] == rows[1..][r - 1];
      if |rows[0]| < n then |rows[0]| else n
  }

  /** The width of column c: the widest cell of the column, measured by its longest token. */
  function ColumnWidth(rows: seq<seq<string>>, c: nat): (w: nat)
    requires c < ColumnCount(rows)
    ensures forall r :: 0 <= r < |rows| ==> MaxTokenLength(rows[r][c]) <= w
    ensures w == 0 || exists r :: 0 <= r < |rows| && MaxTokenLength(rows[r][c]) == w
  {
    MaxOrZero(ColumnTokenWidths(rows, c))
  }

  /** column_widths. */
  function ColumnWidths(rows: seq<seq<string>>): (widths: seq<nat>)
    ensures |widths| == ColumnCount(rows)
    ensures forall c :: 0 <= c < |widths| ==> widths[c] == ColumnWidth(rows, c)
  {
    var n := ColumnCount(rows);
    seq(n, c requires 0 <= c < n => ColumnWidth(rows, c))
  }

  /** row_heights: a row is as tall as its cell with the most tokens (0 if the row is empty). */
  function RowHeight(row: seq<string>): (h: nat)
    ensures forall c :: 0 <= c < |row| ==> |Split(row[c])| <= h
    ensures h == 0 || exists c :: 0 <= c < |row| && |Split(row[c])| == h
  {
    MaxOrZero(TokenCounts(row))
  }

  // ---------------------------------------------------------------- one line

  /** The tokens of every cell of a row. */
  function CellTokens(row: seq<string>): (tokens: seq<seq<string>>)
    ensures |tokens| == |row| && forall c :: 0 <= c < |row| ==> tokens[c] == Split(row[c])
  {
    seq(|row|, c requires 0 <= c < |row| => Split(row[c]))
  }

  /** Sub-line k of a logical row: the k-th token of every cell, or '' where a cell has fewer. */
  function SubRow(tokens: seq<seq<string>>, k: nat): (sub: seq<string>)
    ensures |sub| == |tokens|
    ensures forall c :: 0 <= c < |tokens| ==> sub[c] == if k < |tokens[c]| then tokens[c][k] else ""
  {
    seq(|tokens|, c requires 0 <= c < |tokens| => if k < |tokens[c]| then tokens[c][k] else "")
  }

  /** The cells of a line centred in their columns; zip truncates to the shorter list. */
  function CenteredCells(row: seq<string>, widths: seq<nat>): (cells: seq<string>)
    ensures |cells| == if |row| < |widths| then |row| else |widths|
  {
    var n := if |row| < |widths| then |row| else |widths|;
    seq(n, i requires 0 <= i < n => Center(row[i], widths[i]))
  }

  /** get_row_text(row, widths). */
  function RowText(row: seq<string>, widths: seq<nat>): string
  {
    " " + JoinWith([' ', BoxVertical, ' '], CenteredCells(row, widths)) + " "
  }

  function Bars(widths: seq<nat>): (bars: seq<string>)
    ensures |bars| == |widths|
  {
    seq(|widths|, i requires 0 <= i < |widths| => Repeat(BoxHorizontal, widths[i]))
  }

  /** get_divider(widths). */
  function Divider(widths: seq<nat>): string
  {
    [BoxHorizontal] + JoinWith([BoxHorizontal, BoxVerticalAndHorizontal, BoxHorizontal], Bars(widths))
      + [BoxHorizontal]
  }

  function SumLengths(parts: seq<string>): nat
  {
    if parts == [] then 0 else SumLengths(parts[..|parts| - 1]) + |parts[|parts| - 1]|
  }

  lemma {:induction false} JoinWithLength(sep: string, parts: seq<string>)
    requires parts != []
    ensures |JoinWith(sep, parts)| == SumLengths(parts) + |sep| * (|parts| - 1)
  {
    if |parts| > 1 {
      var rest := parts[1..];
      JoinWithLength(sep, rest);
      SumLengthsFront(parts);
      assert |JoinWith(sep, parts)| == |parts[0]| + |sep| + |JoinWith(sep, rest)|;
      assert |sep| * (|parts| - 1) == |sep| * (|rest| - 1) + |sep| by {
        MulSucc(|sep|, |rest| - 1);
      }
    } else {
      assert parts[..0] == [];
    }
  }

  lemma MulSucc(a: nat, b: nat)
    ensures a * (b + 1) == a * b + a
  {
  }

  lemma {:induction false} SumLengthsFront(parts: seq<string>)
    requires parts != []
    ensures SumLengths(parts) == |parts[0]| + SumLengths(parts[1..])
  {
    if |parts| > 1 {
      assert parts[..|parts| - 1][1..] == parts[1..][..|parts[1..]| - 1];
      SumLengthsFront(parts[..|parts| - 1]);
    } else {
      assert parts[..0] == [] && parts[1..] == [];
    }
  }

  lemma {:induction false} SumLengthsOfPadded(cells: seq<string>, widths: seq<nat>)
    requires |cells| == |widths|
    requires forall i :: 0 <= i < |cells| ==> |cells[i]| == widths[i]
    ensures SumLengths(cells) == Sum(widths)
  {
    if cells != [] {
      SumLengthsOfPadded(cells[..|cells| - 1], widths[..|widths| - 1]);
    }
  }

  /** When every cell fits its column, a text line and a divider have the same length:
      the column widths, three characters between columns and one at each end. */
  lemma RowTextLength(row: seq<string>, widths: seq<nat>)
    requires |row| == |widths| >= 1
    requires forall i :: 0 <= i < |row| ==> |row[i]| <= widths[i]
    ensures |RowText(row, widths)| == Sum(widths) + 3 * (|widths| - 1) + 2
  {
    var cells := CenteredCells(row, widths);
    JoinWithLength([' ', BoxVertical, ' '], cells);
    SumLengthsOfPadded(cells, widths);
  }

  /** A divider has the length of a line whose cells fit their columns. */
  lemma DividerLength(widths: seq<nat>)
    requires |widths| >= 1
    ensures |Divider(widths)| == Sum(widths) + 3 * (|widths| - 1) + 2
  {
    JoinWithLength([BoxHorizontal, BoxVerticalAndHorizontal, BoxHorizontal], Bars(widths));
    SumLengthsOfPadded(Bars(widths), widths);
  }

  // ---------------------------------------------------------------- the whole table

  /** The physical lines of one logical row: one per sub-line; a row without any token
      still ends its (empty) block with a newline, which reads as one empty line. */
  function RowLines(row: seq<string>, widths: seq<nat>): (lines: seq<string>)
    ensures |lines| == if RowHeight(row) == 0 then 1 else RowHeight(row)
  {
    var h := RowHeight(row);
    if h == 0 then [""]
    else seq(h, k requires 0 <= k < h => RowText(SubRow(CellTokens(row), k), widths))
  }

  /** The lines of the first n logical rows, each followed by a divider unless it is the last
      row of the table. */
  function LinesUpTo(rows: seq<seq<string>>, widths: seq<nat>, n: nat): seq<string>
    requires n <= |rows|
  {
    if n == 0 then []
    else
      LinesUpTo(rows, widths, n - 1) + RowLines(rows[n - 1], widths)
        + (if n - 1 != |rows| - 1 then [Divider(widths)] else [])
  }

  /** Every cell of the table as its string. */
  function StringValues(values: seq<seq<Cell>>): (rows: seq<seq<string>>)
    ensures |rows| == |values|
    ensures forall r :: 0 <= r < |rows| ==> |rows[r]| == |values[r]|
  {
    seq(|values|, r requires 0 <= r < |values| =>
      seq(|values[r]|, c requires 0 <= c < |values[r]| => CellText(values[r][c])))
  }

  /** The lines grid_str(values) prints. */
  function GridLines(values: seq<seq<Cell>>): seq<string>
  {
    var rows := StringValues(values);
    LinesUpTo(rows, ColumnWidths(rows), |rows|)
  }

  /** Each line followed by a newline. */
  function Unlines(lines: seq<string>): string
  {
    if lines == [] then "" else Unlines(lines[..|lines| - 1]) + lines[|lines| - 1] + "\n"
  }

  lemma UnlinesSnoc(lines: seq<string>, line: string)
    ensures Unlines(lines + [line]) == Unlines(lines) + line + "\n"
  {
    assert (lines + [line])[..|lines|] == lines;
  }

  lemma {:induction false} UnlinesAppend(a: seq<string>, b: seq<string>)
    ensures Unlines(a + b) == Unlines(a) + Unlines(b)
    decreases |b|
  {
    if b == [] {
      assert a + b == a;
    } else {
      assert (a + b)[..|a + b| - 1] == a + b[..|b| - 1];
      UnlinesAppend(a, b[..|b| - 1]);
    }
  }

  /** The lines joined by newlines, with a final newline. */
  lemma {:induction false} JoinLinesThenNewline(lines: seq<string>)
    ensures JoinWith("\n", lines) + "\n" == Unlines(if lines == [] then [""] else lines)
  {
    if |lines| > 1 {
      JoinLinesThenNewline(lines[1..]);
      assert lines == [lines[0]] + lines[1..];
      UnlinesAppend([lines[0]], lines[1..]);
      assert Unlines([lines[0]]) == lines[0] + "\n" by {
        assert [lines[0]][..0] == [];
      }
    } else if |lines| == 1 {
      assert lines[..0] == [];
    } else {
      assert [""][..0] == [];
    }
  }

  /** The sub_rows of one logical row, filled cell by cell and token by token. */
  method FillSubRows(tokens: seq<seq<string>>, h: nat) returns (subRows: seq<seq<string>>)
    requires forall c :: 0 <= c < |tokens| ==> |tokens[c]| <= h
    ensures |subRows| == h && forall k :: 0 <= k < h ==> subRows[k] == SubRow(tokens, k)
  {
    subRows := seq(h, _ => seq(|tokens|, _ => ""));
    for i2 := 0 to |tokens|
      invariant |subRows| == h
      invariant forall k :: 0 <= k < h ==> |subRows[k]| == |tokens|
      invariant forall k, c :: 0 <= k < h && 0 <= c < |tokens| ==>
        subRows[k][c] == if c < i2 && k < |tokens[c]| then tokens[c][k] else ""
    {
      var subCells := tokens[i2];
      for j2 := 0 to |subCells|
        invariant |subRows| == h
        invariant forall k :: 0 <= k < h ==> |subRows[k]| == |tokens|
        invariant forall k, c :: 0 <= k < h && 0 <= c < |tokens| && c != i2 ==>
          subRows[k][c] == if c < i2 && k < |tokens[c]| then tokens[c][k] else ""
        invariant forall k :: 0 <= k < h ==> subRows[k][i2] == if k < j2 then subCells[k] else ""
      {
        subRows := subRows[j2 := subRows[j2][i2 := subCells[j2]]];
      }
    }
  }

  /** '\n'.join of the sub-lines' texts, then a newline, is the row's block of lines. */
  lemma RowBlockText(row: seq<string>, widths: seq<nat>, subRows: seq<seq<string>>)
    requires |subRows| == RowHeight(row)
    requires forall k :: 0 <= k < |subRows| ==> subRows[k] == SubRow(CellTokens(row), k)
    ensures JoinWith("\n", RowTexts(subRows, widths)) + "\n" == Unlines(RowLines(row, widths))
  {
    var texts := RowTexts(subRows, widths);
    assert (if texts == [] then [""] else texts) == RowLines(row, widths);
    JoinLinesThenNewline(texts);
  }

  /** The text of logical row i appended to the text of the rows before it. */
  lemma LinesUpToStep(rows: seq<seq<string>>, widths: seq<nat>, i: nat)
    requires i < |rows|
    ensures Unlines(LinesUpTo(rows, widths, i + 1)) ==
      Unlines(LinesUpTo(rows, widths, i)) + Unlines(RowLines(rows[i], widths))
      + (if i != |rows| - 1 then Divider(widths) + "\n" else "")
  {
    var before := LinesUpTo(rows, widths, i);
    var block := RowLines(rows[i], widths);
    var divider := if i != |rows| - 1 then [Divider(widths)] else [];
    UnlinesAppend(before, block);
    UnlinesAppend(before + block, divider);
    if i != |rows| - 1 {
      assert divider[..0] == [];
    }
  }

  /** The text of every sub-line of a row block. */
  function RowTexts(subRows: seq<seq<string>>, widths: seq<nat>): (texts: seq<string>)
    ensures |texts| == |subRows| && forall k :: 0 <= k < |subRows| ==> texts[k] == RowText(subRows[k], widths)
  {
    seq(|subRows|, k requires 0 <= k < |subRows| => RowText(subRows[k], widths))
  }

  /** grid_str(values). */
  method GridStr(values: seq<seq<Cell>>) returns (text: string)
    ensures text == Unlines(GridLines(values))
  {
    var stringValues := StringValues(values);
    var columnWidths := ColumnWidths(stringValues);
    text := "";
    for i := 0 to |stringValues|
      invariant text == Unlines(LinesUpTo(stringValues, columnWidths, i))
    {
      var row := stringValues[i];
      var subRows := FillSubRows(CellTokens(row), RowHeight(row));
      RowBlockText(row, columnWidths, subRows);
      LinesUpToStep(stringValues, columnWidths, i);
      var block := JoinWith("\n", RowTexts(subRows, columnWidths)) + "\n";
      text := text + block;
      if i != |stringValues| - 1 {
        text := text + (Divider(columnWidths) + "\n");
      } else {
        assert text + "" == text;
      }
    }
  }

  // ---------------------------------------------------------------- shape of the table

  /** Every token of every cell of the row fits its column. */
  ghost predicate TokensFit(row: seq<string>, widths: seq<nat>)
  {
    |row| == |widths| && forall c :: 0 <= c < |row| ==> MaxTokenLength(row[c]) <= widths[c]
  }

  lemma SubRowFits(row: seq<string>, widths: seq<nat>, k: nat)
    requires TokensFit(row, widths)
    ensures forall c :: 0 <= c < |row| ==> |SubRow(CellTokens(row), k)[c]| <= widths[c]
  {
  }

  /** Every sub-row of a row whose tokens fit is as long as a divider. */
  lemma SubRowTextLength(row: seq<string>, widths: seq<nat>, j: nat)
    requires TokensFit(row, widths) && |widths| >= 1
    ensures |RowText(SubRow(CellTokens(row), j), widths)| == Sum(widths) + 3 * (|widths| - 1) + 2
  {
    SubRowFits(row, widths, j);
    RowTextLength(SubRow(CellTokens(row), j), widths);
  }

  /** Line j of a row with tokens is the text of its j-th sub-row. */
  lemma RowLineIs(row: seq<string>, widths: seq<nat>, j: nat)
    requires RowHeight(row) != 0 && j < RowHeight(row)
    ensures RowLines(row, widths)[j] == RowText(SubRow(CellTokens(row), j), widths)
  {
  }

  lemma RowLineAligned(row: seq<string>, widths: seq<nat>, j: nat)
    requires TokensFit(row, widths) && |widths| >= 1
    requires j < |RowLines(row, widths)|
    ensures RowLines(row, widths)[j] == "" || |RowLines(row, widths)[j]| == Sum(widths) + 3 * (|widths| - 1) + 2
  {
    var line := RowLines(row, widths)[j];
    if RowHeight(row) != 0 {
      assert line == RowText(SubRow(CellTokens(row), j), widths) by {
        RowLineIs(row, widths, j);
      }
      SubRowTextLength(row, widths, j);
    }
  }

  lemma RowLinesAligned(row: seq<string>, widths: seq<nat>)
    requires TokensFit(row, widths) && |widths| >= 1
    ensures Aligned(RowLines(row, widths), Sum(widths) + 3 * (|widths| - 1) + 2)
  {
    var lines := RowLines(row, widths);
    forall line | line in lines
      ensures line == "" || |line| == Sum(widths) + 3 * (|widths| - 1) + 2
    {
      var j :| 0 <= j < |lines| && lines[j] == line;
      RowLineAligned(row, widths, j);
    }
  }

  /** Every token of every cell of every row fits its column. */
  ghost predicate AllFit(rows: seq<seq<string>>, widths: seq<nat>)
  {
    forall r :: 0 <= r < |rows| ==> TokensFit(rows[r], widths)
  }

  /** Every line is either empty or exactly `width` characters long. */
  ghost predicate Aligned(lines: seq<string>, width: int)
  {
    forall line :: line in lines ==> line == "" || |line| == width
  }

  lemma AlignedConcat(a: seq<string>, b: seq<string>, width: int)
    requires Aligned(a, width) && Aligned(b, width)
    ensures Aligned(a + b, width)
  {
  }

  /** When every row fits the widths, every line is exactly as long as a divider, except the
      single empty line standing for a row without tokens. */
  lemma {:induction false} LinesAligned(rows: seq<seq<string>>, widths: seq<nat>, i: nat)
    requires AllFit(rows, widths)
    requires |widths| >= 1 && i <= |rows|
    ensures Aligned(LinesUpTo(rows, widths, i), Sum(widths) + 3 * (|widths| - 1) + 2)
  {
    if i > 0 {
      LinesAligned(rows, widths, i - 1);
      LinesAlignedStep(rows, widths, i);
    }
  }

  lemma LinesAlignedStep(rows: seq<seq<string>>, widths: seq<nat>, i: nat)
    requires 0 < i <= |rows| && |widths| >= 1 && TokensFit(rows[i - 1], widths)
    requires Aligned(LinesUpTo(rows, widths, i - 1), Sum(widths) + 3 * (|widths| - 1) + 2)
    ensures Aligned(LinesUpTo(rows, widths, i), Sum(widths) + 3 * (|widths| - 1) + 2)
  {
    var width := Sum(widths) + 3 * (|widths| - 1) + 2;
    var lines := LinesUpTo(rows, widths, i - 1) + RowLines(rows[i - 1], widths);
    RowLinesAligned(rows[i - 1], widths);
    AlignedConcat(LinesUpTo(rows, widths, i - 1), RowLines(rows[i - 1], widths), width);
    if i - 1 != |rows| - 1 {
      DividerLength(widths);
      AlignedConcat(lines, [Divider(widths)], width);
    } else {
      AlignedConcat(lines, [], width);
    }
  }

  ghost predicate Rectangular(rows: seq<seq<string>>, n: nat)
  {
    forall r :: 0 <= r < |rows| ==> |rows[r]| == n
  }

  lemma ColumnWidthsFit(rows: seq<seq<string>>, n: nat)
    requires Rectangular(rows, n) && rows != []
    ensures AllFit(rows, ColumnWidths(rows))
  {
    var widths := ColumnWidths(rows);
    assert |widths| == n;
    forall r, c | 0 <= r < |rows| && 0 <= c < n
      ensures MaxTokenLength(rows[r][c]) <= widths[c]
    {
      assert widths[c] == ColumnWidth(rows, c);
    }
  }

  /** In a rectangular table with at least one column, every line grid_str prints is as long
      as the divider (the widths, three characters between columns, one at each end), except
      the single empty line that stands for a row without any token. */
  lemma GridLinesAligned(values: seq<seq<Cell>>, n: nat)
    requires forall r :: 0 <= r < |values| ==> |values[r]| == n
    requires n >= 1
    ensures forall line :: line in GridLines(values) ==>
      line == "" || |line| == Sum(ColumnWidths(StringValues(values))) + 3 * (n - 1) + 2
  {
    var rows := StringValues(values);
    if rows != [] {
      ColumnWidthsFit(rows, n);
      LinesAligned(rows, ColumnWidths(rows), |rows|);
    }
  }
}
