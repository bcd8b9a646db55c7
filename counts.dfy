/** Puzzle.grid_str: the table counting a puzzle's answers by first letter (rows) and by
    length (columns), with a total per row, per column and overall. */
module Counts {
  import opened Ordering
  import opened Strings
  import opened Lists
  import Grid

  const Sigma: char := '\U{03A3}'

  /** w[0]; only ever applied to non-empty words. */
  function FirstOf(w: string): char
  {
    if w == [] then ' ' else w[0]
  }

  /** len(w). */
  function LengthOf(w: string): int
  {
    |w|
  }

  /** The (first letter, length) cell of the table a word is counted in. */
  function KeyOf(w: string): (char, int)
  {
    (FirstOf(w), |w|)
  }

  ghost predicate NonEmptyWords(words: seq<string>)
  {
    forall i :: 0 <= i < |words| ==> words[i] != []
  }

  function FirstLetters(words: seq<string>): (fs: seq<char>)
    ensures |fs| == |words| && forall i :: 0 <= i < |words| ==> fs[i] == FirstOf(words[i])
  {
    seq(|words|, i requires 0 <= i < |words| => FirstOf(words[i]))
  }

  function WordLengths(words: seq<string>): (ls: seq<int>)
    ensures |ls| == |words| && forall i :: 0 <= i < |words| ==> ls[i] == |words[i]|
  {
    seq(|words|, i requires 0 <= i < |words| => |words[i]|)
  }

  /** all_firsts: the distinct first letters of the words, ascending. */
  function AllFirsts(words: seq<string>): (fs: seq<char>)
    ensures StrictlySorted(fs, CharLess) && Distinct(fs)
    ensures forall c :: c in fs <==> exists i :: 0 <= i < |words| && FirstOf(words[i]) == c
  {
    CharLessIsStrictTotalOrder();
    var fs := SortedUnique(FirstLetters(words), CharLess);
    StrictlySortedCard(fs, CharLess);
    assert forall c :: c in fs <==> c in Elements(FirstLetters(words));
    fs
  }

  /** all_lengths: the distinct word lengths, ascending. */
  function AllLengths(words: seq<string>): (ls: seq<int>)
    ensures StrictlySorted(ls, IntLess) && Distinct(ls)
    ensures forall n :: n in ls <==> exists i :: 0 <= i < |words| && |words[i]| == n
  {
    IntLessIsStrictTotalOrder();
    var ls := SortedUnique(WordLengths(words), IntLess);
    StrictlySortedCard(ls, IntLess);
    assert forall n :: n in ls <==> n in Elements(WordLengths(words));
    ls
  }

  /** The counts of the table and its two axes. */
  datatype CountTable = CountTable(
    firsts: seq<char>,
    lengths: seq<int>,
    grid: seq<seq<nat>>,
    firstSums: seq<nat>,
    lengthSums: seq<nat>)

  /** The cells of row f, one per length. */
  function RowKeys(f: char, lengths: seq<int>): (keys: seq<(char, int)>)
    ensures |keys| == |lengths| && forall j :: 0 <= j < |lengths| ==> keys[j] == (f, lengths[j])
  {
    seq(|lengths|, j requires 0 <= j < |lengths| => (f, lengths[j]))
  }

  /** The cells of column l, one per first letter. */
  function ColumnKeys(firsts: seq<char>, l: int): (keys: seq<(char, int)>)
    ensures |keys| == |firsts| && forall i :: 0 <= i < |firsts| ==> keys[i] == (firsts[i], l)
  {
    seq(|firsts|, i requires 0 <= i < |firsts| => (firsts[i], l))
  }

  function GridOf(words: seq<string>, firsts: seq<char>, lengths: seq<int>): (grid: seq<seq<nat>>)
    ensures |grid| == |firsts|
    ensures forall i :: 0 <= i < |firsts| ==> grid[i] == Counts(words, KeyOf, RowKeys(firsts[i], lengths))
  {
    seq(|firsts|, i requires 0 <= i < |firsts| => Counts(words, KeyOf, RowKeys(firsts[i], lengths)))
  }

  /** What the counting loop of grid_str computes; the same counts solution_grid takes by
      comprehension for its margins. */
  function CountTableOf(words: seq<string>): CountTable
  {
    TableOf(words, AllFirsts(words), AllLengths(words))
  }

  /** The counts of the words along two given axes. */
  function TableOf(words: seq<string>, firsts: seq<char>, lengths: seq<int>): (t: CountTable)
    ensures t.firsts == firsts && t.lengths == lengths
    ensures |t.grid| == |t.firstSums| == |firsts| && |t.lengthSums| == |lengths|
    ensures forall i :: 0 <= i < |firsts| ==> |t.grid[i]| == |lengths|
  {
    CountTable(firsts, lengths, GridOf(words, firsts, lengths),
      Counts(words, FirstOf, firsts), Counts(words, LengthOf, lengths))
  }

  /** The body of the counting loop for a word in cell (i, j): adds one to the cell, to row
      margin i and to column margin j, each a separate `+= 1` on the lists. */
  function Bump(t: CountTable, i: nat, j: nat): CountTable
    requires i < |t.grid| && i < |t.firstSums| && j < |t.grid[i]| && j < |t.lengthSums|
  {
    t.(grid := t.grid[i := t.grid[i][j := t.grid[i][j] + 1]],
      firstSums := t.firstSums[i := t.firstSums[i] + 1],
      lengthSums := t.lengthSums[j := t.lengthSums[j] + 1])
  }

  /** Column j of the grid. */
  function Column(grid: seq<seq<nat>>, j: nat): (col: seq<nat>)
    requires forall i :: 0 <= i < |grid| ==> j < |grid[i]|
    ensures |col| == |grid| && forall i :: 0 <= i < |grid| ==> col[i] == grid[i][j]
  {
    seq(|grid|, i requires 0 <= i < |grid| => grid[i][j])
  }

  /** Counting one more word adds one to its cell and leaves the other cells alone. */
  lemma GridStep(words: seq<string>, w: string, more: seq<string>, firsts: seq<char>, lengths: seq<int>, i: nat, j: nat)
    requires more == words + [w]
    requires Distinct(lengths)
    requires i < |firsts| && j < |lengths| && KeyOf(w) == (firsts[i], lengths[j])
    requires forall a :: 0 <= a < |firsts| && a != i ==> firsts[a] != firsts[i]
    ensures var before := GridOf(words, firsts, lengths);
      GridOf(more, firsts, lengths) == before[i := before[i][j := before[i][j] + 1]]
  {
    var before := GridOf(words, firsts, lengths);
    forall a | 0 <= a < |firsts|
      ensures GridOf(more, firsts, lengths)[a] == before[i := before[i][j := before[i][j] + 1]][a]
    {
      var keys := RowKeys(firsts[a], lengths);
      if a == i {
        assert Distinct(keys) by {
          forall x, y | 0 <= x < y < |keys| ensures keys[x] != keys[y] {
            assert lengths[x] != lengths[y];
          }
        }
        CountsStep(words, w, more, KeyOf, keys, j);
      } else {
        assert KeyOf(w) !in keys;
        CountsSkip(words, w, more, KeyOf, keys);
      }
    }
  }

  /** A row of n zeros. */
  function Zeros(n: nat): (z: seq<nat>)
    ensures |z| == n && forall i :: 0 <= i < n ==> z[i] == 0
  {
    seq(n, _ => 0)
  }

  /** An m-by-n table of zeros. */
  function ZeroGrid(m: nat, n: nat): (grid: seq<seq<nat>>)
    ensures |grid| == m && forall i :: 0 <= i < m ==> grid[i] == Zeros(n)
  {
    seq(m, _ => Zeros(n))
  }

  /** Before any word is counted, every cell and every margin is zero. */
  lemma NothingCounted(words: seq<string>, firsts: seq<char>, lengths: seq<int>)
    ensures TableOf(words[..0], firsts, lengths) ==
      CountTable(firsts, lengths, ZeroGrid(|firsts|, |lengths|), Zeros(|firsts|), Zeros(|lengths|))
  {
    assert words[..0] == [];
    var grid := GridOf([], firsts, lengths);
    forall i | 0 <= i < |firsts|
      ensures grid[i] == Zeros(|lengths|)
    {
    }
    assert grid == ZeroGrid(|firsts|, |lengths|);
  }

  /** One step of the counting loop: counting word k bumps its cell and its two margins,
      giving the counts of words[..k + 1]. */
  lemma TallyStep(words: seq<string>, k: nat, firsts: seq<char>, lengths: seq<int>, i: nat, j: nat)
    requires k < |words| && Distinct(firsts) && Distinct(lengths)
    requires i < |firsts| && j < |lengths| && KeyOf(words[k]) == (firsts[i], lengths[j])
    ensures TableOf(words[..k + 1], firsts, lengths) == Bump(TableOf(words[..k], firsts, lengths), i, j)
  {
    var w := words[k];
    assert words[..k + 1] == words[..k] + [w];
    GridStep(words[..k], w, words[..k + 1], firsts, lengths, i, j);
    CountsStep(words[..k], w, words[..k + 1], FirstOf, firsts, i);
    CountsStep(words[..k], w, words[..k + 1], LengthOf, lengths, j);
  }

  /** The grid_str counting loop: one pass over the words, adding one to the word's cell, to
      its row total and to its column total. */
  method Tally(words: seq<string>, firsts: seq<char>, lengths: seq<int>) returns (t: CountTable)
    requires Distinct(firsts) && Distinct(lengths)
    requires forall k :: 0 <= k < |words| ==> words[k] != [] && words[k][0] in firsts && |words[k]| in lengths
    ensures t == TableOf(words, firsts, lengths)
  {
    t := CountTable(firsts, lengths, ZeroGrid(|firsts|, |lengths|), Zeros(|firsts|), Zeros(|lengths|));
    NothingCounted(words, firsts, lengths);
    for k := 0 to |words|
      invariant t == TableOf(words[..k], firsts, lengths)
    {
      var w := words[k];
      var firstI := IndexOf(firsts, w[0]);
      var lenJ := IndexOf(lengths, |w|);
      TallyStep(words, k, firsts, lengths, firstI, lenJ);
      t := Bump(t, firstI, lenJ);
    }
    WholePrefix(words);
  }

  /** Puzzle.grid_str's counts: the two sorted axes, then the counting loop. */
  method CountGrid(words: seq<string>) returns (t: CountTable)
    requires NonEmptyWords(words)
    ensures t == CountTableOf(words)
  {
    var firsts := AllFirsts(words);
    var lengths := AllLengths(words);
    forall k | 0 <= k < |words|
      ensures words[k][0] in firsts && |words[k]| in lengths
    {
      assert FirstOf(words[k]) == words[k][0];
    }
    t := Tally(words, firsts, lengths);
  }

  /** Row i of the grid adds up to the row's margin: the number of words with that first letter. */
  lemma RowTotal(words: seq<string>, i: nat)
    requires i < |CountTableOf(words).firsts|
    ensures Sum(CountTableOf(words).grid[i]) == CountTableOf(words).firstSums[i]
  {
    var t := CountTableOf(words);
    var f := t.firsts[i];
    var keys := RowKeys(f, t.lengths);
    assert Distinct(keys) by {
      forall a, b | 0 <= a < b < |keys| ensures keys[a] != keys[b] {
        assert t.lengths[a] != t.lengths[b];
      }
    }
    forall k | 0 <= k < |words| && FirstOf(words[k]) == f
      ensures KeyOf(words[k]) in keys
    {
      var j := IndexOf(t.lengths, |words[k]|);
      assert keys[j] == KeyOf(words[k]);
    }
    CountsRefine(words, KeyOf, keys, FirstOf, f);
  }

  /** Column j of the grid adds up to the column's margin: the number of words of that length. */
  lemma ColumnTotal(words: seq<string>, j: nat)
    requires j < |CountTableOf(words).lengths|
    ensures Sum(Column(CountTableOf(words).grid, j)) == CountTableOf(words).lengthSums[j]
  {
    var t := CountTableOf(words);
    var l := t.lengths[j];
    var keys := ColumnKeys(t.firsts, l);
    assert Distinct(keys) by {
      forall a, b | 0 <= a < b < |keys| ensures keys[a] != keys[b] {
        assert t.firsts[a] != t.firsts[b];
      }
    }
    forall k | 0 <= k < |words| && LengthOf(words[k]) == l
      ensures KeyOf(words[k]) in keys
    {
      var i := IndexOf(t.firsts, FirstOf(words[k]));
      assert keys[i] == KeyOf(words[k]);
    }
    assert Column(t.grid, j) == Counts(words, KeyOf, keys);
    CountsRefine(words, KeyOf, keys, LengthOf, l);
  }

  /** Both margins add up to the number of words, the value in the corner of the table. */
  lemma MarginTotals(words: seq<string>)
    ensures Sum(CountTableOf(words).firstSums) == |words|
    ensures Sum(CountTableOf(words).lengthSums) == |words|
  {
    var t := CountTableOf(words);
    CountsPartition(words, FirstOf, t.firsts);
    CountsPartition(words, LengthOf, t.lengths);
  }

  // ---------------------------------------------------------------- rendering

  /** Each number as its decimal string. */
  function IntStrings(xs: seq<int>): (r: seq<string>)
    ensures |r| == |xs| && forall i :: 0 <= i < |xs| ==> r[i] == IntToString(xs[i])
  {
    seq(|xs|, i requires 0 <= i < |xs| => IntToString(xs[i]))
  }

  /** Each count as its decimal string, except that a zero count shows as a single blank. */
  function CountStrings(row: seq<nat>): (r: seq<string>)
    ensures |r| == |row| && forall j :: 0 <= j < |row| ==> r[j] == if row[j] != 0 then IntToString(row[j]) else " "
  {
    seq(|row|, j requires 0 <= j < |row| => if row[j] != 0 then IntToString(row[j]) else " ")
  }

  /** cell_width: two more than the longest printed total. */
  function CellWidth(t: CountTable, n: nat): nat
  {
    MaxOrZero(WordLengths(IntStrings(t.firstSums) + IntStrings(t.lengthSums) + [IntToString(n)])) + 2
  }

  /** Every cell centred in the given width. */
  function CentredAll(cells: seq<string>, width: nat): (r: seq<string>)
    ensures |r| == |cells| && forall i :: 0 <= i < |cells| ==> r[i] == Center(cells[i], width)
  {
    seq(|cells|, i requires 0 <= i < |cells| => Center(cells[i], width))
  }

  /** k horizontal bars, each as wide as a cell. */
  function HorizontalBars(k: nat, width: nat): (r: seq<string>)
    ensures |r| == k && forall i :: 0 <= i < k ==> r[i] == Repeat(Grid.BoxHorizontal, width)
  {
    seq(k, _ => Repeat(Grid.BoxHorizontal, width))
  }

  ghost predicate WellFormed(t: CountTable)
  {
    |t.grid| == |t.firsts| == |t.firstSums|
  }

  /** The lengths, then Σ, centred, after a blank corner. */
  function HeaderLine(t: CountTable, width: nat): string
  {
    JoinWith(" ", [Repeat(' ', width)] + CentredAll(IntStrings(t.lengths) + [[Sigma]], width))
  }

  /** The top edge of the box, one bar per length plus one for the totals. */
  function TopLine(t: CountTable, width: nat): string
  {
    Repeat(' ', width) + [Grid.BoxDownAndRight]
      + JoinWith([Grid.BoxDownAndHorizontal], HorizontalBars(|t.lengths| + 1, width))
  }

  /** row_strs: the first letter, the row's counts and the row's total. */
  function RowCells(t: CountTable, i: nat): seq<string>
    requires WellFormed(t) && i < |t.firsts|
  {
    [[t.firsts[i]]] + CountStrings(t.grid[i]) + [IntToString(t.firstSums[i])]
  }

  function RowLine(t: CountTable, width: nat, i: nat): string
    requires WellFormed(t) && i < |t.firsts|
  {
    JoinWith([Grid.BoxVertical], CentredAll(RowCells(t, i), width))
  }

  function RowDivider(t: CountTable, width: nat, i: nat): string
    requires WellFormed(t) && i < |t.firsts|
  {
    JoinWith([Grid.BoxVerticalAndHorizontal], HorizontalBars(|RowCells(t, i)|, width))
  }

  /** Σ, the column totals and the overall total. */
  function FooterLine(t: CountTable, width: nat, n: nat): string
  {
    JoinWith([Grid.BoxVertical], CentredAll([[Sigma]] + IntStrings(t.lengthSums) + [IntToString(n)], width))
  }

  /** The text line and the divider of each of the first i rows. */
  function BodyLines(t: CountTable, width: nat, i: nat): (lines: seq<string>)
    requires WellFormed(t) && i <= |t.firsts|
    ensures |lines| == 2 * i
  {
    if i == 0 then [] else BodyLines(t, width, i - 1) + [RowLine(t, width, i - 1), RowDivider(t, width, i - 1)]
  }

  /** The lines Puzzle.grid_str prints for a table of n words. */
  function CountTableLines(t: CountTable, n: nat): seq<string>
    requires WellFormed(t)
  {
    var width := CellWidth(t, n);
    [HeaderLine(t, width), TopLine(t, width)] + BodyLines(t, width, |t.firsts|) + [FooterLine(t, width, n)]
  }

  /** Appending row i's text line and divider to the text of the rows before it gives the
      text of the rows up to i. */
  lemma BodyStep(t: CountTable, width: nat, i: nat, before: seq<string>, text: string, text': string)
    requires WellFormed(t) && i < |t.firsts|
    requires RowsWritten(t, width, before, i, text)
    requires text' == text + RowLine(t, width, i) + "\n" + RowDivider(t, width, i) + "\n"
    ensures RowsWritten(t, width, before, i + 1, text')
  {
    var lines := before + BodyLines(t, width, i);
    var row, divider := RowLine(t, width, i), RowDivider(t, width, i);
    assert before + BodyLines(t, width, i + 1) == lines + [row] + [divider];
    Grid.UnlinesSnoc(lines, row);
    Grid.UnlinesSnoc(lines + [row], divider);
  }

  lemma TwoLines(a: string, b: string)
    ensures Grid.Unlines([a, b]) == a + "\n" + b + "\n"
  {
    Grid.UnlinesSnoc([], a);
    Grid.UnlinesSnoc([a], b);
    assert [] + [a] == [a] && [a] + [b] == [a, b];
    assert "" + a == a;
  }

  /** text is the head lines followed by the text lines and dividers of the first i rows. */
  ghost predicate RowsWritten(t: CountTable, width: nat, head: seq<string>, i: nat, text: string)
    requires WellFormed(t) && i <= |t.firsts|
  {
    text == Grid.Unlines(head + BodyLines(t, width, i))
  }

  lemma NoRowsYet(t: CountTable, width: nat, head: seq<string>)
    requires WellFormed(t)
    ensures RowsWritten(t, width, head, 0, Grid.Unlines(head))
  {
    assert head + BodyLines(t, width, 0) == head;
  }

  /** The loop of Puzzle.grid_str over the rows: each row adds its text line and its divider. */
  method AppendRows(t: CountTable, width: nat, head: seq<string>, start: string) returns (text: string)
    requires WellFormed(t) && start == Grid.Unlines(head)
    ensures text == Grid.Unlines(head + BodyLines(t, width, |t.firsts|))
  {
    text := start;
    NoRowsYet(t, width, head);
    for i: nat := 0 to |t.firsts|
      invariant RowsWritten(t, width, head, i, text)
    {
      ghost var before := text;
      text := text + RowLine(t, width, i) + "\n";
      text := text + RowDivider(t, width, i) + "\n";
      BodyStep(t, width, i, head, before, text);
    }
  }

  /** The string building of Puzzle.grid_str once the counts are known. */
  method RenderCountTable(t: CountTable, n: nat) returns (text: string)
    requires WellFormed(t)
    ensures text == Grid.Unlines(CountTableLines(t, n))
  {
    var width := CellWidth(t, n);
    var header, top := HeaderLine(t, width), TopLine(t, width);
    text := header + "\n";
    text := text + top + "\n";
    TwoLines(header, top);
    text := AppendRows(t, width, [header, top], text);
    var footer := FooterLine(t, width, n);
    Grid.UnlinesSnoc([header, top] + BodyLines(t, width, |t.firsts|), footer);
    text := text + footer + "\n";
  }
}
