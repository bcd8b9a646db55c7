/** Puzzle.solution_str and Puzzle.solution_grid: a puzzle's answers listed by first letter
    and length, once as a plain list with dash lines between the groups and once as a table
    with one cell of words per (first letter, length). */
module Listing {
  import opened Ordering
  import opened Strings
  import opened Lists
  import Grid
  import opened Counts

  // ---------------------------------------------------------------- sorting by key

  /** The (first letter, length) key of a is at most that of b, compared as Python compares tuples. */
  predicate KeyLe(a: (char, int), b: (char, int))
  {
    a.0 < b.0 || (a.0 == b.0 && a.1 <= b.1)
  }

  ghost predicate SortedByKey(ws: seq<string>)
  {
    forall i, j :: 0 <= i < j < |ws| ==> KeyLe(KeyOf(ws[i]), KeyOf(ws[j]))
  }

  /** The test "this word has key k". */
  function KeyIs(k: (char, int)): string -> bool
  {
    w => KeyOf(w) == k
  }

  /** The words of s with key k, in their order in s. */
  function WithKey(s: seq<string>, k: (char, int)): seq<string>
  {
    Filter(s, KeyIs(k))
  }

  /** Places w after every word whose key is not greater than w's. */
  function InsertByKey(w: string, s: seq<string>): (r: seq<string>)
    ensures multiset(r) == multiset(s) + multiset{w}
  {
    if s == [] || KeyLe(KeyOf(s[|s| - 1]), KeyOf(w)) then s + [w]
    else
      assert s == s[..|s| - 1] + [s[|s| - 1]];
      InsertByKey(w, s[..|s| - 1]) + [s[|s| - 1]]
  }

  /** The words ordered by first letter, then by length; equal keys keep their order, as Python's sort does. */
  function SortByKey(ws: seq<string>): (r: seq<string>)
    ensures multiset(r) == multiset(ws)
  {
    if ws == [] then []
    else
      assert ws == ws[..|ws| - 1] + [ws[|ws| - 1]];
      InsertByKey(ws[|ws| - 1], SortByKey(ws[..|ws| - 1]))
  }

  lemma {:induction false} InsertByKeySorted(w: string, s: seq<string>)
    requires SortedByKey(s)
    ensures SortedByKey(InsertByKey(w, s))
    decreases |s|
  {
    if s != [] && !KeyLe(KeyOf(s[|s| - 1]), KeyOf(w)) {
      var init, last := s[..|s| - 1], s[|s| - 1];
      InsertByKeySorted(w, init);
      var front := InsertByKey(w, init);
      forall i | 0 <= i < |front|
        ensures KeyLe(KeyOf(front[i]), KeyOf(last))
      {
        assert front[i] in multiset(front);
        if front[i] != w {
          assert front[i] in multiset(init);
          var j :| 0 <= j < |init| && init[j] == front[i];
          assert s[j] == init[j];
        }
      }
      InsertByKeyBelow(w, s);
    }
  }

  /** The words come out ordered by first letter, then by length. */
  lemma {:induction false} SortByKeySorted(ws: seq<string>)
    ensures SortedByKey(SortByKey(ws))
  {
    if ws != [] {
      SortByKeySorted(ws[..|ws| - 1]);
      InsertByKeySorted(ws[|ws| - 1], SortByKey(ws[..|ws| - 1]));
    }
  }

  lemma WithKeySingle(x: string, k: (char, int))
    ensures WithKey([x], k) == if KeyOf(x) == k then [x] else []
  {
    assert [x][..0] == [];
  }

  lemma InsertByKeyBelow(w: string, s: seq<string>)
    requires s != [] && !KeyLe(KeyOf(s[|s| - 1]), KeyOf(w))
    ensures InsertByKey(w, s) == InsertByKey(w, s[..|s| - 1]) + [s[|s| - 1]]
  {
  }

  lemma InsertByKeyAppends(w: string, s: seq<string>)
    requires s == [] || KeyLe(KeyOf(s[|s| - 1]), KeyOf(w))
    ensures InsertByKey(w, s) == s + [w]
  {
  }

  /** Inserting a word of another key leaves the words of key k as they were. */
  lemma {:induction false} InsertOtherKey(w: string, s: seq<string>, k: (char, int))
    requires KeyOf(w) != k
    ensures WithKey(InsertByKey(w, s), k) == WithKey(s, k)
    decreases |s|
  {
    if s == [] || KeyLe(KeyOf(s[|s| - 1]), KeyOf(w)) {
      InsertByKeyAppends(w, s);
      FilterAppend(s, [w], KeyIs(k));
      WithKeySingle(w, k);
    } else {
      var init, last := s[..|s| - 1], s[|s| - 1];
      InsertOtherKey(w, init, k);
      InsertByKeyBelow(w, s);
      FilterAppend(InsertByKey(w, init), [last], KeyIs(k));
      FrontLast(s);
      FilterAppend(init, [last], KeyIs(k));
    }
  }

  /** Inserting a word of key k puts it after the words of key k already there. */
  lemma {:induction false} InsertSameKey(w: string, s: seq<string>, k: (char, int))
    requires KeyOf(w) == k
    ensures WithKey(InsertByKey(w, s), k) == WithKey(s, k) + [w]
    decreases |s|
  {
    WithKeySingle(w, k);
    if s == [] || KeyLe(KeyOf(s[|s| - 1]), KeyOf(w)) {
      InsertByKeyAppends(w, s);
      FilterAppend(s, [w], KeyIs(k));
    } else {
      var init, last := s[..|s| - 1], s[|s| - 1];
      InsertSameKey(w, init, k);
      WithKeySingle(last, k);
      assert WithKey(InsertByKey(w, s), k) == WithKey(InsertByKey(w, init), k) by {
        InsertByKeyBelow(w, s);
        FilterAppend(InsertByKey(w, init), [last], KeyIs(k));
      }
      assert WithKey(s, k) == WithKey(init, k) by {
        FrontLast(s);
        FilterAppend(init, [last], KeyIs(k));
      }
    }
  }

  lemma InsertByKeyStable(w: string, s: seq<string>, k: (char, int))
    ensures WithKey(InsertByKey(w, s), k) == WithKey(s, k) + WithKey([w], k)
  {
    WithKeySingle(w, k);
    if KeyOf(w) == k {
      InsertSameKey(w, s, k);
    } else {
      InsertOtherKey(w, s, k);
    }
  }

  /** Stability: the words sharing a key keep the order they had in the input. */
  lemma {:induction false} SortByKeyStable(ws: seq<string>, k: (char, int))
    ensures WithKey(SortByKey(ws), k) == WithKey(ws, k)
  {
    if ws != [] {
      var init, last := ws[..|ws| - 1], ws[|ws| - 1];
      SortByKeyStable(init, k);
      InsertByKeyStable(last, SortByKey(init), k);
      FilterAppend(init, [last], KeyIs(k));
      assert init + [last] == ws;
    }
  }

  // ---------------------------------------------------------------- solution_str

  /** Whether solution_str draws a dash line between two consecutive words: their lengths
      or their first letters differ. */
  predicate Breaks(prev: string, w: string)
  {
    |prev| != |w| || FirstOf(prev) != FirstOf(w)
  }

  /** A line of dashes as long as the longer of the two words. */
  function DashLine(prev: string, w: string): string
  {
    Repeat('-', Max(|prev|, |w|))
  }

  /** The lines of solution_str for words already sorted by key. */
  function SolutionLines(ws: seq<string>): seq<string>
  {
    if ws == [] then []
    else
      var n := |ws|;
      SolutionLines(ws[..n - 1])
      + (if n > 1 && Breaks(ws[n - 2], ws[n - 1]) then [DashLine(ws[n - 2], ws[n - 1])] else [])
      + [ws[n - 1]]
  }

  /** The number of dash lines drawn up to word i: the key changes at positions 1..i. */
  function BreaksUpTo(ws: seq<string>, i: nat): nat
    requires i < |ws|
  {
    if i == 0 then 0 else BreaksUpTo(ws, i - 1) + (if Breaks(ws[i - 1], ws[i]) then 1 else 0)
  }

  lemma {:induction false} BreaksUpToPrefix(ws: seq<string>, n: nat, i: nat)
    requires i < n <= |ws|
    ensures BreaksUpTo(ws[..n], i) == BreaksUpTo(ws, i)
  {
    if i > 0 {
      BreaksUpToPrefix(ws, n, i - 1);
    }
  }

  lemma {:induction false} BreaksUpToMonotone(ws: seq<string>, i: nat, j: nat)
    requires i <= j < |ws|
    ensures BreaksUpTo(ws, i) <= BreaksUpTo(ws, j)
    decreases j
  {
    if i < j {
      BreaksUpToMonotone(ws, i, j - 1);
    }
  }

  /** solution_str prints one line per word and one per change of key. */
  lemma {:induction false} SolutionLinesCount(ws: seq<string>)
    requires ws != []
    ensures |SolutionLines(ws)| == |ws| + BreaksUpTo(ws, |ws| - 1)
  {
    var n := |ws|;
    if n > 1 {
      SolutionLinesCount(ws[..n - 1]);
      BreaksUpToPrefix(ws, n - 1, n - 2);
    }
  }

  /** Word i is printed on line i + (the dash lines before it). */
  lemma {:induction false} SolutionWordAt(ws: seq<string>, i: nat)
    requires i < |ws|
    ensures i + BreaksUpTo(ws, i) < |SolutionLines(ws)|
    ensures SolutionLines(ws)[i + BreaksUpTo(ws, i)] == ws[i]
  {
    var n := |ws|;
    SolutionLinesCount(ws);
    BreaksUpToMonotone(ws, i, n - 1);
    if i < n - 1 {
      SolutionWordAt(ws[..n - 1], i);
      BreaksUpToPrefix(ws, n - 1, i);
    }
  }

  /** A dash line as long as the longer word sits right above a word whose key differs from
      the key of the word before it. */
  lemma {:induction false} SolutionDashAt(ws: seq<string>, i: nat)
    requires 0 < i < |ws| && Breaks(ws[i - 1], ws[i])
    ensures 0 < i + BreaksUpTo(ws, i) <= |SolutionLines(ws)|
    ensures SolutionLines(ws)[i + BreaksUpTo(ws, i) - 1] == DashLine(ws[i - 1], ws[i])
  {
    var n := |ws|;
    SolutionLinesCount(ws);
    BreaksUpToMonotone(ws, i, n - 1);
    if i < n - 1 {
      SolutionDashAt(ws[..n - 1], i);
      BreaksUpToPrefix(ws, n - 1, i);
    } else {
      SolutionLinesCount(ws[..n - 1]);
      BreaksUpToPrefix(ws, n - 1, n - 2);
    }
  }

  lemma SolutionLinesStep(ws: seq<string>, i: nat)
    requires i < |ws|
    ensures i > 0 && Breaks(ws[i - 1], ws[i]) ==>
      Grid.Unlines(SolutionLines(ws[..i + 1]))
      == Grid.Unlines(SolutionLines(ws[..i])) + DashLine(ws[i - 1], ws[i]) + "\n" + ws[i] + "\n"
    ensures !(i > 0 && Breaks(ws[i - 1], ws[i])) ==>
      Grid.Unlines(SolutionLines(ws[..i + 1])) == Grid.Unlines(SolutionLines(ws[..i])) + ws[i] + "\n"
  {
    var p := ws[..i + 1];
    assert p[..i] == ws[..i];
    var before := SolutionLines(ws[..i]);
    if i > 0 && Breaks(ws[i - 1], ws[i]) {
      Grid.UnlinesSnoc(before, DashLine(ws[i - 1], ws[i]));
      Grid.UnlinesSnoc(before + [DashLine(ws[i - 1], ws[i])], ws[i]);
    } else {
      assert SolutionLines(p) == before + [ws[i]];
      Grid.UnlinesSnoc(before, ws[i]);
    }
  }

  /** The loop of solution_str over the sorted words. */
  method SolutionText(sorted: seq<string>) returns (text: string)
    requires NonEmptyWords(sorted)
    ensures text == Grid.Unlines(SolutionLines(sorted))
  {
    text := "";
    for i := 0 to |sorted|
      invariant text == Grid.Unlines(SolutionLines(sorted[..i]))
    {
      var word := sorted[i];
      SolutionLinesStep(sorted, i);
      if i > 0 && (|sorted[i - 1]| != |word| || sorted[i - 1][0] != word[0]) {
        text := text + Repeat('-', Max(|sorted[i - 1]|, |word|)) + "\n";
      }
      text := text + word + "\n";
    }
    WholePrefix(sorted);
  }

  // ---------------------------------------------------------------- solution_grid

  /** The answers in plain string order. */
  function SortedWords(words: seq<string>): (r: seq<string>)
    ensures Sorted(r, StrLess) && multiset(r) == multiset(words)
  {
    StrLessIsStrictTotalOrder();
    Sort(words, StrLess)
  }

  /** grouped_words[(f, l)]: the words of key (f, l) in string order. */
  function Group(words: seq<string>, k: (char, int)): seq<string>
  {
    WithKey(SortedWords(words), k)
  }

  /** The keys of the words of s. */
  function KeySet(s: seq<string>): set<(char, int)>
  {
    set w | w in s :: KeyOf(w)
  }

  /** The dictionary grouped_words holds after grouping the words of sorted. */
  ghost predicate GroupsOf(groups: map<(char, int), seq<string>>, sorted: seq<string>)
  {
    && (forall k :: k in groups <==> k in KeySet(sorted))
    && (forall k :: k in groups ==> groups[k] == WithKey(sorted, k))
  }

  lemma NoWordsWithKey(s: seq<string>, k: (char, int))
    requires k !in KeySet(s)
    ensures WithKey(s, k) == []
  {
    forall i | 0 <= i < |s|
      ensures !KeyIs(k)(s[i])
    {
      assert KeyOf(s[i]) in KeySet(s);
    }
    FilterNone(s, KeyIs(k));
  }

  lemma GroupStep(sorted: seq<string>, i: nat, groups: map<(char, int), seq<string>>)
    requires i < |sorted| && GroupsOf(groups, sorted[..i])
    ensures KeySet(sorted[..i + 1]) == KeySet(sorted[..i]) + {KeyOf(sorted[i])}
    ensures KeyOf(sorted[i]) !in groups ==> WithKey(sorted[..i], KeyOf(sorted[i])) == []
    ensures forall k ::
      WithKey(sorted[..i + 1], k) == WithKey(sorted[..i], k) + (if KeyOf(sorted[i]) == k then [sorted[i]] else [])
  {
    var p := sorted[..i + 1];
    assert p[..i] == sorted[..i];
    assert p == sorted[..i] + [sorted[i]];
    if KeyOf(sorted[i]) !in groups {
      NoWordsWithKey(sorted[..i], KeyOf(sorted[i]));
    }
  }

  /** The grouping loop of solution_grid: grouped_words maps each key to its words. */
  method GroupWords(sorted: seq<string>) returns (groups: map<(char, int), seq<string>>)
    requires NonEmptyWords(sorted)
    ensures GroupsOf(groups, sorted)
  {
    groups := map[];
    for i := 0 to |sorted|
      invariant GroupsOf(groups, sorted[..i])
    {
      var w := sorted[i];
      var key := (w[0], |w|);
      GroupStep(sorted, i, groups);
      if key in groups {
        groups := groups[key := groups[key] + [w]];
      } else {
        groups := groups[key := [w]];
      }
    }
    WholePrefix(sorted);
  }

  /** A cell's text: the group's words one per line, or empty for a key with no group. */
  function GroupCell(groups: map<(char, int), seq<string>>, k: (char, int)): string
  {
    if k in groups then JoinWith("\n", groups[k]) else ""
  }

  lemma GroupCellIsGroup(groups: map<(char, int), seq<string>>, words: seq<string>, k: (char, int))
    requires GroupsOf(groups, SortedWords(words))
    ensures GroupCell(groups, k) == JoinWith("\n", Group(words, k))
  {
    if k !in groups {
      NoWordsWithKey(SortedWords(words), k);
    }
  }

  /** Each first letter as a one-character cell. */
  function LetterCells(cs: seq<char>): (r: seq<Grid.Cell>)
    ensures |r| == |cs| && forall i :: 0 <= i < |cs| ==> r[i] == Grid.Text([cs[i]])
  {
    seq(|cs|, i requires 0 <= i < |cs| => Grid.Text([cs[i]]))
  }

  /** Integers as cells. */
  function NumCells(ns: seq<int>): (r: seq<Grid.Cell>)
    ensures |r| == |ns| && forall i :: 0 <= i < |ns| ==> r[i] == Grid.Num(ns[i])
  {
    seq(|ns|, i requires 0 <= i < |ns| => Grid.Num(ns[i]))
  }

  /** word_grid: the joined group of every (first letter, length) pair. */
  function WordGrid(words: seq<string>, firsts: seq<char>, lengths: seq<int>): (g: seq<seq<Grid.Cell>>)
    ensures |g| == |firsts| && forall i :: 0 <= i < |firsts| ==> |g[i]| == |lengths|
    ensures forall i, j :: 0 <= i < |firsts| && 0 <= j < |lengths| ==>
      g[i][j] == Grid.Text(JoinWith("\n", Group(words, (firsts[i], lengths[j]))))
  {
    seq(|firsts|, i requires 0 <= i < |firsts| =>
      seq(|lengths|, j requires 0 <= j < |lengths| =>
        Grid.Text(JoinWith("\n", Group(words, (firsts[i], lengths[j]))))))
  }

  /** The same comprehension over the dictionary grouped_words. */
  function GroupGrid(groups: map<(char, int), seq<string>>, firsts: seq<char>, lengths: seq<int>): (g: seq<seq<Grid.Cell>>)
    ensures |g| == |firsts| && forall i :: 0 <= i < |firsts| ==> |g[i]| == |lengths|
    ensures forall i, j :: 0 <= i < |firsts| && 0 <= j < |lengths| ==>
      g[i][j] == Grid.Text(GroupCell(groups, (firsts[i], lengths[j])))
  {
    seq(|firsts|, i requires 0 <= i < |firsts| =>
      seq(|lengths|, j requires 0 <= j < |lengths| =>
        Grid.Text(GroupCell(groups, (firsts[i], lengths[j])))))
  }

  lemma GroupGridIsWordGrid(groups: map<(char, int), seq<string>>, words: seq<string>, firsts: seq<char>, lengths: seq<int>)
    requires GroupsOf(groups, SortedWords(words))
    ensures GroupGrid(groups, firsts, lengths) == WordGrid(words, firsts, lengths)
  {
    var g, w := GroupGrid(groups, firsts, lengths), WordGrid(words, firsts, lengths);
    forall i | 0 <= i < |firsts|
      ensures g[i] == w[i]
    {
      forall j | 0 <= j < |lengths|
        ensures g[i][j] == w[i][j]
      {
        GroupCellIsGroup(groups, words, (firsts[i], lengths[j]));
      }
    }
  }

  /** The header row: a blank corner, the lengths and a sigma. */
  function HeaderRow(t: CountTable): seq<Grid.Cell>
  {
    [Grid.Text(" ")] + NumCells(t.lengths) + [Grid.Text([Sigma])]
  }

  /** The footer row: a sigma, the words per length and their total. */
  function FooterRow(t: CountTable): (row: seq<Grid.Cell>)
    ensures |row| == |t.lengthSums| + 2 && row[|row| - 1] == Grid.Num(Sum(t.lengthSums))
  {
    [Grid.Text([Sigma])] + NumCells(t.lengthSums) + [Grid.Num(Sum(t.lengthSums))]
  }

  /** final_grid: the header, one row per first letter framed by the letter and the number
      of its words, and the footer. */
  function FinalGrid(t: CountTable, wordGrid: seq<seq<Grid.Cell>>): seq<seq<Grid.Cell>>
    requires |wordGrid| == |t.firsts| == |t.firstSums|
  {
    var body := Grid.Surround(LetterCells(t.firsts), wordGrid, NumCells(t.firstSums));
    [HeaderRow(t)] + body.value + [FooterRow(t)]
  }

  /** The table solution_grid renders. */
  function SolutionTable(words: seq<string>): seq<seq<Grid.Cell>>
  {
    var t := CountTableOf(words);
    FinalGrid(t, WordGrid(words, t.firsts, t.lengths))
  }

  /** solution_grid() on a list of non-empty words. */
  method SolutionGridText(words: seq<string>) returns (text: string)
    requires NonEmptyWords(words)
    ensures text == Grid.Unlines(Grid.GridLines(SolutionTable(words)))
  {
    var t := CountTableOf(words);
    var sorted := SortedWords(words);
    assert NonEmptyWords(sorted) by {
      forall i | 0 <= i < |sorted| ensures sorted[i] != [] {
        assert sorted[i] in multiset(words);
      }
    }
    var groups := GroupWords(sorted);
    var wordGrid := GroupGrid(groups, t.firsts, t.lengths);
    GroupGridIsWordGrid(groups, words, t.firsts, t.lengths);
    text := Grid.GridStr(FinalGrid(t, wordGrid));
  }

  // ---------------------------------------------------------------- what the table shows

  /** The rows of final_grid, for any margins of the right lengths. */
  lemma FinalGridRows(t: CountTable, wordGrid: seq<seq<Grid.Cell>>)
    requires |wordGrid| == |t.firsts| == |t.firstSums| && |t.lengthSums| == |t.lengths|
    requires forall i :: 0 <= i < |wordGrid| ==> |wordGrid[i]| == |t.lengths|
    ensures var table := FinalGrid(t, wordGrid);
      && |table| == |t.firsts| + 2
      && (forall r :: 0 <= r < |table| ==> |table[r]| == |t.lengths| + 2)
      && table[|table| - 1] == FooterRow(t)
      && (forall i :: 0 <= i < |wordGrid| ==>
            table[i + 1] == [Grid.Text([t.firsts[i]])] + wordGrid[i] + [Grid.Num(t.firstSums[i])])
  {
  }

  /** The table has a header, a row per first letter and a footer, each with a cell per
      length plus two; the corner of the footer is the number of words. */
  lemma SolutionTableShape(words: seq<string>)
    ensures var t := CountTableOf(words); var table := SolutionTable(words);
      && |table| == |t.firsts| + 2
      && (forall r :: 0 <= r < |table| ==> |table[r]| == |t.lengths| + 2)
      && table[|table| - 1][|t.lengths| + 1] == Grid.Num(|words|)
  {
    var t := CountTableOf(words);
    MarginTotals(words);
    FinalGridRows(t, WordGrid(words, t.firsts, t.lengths));
  }

  /** Row i + 1 of the table: the letter, the joined group of each length (see WordGrid),
      and the number of words starting with the letter. */
  lemma SolutionTableRow(words: seq<string>, i: nat)
    requires i < |CountTableOf(words).firsts|
    ensures var t := CountTableOf(words);
      SolutionTable(words)[i + 1]
      == [Grid.Text([t.firsts[i]])] + WordGrid(words, t.firsts, t.lengths)[i] + [Grid.Num(Count(words, FirstOf, t.firsts[i]))]
  {
    var t := CountTableOf(words);
    FinalGridRows(t, WordGrid(words, t.firsts, t.lengths));
  }

  /** A group holds exactly the words with its key, in string order. */
  lemma GroupContents(words: seq<string>, k: (char, int))
    ensures Sorted(Group(words, k), StrLess)
    ensures forall w :: w in Group(words, k) <==> w in words && KeyOf(w) == k
  {
    var sorted := SortedWords(words);
    forall w ensures w in sorted <==> w in words {
      assert w in sorted <==> w in multiset(sorted);
    }
    FilterSorted(sorted, KeyIs(k), StrLess);
  }

  /** When no word holds whitespace, each cell of words splits back into its group, so the
      table shows every word of the group on a line of its own. */
  lemma GroupCellSplits(words: seq<string>, k: (char, int))
    requires forall i :: 0 <= i < |words| ==> IsToken(words[i])
    ensures Split(JoinWith("\n", Group(words, k))) == Group(words, k)
  {
    var g := Group(words, k);
    GroupContents(words, k);
    forall i | 0 <= i < |g| ensures IsToken(g[i]) {
      assert g[i] in words;
    }
    SplitJoin('\n', g);
  }

  /** Each cell lists as many words as grid_str counts for the same first letter and length. */
  lemma GroupSizeIsCount(words: seq<string>, k: (char, int))
    ensures |Group(words, k)| == Count(words, KeyOf, k)
  {
    var sorted := SortedWords(words);
    FilterLengthPermutation(sorted, words, KeyIs(k));
    CountIsFilterLength(words, KeyOf, k, KeyIs(k));
  }

  /** Every line of solution_grid's table is as long as its divider, except the blank line
      of a row without words. */
  lemma SolutionLinesAligned(words: seq<string>)
    ensures var table := SolutionTable(words);
      forall line :: line in Grid.GridLines(table) ==>
        line == "" || |line| == Sum(Grid.ColumnWidths(Grid.StringValues(table))) + 3 * (|CountTableOf(words).lengths| + 1) + 2
  {
    SolutionTableShape(words);
    Grid.GridLinesAligned(SolutionTable(words), |CountTableOf(words).lengths| + 2);
  }
}
