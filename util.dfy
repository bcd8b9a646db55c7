/** util.py's small helpers: find_median, scrabble_score over SCRABBLE_SCORES, and the
    line layout of print_adjacent. */
module Util {
  import opened Wrappers
  import opened Ordering
  import opened Lists
  import opened Strings

  // ---------------------------------------------------------------- find_median

  /** sorted(lst) for integers: ascending, with the same values. */
  function SortedInts(lst: seq<int>): (s: seq<int>)
    ensures multiset(s) == multiset(lst) && |s| == |lst|
    ensures forall i, j :: 0 <= i <= j < |s| ==> s[i] <= s[j]
  {
    IntLessIsStrictTotalOrder();
    var s := Sort(lst, IntLess);
    assert |s| == |multiset(s)|;
    assert forall i, j :: 0 <= i < j < |s| ==> !IntLess(s[j], s[i]);
    s
  }

  /** The middle of an ascending list: the middle element, or the mean of the two middle
      elements when the length is even. */
  function Middle(s: seq<int>): real
    requires s != []
  {
    var n := |s|;
    if n % 2 == 1 then s[n / 2] as real
    else (s[n / 2 - 1] + s[n / 2]) as real / 2.0
  }

  /** find_median(lst) over integers: the middle of the sorted list; an empty list fails on
      the index just before the middle, which does not exist. */
  function FindMedian(lst: seq<int>): (r: Result<real>)
    ensures r.Err? <==> lst == []
    ensures r.Err? ==> r.error == IndexError
  {
    var s := SortedInts(lst);
    if s == [] then Err(IndexError) else Ok(Middle(s))
  }

  function AtMost(m: real): int -> bool
  {
    x => x as real <= m
  }

  function AtLeast(m: real): int -> bool
  {
    x => x as real >= m
  }

  /** The median only depends on the values, not on their order. */
  lemma FindMedianOrderIndependent(xs: seq<int>, ys: seq<int>)
    requires multiset(xs) == multiset(ys)
    ensures FindMedian(xs) == FindMedian(ys)
  {
    IntLessIsStrictTotalOrder();
    SortDeterminedByMultiset(xs, ys, IntLess);
  }

  /** In an ascending list, the middle has half of the list (rounded up) on each side. */
  lemma MiddleSplitsHalf(s: seq<int>)
    requires s != []
    requires forall i, j :: 0 <= i <= j < |s| ==> s[i] <= s[j]
    ensures |Filter(s, AtMost(Middle(s)))| >= (|s| + 1) / 2
    ensures |Filter(s, AtLeast(Middle(s)))| >= (|s| + 1) / 2
  {
    var n := |s|;
    var m := Middle(s);
    if n % 2 == 1 {
      FilterKeepsRun(s, AtMost(m), 0, n / 2 + 1);
    } else {
      assert forall i :: 0 <= i < n / 2 ==> AtMost(m)(s[i]) by {
        assert s[n / 2 - 1] <= s[n / 2];
      }
      FilterKeepsRun(s, AtMost(m), 0, n / 2);
    }
    FilterKeepsRun(s, AtLeast(m), n / 2, n);
  }

  /** The median splits the list in halves: at least half of the values (rounded up) lie at
      or below it, and at least half lie at or above it. */
  lemma FindMedianSplitsHalf(lst: seq<int>)
    requires lst != []
    ensures |Filter(lst, AtMost(FindMedian(lst).value))| >= (|lst| + 1) / 2
    ensures |Filter(lst, AtLeast(FindMedian(lst).value))| >= (|lst| + 1) / 2
  {
    var s := SortedInts(lst);
    var m := Middle(s);
    MiddleSplitsHalf(s);
    FilterLengthPermutation(lst, s, AtMost(m));
    FilterLengthPermutation(lst, s, AtLeast(m));
  }

  /** For an odd length the median is one of the values. */
  lemma FindMedianOddIsValue(lst: seq<int>)
    requires |lst| % 2 == 1
    ensures exists i :: 0 <= i < |lst| && FindMedian(lst) == Ok(lst[i] as real)
  {
    var s := SortedInts(lst);
    assert s[|s| / 2] in multiset(lst);
    var i :| 0 <= i < |lst| && lst[i] == s[|s| / 2];
  }

  // ---------------------------------------------------------------- scrabble_score

  /** The letter values of the game, for A to Z in alphabetical order. */
  const LetterValues: seq<nat> :=
    [1, 3, 3, 2, 1, 4, 2, 4, 1, 8, 5, 1, 3, 1, 1, 3, 10, 1, 1, 1, 1, 4, 4, 8, 4, 10]

  predicate IsScrabbleLetter(c: char) { 'A' <= c <= 'Z' }

  /** SCRABBLE_SCORES: each upper-case letter A to Z with its value. */
  const ScrabbleScores: map<char, nat> :=
    map c | IsScrabbleLetter(c) :: LetterValues[c as int - 'A' as int]

  /** The table scores exactly the letters A to Z, each between 1 and 10. */
  lemma ScrabbleScoresDomain(c: char)
    ensures c in ScrabbleScores <==> IsScrabbleLetter(c)
    ensures c in ScrabbleScores ==> 1 <= ScrabbleScores[c] <= 10
  {
    assert forall k :: 0 <= k < |LetterValues| ==> 1 <= LetterValues[k] <= 10;
  }

  /** scrabble_score(word): the sum of the letter scores; a character with no score raises
      KeyError. */
  function ScrabbleScore(word: string): (r: Result<nat>)
    ensures r.Err? <==> exists i :: 0 <= i < |word| && !IsScrabbleLetter(word[i])
    ensures r.Err? ==> r.error == KeyError
    ensures r.Ok? ==> |word| <= r.value <= 10 * |word|
  {
    if word == [] then Ok(0)
    else
      var init := word[..|word| - 1];
      var c := word[|word| - 1];
      ScrabbleScoresDomain(c);
      var rest := ScrabbleScore(init);
      if rest.Err? then
        assert exists i :: 0 <= i < |word| && !IsScrabbleLetter(word[i]) by {
          var i :| 0 <= i < |init| && !IsScrabbleLetter(init[i]);
          assert word[i] == init[i];
        }
        Err(KeyError)
      else if c !in ScrabbleScores then Err(KeyError)
      else
        assert forall i :: 0 <= i < |word| ==> IsScrabbleLetter(word[i]) by {
          forall i | 0 <= i < |word| ensures IsScrabbleLetter(word[i]) {
            if i < |init| {
              assert word[i] == init[i];
            }
          }
        }
        Ok(rest.value + ScrabbleScores[c])
  }

  /** The score of a word made of letters, as the sum of the list of its letter scores. */
  function LetterScores(word: string): (scores: seq<int>)
    requires forall i :: 0 <= i < |word| ==> IsScrabbleLetter(word[i])
    ensures |scores| == |word|
  {
    seq(|word|, i requires 0 <= i < |word| => ScrabbleScoresDomain(word[i]); ScrabbleScores[word[i]] as int)
  }

  /** The score is the sum of the per-letter scores. */
  lemma {:induction false} ScrabbleScoreIsSum(word: string)
    requires forall i :: 0 <= i < |word| ==> IsScrabbleLetter(word[i])
    ensures ScrabbleScore(word) == Ok(Sum(LetterScores(word)))
  {
    if word != [] {
      var init := word[..|word| - 1];
      ScrabbleScoreIsSum(init);
      assert LetterScores(word)[..|word| - 1] == LetterScores(init);
    }
  }

  /** Scores add up over concatenation, and a concatenation fails exactly when a part does. */
  lemma {:induction false} ScrabbleScoreAppend(a: string, b: string)
    ensures ScrabbleScore(a + b).Ok? <==> ScrabbleScore(a).Ok? && ScrabbleScore(b).Ok?
    ensures ScrabbleScore(a + b).Ok? ==>
      ScrabbleScore(a + b).value == ScrabbleScore(a).value + ScrabbleScore(b).value
    decreases |b|
  {
    if b == [] {
      assert a + b == a;
    } else {
      var init := b[..|b| - 1];
      assert (a + b)[..|a + b| - 1] == a + init;
      ScrabbleScoreAppend(a, init);
    }
  }

  // ---------------------------------------------------------------- print_adjacent

  /** Padding a list of lines with blank ones up to the height; a list already that long is
      left as it is. */
  function Padded(lines: seq<string>, height: nat): (r: seq<string>)
    ensures |r| == Max(|lines|, height)
    ensures forall i :: 0 <= i < |r| ==> r[i] == LineAt(lines, i)
  {
    lines + seq(if height > |lines| then height - |lines| else 0, _ => "")
  }

  /** Line i of a list, blank past its end. */
  function LineAt(lines: seq<string>, i: nat): string
  {
    if i < |lines| then lines[i] else ""
  }

  /** The length of the longest line of a non-empty list. */
  function MaxLength(lines: seq<string>): (n: nat)
    requires lines != []
    ensures forall i :: 0 <= i < |lines| ==> |lines[i]| <= n
    ensures exists i :: 0 <= i < |lines| && |lines[i]| == n
  {
    if |lines| == 1 then |lines[0]|
    else
      var init := lines[..|lines| - 1];
      var m := MaxLength(init);
      assert forall i :: 0 <= i < |init| ==> lines[i] == init[i];
      if m < |lines[|lines| - 1]| then |lines[|lines| - 1]| else m
  }

  /** One printed line: the left line justified to the width, a space, the right line. */
  function SideBySide(left: string, right: string, width: nat): string
  {
    LJust(left, width) + " " + right
  }

  /** line shows left justified to the width, one space, then right: the right part starts
      one past the width. */
  ghost predicate SplitsAt(line: string, left: string, right: string, width: nat)
  {
    && |line| == width + 1 + |right|
    && line[..width] == LJust(left, width)
    && line[width] == ' '
    && line[width + 1..] == right
  }

  /** A left line no longer than the width puts the right line one past the width. */
  lemma SideBySideParts(left: string, right: string, width: nat)
    requires |left| <= width
    ensures SplitsAt(SideBySide(left, right, width), left, right, width)
  {
  }

  /** The lines print_adjacent prints for two lists of lines: one per line of the taller
      list, the left line (blank past its end) justified to the longest left line. */
  function Juxtapose(lines1: seq<string>, lines2: seq<string>): (lines: seq<string>)
    requires lines1 != []
    ensures |lines| == Max(|lines1|, |lines2|)
  {
    var width := MaxLength(lines1);
    seq(Max(|lines1|, |lines2|), i requires 0 <= i =>
      SideBySide(LineAt(lines1, i), LineAt(lines2, i), width))
  }

  function AdjacentLines(left: string, right: string): seq<string>
  {
    Juxtapose(SplitOn(left, '\n'), SplitOn(right, '\n'))
  }

  /** Padding with blank lines leaves the longest length alone. */
  lemma PaddedMaxLength(lines: seq<string>, height: nat)
    requires lines != []
    ensures MaxLength(Padded(lines, height)) == MaxLength(lines)
  {
    var padded := Padded(lines, height);
    var j :| 0 <= j < |lines| && |lines[j]| == MaxLength(lines);
    assert padded[j] == lines[j];
  }

  /** print_adjacent(multiline_string1, multiline_string2): splits both strings into lines
      and prints them side by side; the printed lines are returned. */
  method PrintAdjacent(left: string, right: string) returns (lines: seq<string>)
    ensures lines == AdjacentLines(left, right)
  {
    var lines1 := SplitOn(left, '\n');
    var lines2 := SplitOn(right, '\n');
    lines := PrintLines(lines1, lines2);
  }

  /** The body of print_adjacent after the split: pads both line lists to the taller height,
      then prints each pair of lines side by side. */
  method PrintLines(lines1: seq<string>, lines2: seq<string>) returns (lines: seq<string>)
    requires lines1 != []
    ensures lines == Juxtapose(lines1, lines2)
  {
    ghost var spec := Juxtapose(lines1, lines2);
    var height := Max(|lines1|, |lines2|);
    PaddedMaxLength(lines1, height);
    var padded1 := Padded(lines1, height);
    var padded2 := Padded(lines2, height);
    var width := MaxLength(padded1);
    lines := [];
    for i := 0 to height
      invariant lines == spec[..i]
    {
      var line := SideBySide(padded1[i], padded2[i], width);
      assert line == spec[i];
      PrefixSnoc(spec, i);
      lines := lines + [line];
    }
    WholePrefix(spec);
  }

  /** One printed line: the left line (blank past its end) justified to the longest left
      line, one space, then the right line (blank past its end). */
  lemma JuxtaposeLine(lines1: seq<string>, lines2: seq<string>, i: nat)
    requires lines1 != [] && i < Max(|lines1|, |lines2|)
    ensures SplitsAt(Juxtapose(lines1, lines2)[i], LineAt(lines1, i), LineAt(lines2, i), MaxLength(lines1))
  {
    var width := MaxLength(lines1);
    assert Juxtapose(lines1, lines2)[i] == SideBySide(LineAt(lines1, i), LineAt(lines2, i), width);
    assert |LineAt(lines1, i)| <= width;
    SideBySideParts(LineAt(lines1, i), LineAt(lines2, i), width);
  }

  /** The layout: as many lines as the taller side, and on every line the right column
      starts at the same offset, one past the longest left line. */
  lemma AdjacentLayout(left: string, right: string, i: nat)
    requires i < |AdjacentLines(left, right)|
    ensures |AdjacentLines(left, right)| == Max(|SplitOn(left, '\n')|, |SplitOn(right, '\n')|)
    ensures SplitsAt(AdjacentLines(left, right)[i], LineAt(SplitOn(left, '\n'), i),
      LineAt(SplitOn(right, '\n'), i), MaxLength(SplitOn(left, '\n')))
  {
    JuxtaposeLine(SplitOn(left, '\n'), SplitOn(right, '\n'), i);
  }

  /** The first n lines from offset start on (blank for a line too short). */
  function Column(lines: seq<string>, start: nat, n: nat): (column: seq<string>)
    requires n <= |lines|
    ensures |column| == n
  {
    seq(n, i requires 0 <= i < n => if start <= |lines[i]| then lines[i][start..] else "")
  }

  /** The printed lines for the right-hand lines, each read from one past the longest left
      line. */
  function RightColumn(lines1: seq<string>, lines2: seq<string>): seq<string>
    requires lines1 != []
  {
    Column(Juxtapose(lines1, lines2), MaxLength(lines1) + 1, |lines2|)
  }

  /** Reading the juxtaposed lines from one past the longest left line gives back the right
      lines. */
  lemma JuxtaposeRightColumn(lines1: seq<string>, lines2: seq<string>)
    requires lines1 != []
    ensures RightColumn(lines1, lines2) == lines2
  {
    var width := MaxLength(lines1);
    var lines := Juxtapose(lines1, lines2);
    forall i | 0 <= i < |lines2| ensures RightColumn(lines1, lines2)[i] == lines2[i] {
      JuxtaposeLine(lines1, lines2, i);
      assert LineAt(lines2, i) == lines2[i];
    }
  }

  /** The right-hand column of what print_adjacent prints, joined with newlines, is the right
      string. */
  lemma AdjacentRightColumn(left: string, right: string)
    ensures JoinWith(['\n'], RightColumn(SplitOn(left, '\n'), SplitOn(right, '\n'))) == right
  {
    JuxtaposeRightColumn(SplitOn(left, '\n'), SplitOn(right, '\n'));
  }
}
