/** main.py's Puzzle objects and get_puzzles: a puzzle holds its letters and, once solved
    against a dictionary, its answers and pangrams; its reports are built from the answers. */
module Puzzles {
  import opened Wrappers
  import opened Ordering
  import opened Lists
  import opened Letters
  import Counts
  import Listing
  import Grid

  class Puzzle {
    var keyLetter: char
    var otherLetters: seq<char>
    /** all_words and all_pangrams: None until solve runs. */
    var allWords: Option<seq<string>>
    var allPangrams: Option<seq<string>>

    /** Puzzle(key_letter, other_letters): no other letters when none are given. */
    constructor (key: char, others: Option<seq<char>>)
      ensures keyLetter == key
      ensures otherLetters == (if others.Some? then others.value else [])
      ensures allWords.None? && allPangrams.None?
    {
      keyLetter := key;
      otherLetters := if others.Some? then others.value else [];
      allWords := None;
      allPangrams := None;
    }

    /** The letters that identify the puzzle. */
    function AsLetters(): PuzzleLetters
      reads this
    {
      PuzzleLetters(keyLetter, otherLetters)
    }

    /** Puzzle.of(key, word): a fresh, unsolved puzzle with the letters Letters.Of derives. */
    static method Of(key: char, word: string) returns (p: Puzzle)
      ensures fresh(p)
      ensures p.AsLetters() == Letters.Of(key, word)
      ensures p.allWords.None? && p.allPangrams.None?
    {
      var letters := Letters.Of(key, word);
      p := new Puzzle(key, Some(letters.others));
    }

    /** solve(dictionary): replaces both answer lists, whatever they held before. */
    method Solve(dictionary: seq<string>)
      modifies this
      ensures AsLetters() == old(AsLetters())
      ensures allWords == Some(AsLetters().Solutions(dictionary))
      ensures allPangrams == Some(AsLetters().Pangrams(dictionary))
    {
      var letters := AsLetters();
      var words := letters.Solutions(dictionary);
      allWords := Some(words);
      allPangrams := Some(letters.Pangrams(words));
      PangramsOfSolutions(letters, dictionary);
    }

    /** __eq__: two puzzles are equal when their display strings are, which is when they
        have the same key and the same other letters in the same order. */
    function Equals(other: Puzzle): (eq: bool)
      reads this, other
      ensures eq <==> AsLetters() == other.AsLetters()
    {
      StrInjective(AsLetters(), other.AsLetters());
      AsLetters().Str() == other.AsLetters().Str()
    }

    /** __hash__: the hash of the display string, for a given string hash. */
    function Hash(hash: string -> int): int
      reads this
    {
      hash(AsLetters().Str())
    }

    /** n_words(): the number of answers, asserting that solve has run. */
    method NWords() returns (r: Result<nat>)
      ensures allWords.None? ==> r == Err(AssertionError)
      ensures allWords.Some? ==> r == Ok(|allWords.value|)
    {
      if allWords.None? {
        return Err(AssertionError);
      }
      return Ok(|allWords.value|);
    }

    /** grid_str(): the count table of the answers; the assertion fails before solve, and a
        blank answer has no first letter to count by. */
    method GridStr() returns (r: Result<string>)
      ensures allWords.None? || allPangrams.None? ==> r == Err(AssertionError)
      ensures allWords.Some? && allPangrams.Some? && "" in allWords.value ==> r == Err(IndexError)
      ensures allWords.Some? && allPangrams.Some? && "" !in allWords.value ==>
        r == Ok(Grid.Unlines(Counts.CountTableLines(Counts.CountTableOf(allWords.value), |allWords.value|)))
    {
      if allWords.None? || allPangrams.None? {
        return Err(AssertionError);
      }
      var words := allWords.value;
      if "" in words {
        return Err(IndexError);
      }
      var t := Counts.CountGrid(words);
      var text := Counts.RenderCountTable(t, |words|);
      return Ok(text);
    }

    /** solution_str(): the answers by first letter and length, one per line, with a dash
        line where the group changes; sorting None fails, and so does a blank answer. */
    method SolutionStr() returns (r: Result<string>)
      ensures allWords.None? ==> r == Err(TypeError)
      ensures allWords.Some? && "" in allWords.value ==> r == Err(IndexError)
      ensures allWords.Some? && "" !in allWords.value ==>
        r == Ok(Grid.Unlines(Listing.SolutionLines(Listing.SortByKey(allWords.value))))
    {
      if allWords.None? {
        return Err(TypeError);
      }
      var words := allWords.value;
      if "" in words {
        return Err(IndexError);
      }
      var sorted := Listing.SortByKey(words);
      assert Counts.NonEmptyWords(sorted) by {
        forall i | 0 <= i < |sorted| ensures sorted[i] != [] {
          assert sorted[i] in multiset(words);
        }
      }
      var text := Listing.SolutionText(sorted);
      return Ok(text);
    }

    /** solution_grid(): the table of answers; iterating None fails, and so does a blank
        answer. */
    method SolutionGrid() returns (r: Result<string>)
      ensures allWords.None? ==> r == Err(TypeError)
      ensures allWords.Some? && "" in allWords.value ==> r == Err(IndexError)
      ensures allWords.Some? && "" !in allWords.value ==>
        r == Ok(Grid.Unlines(Grid.GridLines(Listing.SolutionTable(allWords.value))))
    {
      if allWords.None? {
        return Err(TypeError);
      }
      var words := allWords.value;
      if "" in words {
        return Err(IndexError);
      }
      var text := Listing.SolutionGridText(words);
      return Ok(text);
    }
  }

  /** Equal puzzles hash equally, whatever the string hash. */
  lemma EqualPuzzlesHashEqually(a: Puzzle, b: Puzzle, hash: string -> int)
    requires a.Equals(b)
    ensures a.Hash(hash) == b.Hash(hash)
  {
  }

  // ---------------------------------------------------------------- get_puzzles

  /** The dictionary words with exactly seven distinct letters, in dictionary order. */
  function SevenLetterWords(dictionary: seq<string>): (ws: seq<string>)
    ensures forall w :: w in ws <==> w in dictionary && |Elements(w)| == 7
  {
    Filter(dictionary, w => |Elements(w)| == 7)
  }

  /** The puzzles of each word of ws, one per distinct letter taken as key. */
  function PuzzlesOf(ws: seq<string>): set<PuzzleLetters>
  {
    set w, c | w in ws && c in w :: Letters.Of(c, w)
  }

  /** The puzzles of one word for the keys in cs. */
  function WordPuzzles(w: string, cs: set<char>): set<PuzzleLetters>
  {
    set c | c in cs :: Letters.Of(c, w)
  }

  lemma PuzzlesOfStep(ws: seq<string>, i: nat)
    requires i < |ws|
    ensures PuzzlesOf(ws[..i + 1]) == PuzzlesOf(ws[..i]) + WordPuzzles(ws[i], Elements(ws[i]))
  {
    assert ws[..i + 1] == ws[..i] + [ws[i]];
  }

  lemma WordPuzzlesAdd(w: string, all: set<char>, remaining: set<char>, c: char)
    requires c in remaining && remaining <= all
    ensures WordPuzzles(w, all - (remaining - {c})) == WordPuzzles(w, all - remaining) + {Letters.Of(c, w)}
  {
    assert all - (remaining - {c}) == (all - remaining) + {c};
  }

  /** get_puzzles(dictionary): the inner loop over the letters of one word. */
  method AddWordPuzzles(puzzles: set<PuzzleLetters>, w: string) returns (r: set<PuzzleLetters>)
    ensures r == puzzles + WordPuzzles(w, Elements(w))
  {
    r := puzzles;
    var remaining := Elements(w);
    while remaining != {}
      invariant remaining <= Elements(w)
      invariant r == puzzles + WordPuzzles(w, Elements(w) - remaining)
      decreases |remaining|
    {
      var c :| c in remaining;
      WordPuzzlesAdd(w, Elements(w), remaining, c);
      r := r + {Letters.Of(c, w)};
      remaining := remaining - {c};
    }
  }

  /** get_puzzles(dictionary). */
  method GetPuzzles(dictionary: seq<string>) returns (puzzles: set<PuzzleLetters>)
    ensures puzzles == PuzzlesOf(SevenLetterWords(dictionary))
  {
    var pangrams := SevenLetterWords(dictionary);
    puzzles := {};
    for i := 0 to |pangrams|
      invariant puzzles == PuzzlesOf(pangrams[..i])
    {
      PuzzlesOfStep(pangrams, i);
      puzzles := AddWordPuzzles(puzzles, pangrams[i]);
    }
    WholePrefix(pangrams);
  }

  /** Every puzzle get_puzzles finds comes from a seven-letter word of the dictionary: its
      key is a letter of the word, its seven letters are the word's, and the word is one of
      its pangrams; and every letter of every such word gives one. */
  lemma GetPuzzlesShape(dictionary: seq<string>, p: PuzzleLetters)
    ensures p in PuzzlesOf(SevenLetterWords(dictionary)) <==>
      exists w :: w in dictionary && |Elements(w)| == 7 && p.key in w && p == Letters.Of(p.key, w)
    ensures p in PuzzlesOf(SevenLetterWords(dictionary)) ==>
      |p.others| == 6 && |Elements(p.AllLetters())| == 7
      && exists w :: w in dictionary && Elements(p.AllLetters()) == Elements(w) && p.IsPangram(w)
  {
    if p in PuzzlesOf(SevenLetterWords(dictionary)) {
      var w, c :| w in SevenLetterWords(dictionary) && c in w && p == Letters.Of(c, w);
      OfUsesWordLetters(c, w);
      OfSevenLetters(c, w);
    }
  }
}
