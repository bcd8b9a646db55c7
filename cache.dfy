/** cache.py: normalising and filtering word lists, and refining the Scrabble word list
    against the official answers of past puzzles. File reading and writing are outside the
    model: word lists and past puzzles are given as values. */
module Cache {
  import opened Ordering
  import opened Strings
  import opened Lists
  import opened Letters
  import Puzzles

  // ---------------------------------------------------------------- file names and word lists

  /** add_txt_extension(string). */
  function AddTxtExtension(s: string): (r: string)
    ensures EndsWith(r, ".txt")
    ensures EndsWith(s, ".txt") ==> r == s
    ensures !EndsWith(s, ".txt") ==> r == s + ".txt"
  {
    if EndsWith(s, ".txt") then s
    else
      assert (s + ".txt")[|s|..] == ".txt";
      s + ".txt"
  }

  /** Adding the extension twice is adding it once. */
  lemma AddTxtExtensionIdempotent(s: string)
    ensures AddTxtExtension(AddTxtExtension(s)) == AddTxtExtension(s)
  {
  }

  /** Every word upper-cased, in order. */
  function UpperAll(ws: seq<string>): (r: seq<string>)
    ensures |r| == |ws| && forall i :: 0 <= i < |ws| ==> r[i] == Upper(ws[i])
  {
    seq(|ws|, i requires 0 <= i < |ws| => Upper(ws[i]))
  }

  /** The word list save_dictionary writes: the distinct upper-cased words, in ascending order. */
  function NormalizedWords(ws: seq<string>): seq<string>
  {
    StrLessIsStrictTotalOrder();
    SortedUnique(UpperAll(ws), StrLess)
  }

  /** The written list is upper case, strictly ascending (so free of duplicates), and holds
      exactly the upper-cased input words. */
  lemma NormalizedWordsSpec(ws: seq<string>)
    ensures StrictlySorted(NormalizedWords(ws), StrLess)
    ensures forall w :: w in NormalizedWords(ws) <==> exists i :: 0 <= i < |ws| && w == Upper(ws[i])
    ensures forall w :: w in NormalizedWords(ws) ==> IsUpper(w)
  {
    StrLessIsStrictTotalOrder();
    var u := UpperAll(ws);
    var r := NormalizedWords(ws);
    assert Elements(r) == Elements(u);
    forall w
      ensures w in r <==> exists i :: 0 <= i < |ws| && w == Upper(ws[i])
    {
      assert w in r <==> w in Elements(r);
      assert w in u <==> w in Elements(u);
      if w in u {
        var i :| 0 <= i < |u| && u[i] == w;
        assert w == Upper(ws[i]);
      }
      if exists i :: 0 <= i < |ws| && w == Upper(ws[i]) {
        var i :| 0 <= i < |ws| && w == Upper(ws[i]);
        assert u[i] == w;
      }
    }
  }

  /** load_scrabble_dictionary() over the lines of the word file: the set of upper-cased
      lines that have at least four characters. */
  function ScrabbleWords(lines: seq<string>): (words: set<string>)
    ensures forall w :: w in words ==> IsUpper(w) && |w| >= 4
    ensures forall i :: 0 <= i < |lines| && |lines[i]| >= 4 ==> Upper(lines[i]) in words
    ensures forall w :: w in words ==> exists i :: 0 <= i < |lines| && |lines[i]| >= 4 && w == Upper(lines[i])
  {
    set w | w in lines && |w| >= 4 :: Upper(w)
  }

  // ---------------------------------------------------------------- refining the word list

  /** A past puzzle as published: its key, its other letters and its official answers. */
  datatype OfficialPuzzle = OfficialPuzzle(key: char, others: seq<char>, words: seq<string>)

  /** Puzzle.of(official.key_letter, official.other_letters). */
  function LettersOf(p: OfficialPuzzle): PuzzleLetters
  {
    Letters.Of(p.key, p.others)
  }

  /** set(my_solve.all_words): the words of the dictionary the puzzle accepts. */
  function Accepted(p: PuzzleLetters, dictionary: set<string>): set<string>
  {
    set w | w in dictionary && p.ContainsWord(w)
  }

  /** The working dictionary after the first |ps| puzzles: each removes the words it
      accepts that its official list lacks. */
  function Refined(start: set<string>, ps: seq<OfficialPuzzle>): set<string>
  {
    if ps == [] then start
    else
      var before := Refined(start, ps[..|ps| - 1]);
      var last := ps[|ps| - 1];
      before - (Accepted(LettersOf(last), before) - Elements(last.words))
  }

  /** The unverified words after the first |ps| puzzles: each strikes every word it accepts
      from the working dictionary of its turn. */
  function Unverified(start: set<string>, ps: seq<OfficialPuzzle>): set<string>
  {
    if ps == [] then start
    else
      var i := |ps| - 1;
      Unverified(start, ps[..i]) - Accepted(LettersOf(ps[i]), Refined(start, ps[..i]))
  }

  lemma RefinedStep(start: set<string>, ps: seq<OfficialPuzzle>, i: nat)
    requires i < |ps|
    ensures var before := Refined(start, ps[..i]);
      Refined(start, ps[..i + 1]) == before - (Accepted(LettersOf(ps[i]), before) - Elements(ps[i].words))
    ensures Unverified(start, ps[..i + 1])
      == Unverified(start, ps[..i]) - Accepted(LettersOf(ps[i]), Refined(start, ps[..i]))
  {
    assert ps[..i + 1][..i] == ps[..i];
  }

  /** The elements of a set, listed in some order, as iterating over a Python set does. */
  method Listed(s: set<string>) returns (xs: seq<string>)
    ensures Elements(xs) == s
    ensures |xs| == |s|
  {
    xs := [];
    var rest := s;
    while rest != {}
      invariant rest <= s && Elements(xs) == s - rest
      invariant |xs| + |rest| == |s|
      decreases |rest|
    {
      var w :| w in rest;
      assert Elements(xs + [w]) == Elements(xs) + {w};
      xs := xs + [w];
      rest := rest - {w};
    }
  }

  /** save_unverified_words: the refinement loop over the past puzzles, returning the final
      working dictionary and the unverified words it would save. */
  method SaveUnverifiedWords(scrabble: set<string>, retconned: set<string>, officials: seq<OfficialPuzzle>)
    returns (dictionary: set<string>, unverified: set<string>)
    ensures dictionary == Refined(scrabble - retconned, officials)
    ensures unverified == Unverified(scrabble - retconned, officials)
  {
    var start := scrabble - retconned;
    dictionary := start;
    unverified := dictionary;
    for i := 0 to |officials|
      invariant dictionary == Refined(start, officials[..i])
      invariant unverified == Unverified(start, officials[..i])
    {
      var official := officials[i];
      var mySolve := Puzzles.Puzzle.Of(official.key, official.others);
      var listed := Listed(dictionary);
      mySolve.Solve(listed);
      var accepted := Elements(mySolve.allWords.value);
      assert accepted == Accepted(LettersOf(official), dictionary);
      var illegal := accepted - Elements(official.words);
      dictionary := dictionary - illegal;
      unverified := unverified - accepted;
      RefinedStep(start, officials, i);
    }
    WholePrefix(officials);
  }

  /** The working dictionary only shrinks: after more puzzles it is a subset of what it was
      after fewer. */
  lemma {:induction false} RefinedShrinks(start: set<string>, ps: seq<OfficialPuzzle>, i: nat)
    requires i <= |ps|
    ensures Refined(start, ps) <= Refined(start, ps[..i]) <= start
    decreases |ps|
  {
    if i < |ps| {
      var init := ps[..|ps| - 1];
      RefinedShrinks(start, init, i);
      assert init[..i] == ps[..i];
    } else {
      assert ps[..i] == ps;
      if ps != [] {
        RefinedShrinks(start, ps[..|ps| - 1], |ps| - 1);
      }
    }
  }

  /** The unverified words only shrink: after more puzzles they are a subset of what they
      were after fewer. */
  lemma {:induction false} UnverifiedShrinks(start: set<string>, ps: seq<OfficialPuzzle>, i: nat)
    requires i <= |ps|
    ensures Unverified(start, ps) <= Unverified(start, ps[..i]) <= start
    decreases |ps|
  {
    if i < |ps| {
      var init := ps[..|ps| - 1];
      UnverifiedShrinks(start, init, i);
      assert init[..i] == ps[..i];
    } else {
      assert ps[..i] == ps;
      if ps != [] {
        UnverifiedShrinks(start, ps[..|ps| - 1], |ps| - 1);
      }
    }
  }

  /** The unverified words stay inside the working dictionary. */
  lemma {:induction false} UnverifiedInRefined(start: set<string>, ps: seq<OfficialPuzzle>)
    ensures Unverified(start, ps) <= Refined(start, ps)
  {
    if ps != [] {
      UnverifiedInRefined(start, ps[..|ps| - 1]);
    }
  }

  /** Soundness for each past puzzle: every word of the final working dictionary that the
      puzzle accepts is one of its official answers. */
  lemma {:induction false} RefinedIsSound(start: set<string>, ps: seq<OfficialPuzzle>, j: nat, w: string)
    requires j < |ps|
    requires w in Refined(start, ps) && LettersOf(ps[j]).ContainsWord(w)
    ensures w in ps[j].words
  {
    var init := ps[..|ps| - 1];
    if j < |ps| - 1 {
      assert init[j] == ps[j];
      RefinedIsSound(start, init, j, w);
    } else {
      assert w in Accepted(LettersOf(ps[j]), Refined(start, init));
    }
  }

  /** The words of start that none of the puzzles accepts. */
  function NeverAccepted(start: set<string>, ps: seq<OfficialPuzzle>): set<string>
  {
    set w | w in start && forall j :: 0 <= j < |ps| ==> !LettersOf(ps[j]).ContainsWord(w)
  }

  /** One more puzzle strikes from the unverified words exactly the ones it accepts. */
  lemma UnverifiedStep(start: set<string>, ps: seq<OfficialPuzzle>)
    requires ps != []
    ensures forall w :: w in Unverified(start, ps) <==>
      w in Unverified(start, ps[..|ps| - 1]) && !LettersOf(ps[|ps| - 1]).ContainsWord(w)
  {
    UnverifiedInRefined(start, ps[..|ps| - 1]);
  }

  lemma NeverAcceptedStep(start: set<string>, ps: seq<OfficialPuzzle>)
    requires ps != []
    ensures forall w :: w in NeverAccepted(start, ps) <==>
      w in NeverAccepted(start, ps[..|ps| - 1]) && !LettersOf(ps[|ps| - 1]).ContainsWord(w)
  {
    var n := |ps| - 1;
    var init := ps[..n];
    forall w | w in NeverAccepted(start, init) && !LettersOf(ps[n]).ContainsWord(w)
      ensures w in NeverAccepted(start, ps)
    {
      forall j | 0 <= j < |ps| ensures !LettersOf(ps[j]).ContainsWord(w) {
        if j < n {
          assert init[j] == ps[j];
        }
      }
    }
    forall w | w in NeverAccepted(start, ps)
      ensures w in NeverAccepted(start, init)
    {
      forall j | 0 <= j < n ensures !LettersOf(init[j]).ContainsWord(w) {
        assert init[j] == ps[j];
      }
    }
  }

  /** The unverified words are exactly the starting words no past puzzle accepts. */
  lemma {:induction false} UnverifiedIsNeverAccepted(start: set<string>, ps: seq<OfficialPuzzle>)
    ensures Unverified(start, ps) == NeverAccepted(start, ps)
  {
    if ps != [] {
      UnverifiedIsNeverAccepted(start, ps[..|ps| - 1]);
      UnverifiedStep(start, ps);
      NeverAcceptedStep(start, ps);
    }
  }

  /** A puzzle rules out a word when it accepts the word but its official answers lack it. */
  predicate RulesOut(p: OfficialPuzzle, w: string)
  {
    LettersOf(p).ContainsWord(w) && w !in p.words
  }

  /** The words of start that none of the puzzles rules out. */
  function NeverRuledOut(start: set<string>, ps: seq<OfficialPuzzle>): set<string>
  {
    set w | w in start && forall j :: 0 <= j < |ps| ==> !RulesOut(ps[j], w)
  }

  /** One more puzzle removes from the working dictionary exactly the words it rules out. */
  lemma RefinedMemberStep(start: set<string>, ps: seq<OfficialPuzzle>)
    requires ps != []
    ensures forall w :: w in Refined(start, ps) <==>
      w in Refined(start, ps[..|ps| - 1]) && !RulesOut(ps[|ps| - 1], w)
  {
  }

  lemma NeverRuledOutStep(start: set<string>, ps: seq<OfficialPuzzle>)
    requires ps != []
    ensures forall w :: w in NeverRuledOut(start, ps) <==>
      w in NeverRuledOut(start, ps[..|ps| - 1]) && !RulesOut(ps[|ps| - 1], w)
  {
    var n := |ps| - 1;
    var init := ps[..n];
    forall w | w in NeverRuledOut(start, init) && !RulesOut(ps[n], w)
      ensures w in NeverRuledOut(start, ps)
    {
      forall j | 0 <= j < |ps| ensures !RulesOut(ps[j], w) {
        if j < n {
          assert init[j] == ps[j];
        }
      }
    }
    forall w | w in NeverRuledOut(start, ps)
      ensures w in NeverRuledOut(start, init)
    {
      forall j | 0 <= j < n ensures !RulesOut(init[j], w) {
        assert init[j] == ps[j];
      }
    }
  }

  /** The final working dictionary is exactly the starting words that no past puzzle accepts
      while leaving them out of its official answers. */
  lemma {:induction false} RefinedIsNeverRuledOut(start: set<string>, ps: seq<OfficialPuzzle>)
    ensures Refined(start, ps) == NeverRuledOut(start, ps)
  {
    if ps != [] {
      RefinedIsNeverRuledOut(start, ps[..|ps| - 1]);
      RefinedMemberStep(start, ps);
      NeverRuledOutStep(start, ps);
    }
  }

  /** The order in which the past puzzles are replayed does not change the unverified words. */
  lemma UnverifiedOrderIndependent(start: set<string>, ps: seq<OfficialPuzzle>, qs: seq<OfficialPuzzle>)
    requires multiset(ps) == multiset(qs)
    ensures Unverified(start, ps) == Unverified(start, qs)
  {
    UnverifiedIsNeverAccepted(start, ps);
    UnverifiedIsNeverAccepted(start, qs);
    forall w | w in start
      ensures (forall j :: 0 <= j < |ps| ==> !LettersOf(ps[j]).ContainsWord(w))
          <==> (forall j :: 0 <= j < |qs| ==> !LettersOf(qs[j]).ContainsWord(w))
    {
      forall j | 0 <= j < |ps| ensures ps[j] in qs {
        assert ps[j] in multiset(qs);
      }
      forall j | 0 <= j < |qs| ensures qs[j] in ps {
        assert qs[j] in multiset(ps);
      }
    }
  }

  /** The order in which the past puzzles are replayed does not change the final working
      dictionary either. */
  lemma RefinedOrderIndependent(start: set<string>, ps: seq<OfficialPuzzle>, qs: seq<OfficialPuzzle>)
    requires multiset(ps) == multiset(qs)
    ensures Refined(start, ps) == Refined(start, qs)
  {
    RefinedIsNeverRuledOut(start, ps);
    RefinedIsNeverRuledOut(start, qs);
    forall w | w in start
      ensures (forall j :: 0 <= j < |ps| ==> !RulesOut(ps[j], w))
          <==> (forall j :: 0 <= j < |qs| ==> !RulesOut(qs[j], w))
    {
      forall j | 0 <= j < |ps| ensures ps[j] in qs {
        assert ps[j] in multiset(qs);
      }
      forall j | 0 <= j < |qs| ensures qs[j] in ps {
        assert qs[j] in multiset(ps);
      }
    }
  }

  // ---------------------------------------------------------------- likely words

  /** save_likely_words: the unverified words without an S, without both E and R, and with
      at most seven distinct letters. */
  function LikelyWords(unverified: set<string>): set<string>
  {
    var haveS := set w | w in unverified && 'S' in w;
    var haveER := set w | w in unverified && 'E' in w && 'R' in w;
    var havePlus7 := set w | w in unverified && |Elements(w)| > 7;
    unverified - haveS - haveER - havePlus7
  }

  /** A word is likely exactly when it is unverified and escapes all three filters. */
  lemma LikelyWordsSpec(unverified: set<string>, w: string)
    ensures w in LikelyWords(unverified) <==>
      w in unverified && 'S' !in w && !('E' in w && 'R' in w) && |Elements(w)| <= 7
  {
  }

  /** A likely word could be the pangram of a puzzle the publisher would set: any of its
      letters as key gives a puzzle that passes is_valid and has at most seven letters. */
  lemma LikelyWordsFitValidPuzzles(unverified: set<string>, w: string, key: char)
    requires w in LikelyWords(unverified) && key in w
    ensures Letters.Of(key, w).IsValid()
    ensures |Elements(Letters.Of(key, w).AllLetters())| <= 7
    ensures Letters.Of(key, w).IsPangram(w)
  {
    OfUsesWordLetters(key, w);
    var all := Letters.Of(key, w).AllLetters();
    assert 'S' in all ==> 'S' in Elements(w);
    assert 'E' in all ==> 'E' in Elements(w);
    assert 'R' in all ==> 'R' in Elements(w);
  }
}
