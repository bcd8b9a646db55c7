/** The letters of a Spelling Bee puzzle and the word tests of main.py's Puzzle class:
    which words a puzzle accepts, which are pangrams, how a puzzle is derived from a word,
    and the display string through which puzzles are compared and hashed. */
module Letters {
  import opened Ordering
  import opened Strings
  import opened Lists

  /** A puzzle's identity: the key letter every answer must use and the other letters,
      in the order they are listed. */
  datatype PuzzleLetters = PuzzleLetters(key: char, others: seq<char>)
  {
    /** all_letters(): the other letters followed by the key letter. */
    function AllLetters(): (all: seq<char>)
      ensures key in all
      ensures forall c :: c in all <==> c == key || c in others
    {
      others + [key]
    }

    /** has(letter). */
    predicate Has(c: char)
      ensures Has(c) <==> c == key || c in others
    {
      c in AllLetters()
    }

    /** contains_word(w): w uses the key letter and no letter outside the puzzle. */
    predicate ContainsWord(w: string)
      ensures ContainsWord(w) <==> key in w && forall c :: c in w ==> c == key || c in others
    {
      key in w && forall i :: 0 <= i < |w| ==> Has(w[i])
    }

    /** is_pangram(w): w uses exactly the puzzle's letters. */
    predicate IsPangram(w: string)
      ensures IsPangram(w) <==> forall c :: c in w <==> c == key || c in others
    {
      SameElements(w, AllLetters());
      Elements(w) == Elements(AllLetters())
    }

    /** is_valid(): the publisher never uses S, nor E and R together. */
    predicate IsValid()
      ensures IsValid() <==>
        ('S' != key && 'S' !in others && !(('E' == key || 'E' in others) && ('R' == key || 'R' in others)))
    {
      var all := AllLetters();
      'S' !in all && !('E' in all && 'R' in all)
    }

    /** __str__: "(K) A B C ...". */
    function Str(): (s: string)
      ensures |s| >= 4 && s[0] == '(' && s[1] == key && s[2..4] == ") "
    {
      "(" + [key] + ") " + JoinWith(" ", Singletons(others))
    }

    /** The dictionary words the puzzle accepts, in dictionary order. */
    function Solutions(dictionary: seq<string>): (sols: seq<string>)
      ensures |sols| <= |dictionary|
      ensures forall w :: w in sols <==> w in dictionary && ContainsWord(w)
    {
      Filter(dictionary, w => ContainsWord(w))
    }

    /** The pangrams among the words, in order. */
    function Pangrams(words: seq<string>): (pangrams: seq<string>)
      ensures |pangrams| <= |words|
      ensures forall w :: w in pangrams <==> w in words && IsPangram(w)
    {
      Filter(words, w => IsPangram(w))
    }
  }

  /** Two sequences have the same elements exactly when they agree on membership. */
  lemma SameElements<T>(a: seq<T>, b: seq<T>)
    ensures Elements(a) == Elements(b) <==> forall x :: x in a <==> x in b
  {
    if forall x :: x in a <==> x in b {
      assert forall x :: x in Elements(a) <==> x in Elements(b);
    } else {
      var x :| !(x in a <==> x in b);
      assert !(x in Elements(a) <==> x in Elements(b));
    }
  }

  /** Each letter as a one-letter string. */
  function Singletons(cs: seq<char>): (r: seq<string>)
    ensures |r| == |cs| && forall i :: 0 <= i < |cs| ==> r[i] == [cs[i]]
  {
    seq(|cs|, i requires 0 <= i < |cs| => [cs[i]])
  }

  /** The letters of the word other than the key, in order. */
  function Without(word: seq<char>, key: char): (r: seq<char>)
    ensures Elements(r) == Elements(word) - {key}
  {
    Filter(word, c => c != key)
  }

  /** Puzzle.of(key, word): the other letters are the distinct letters of word other than
      the key, in ascending order. Nothing is validated: any key and any word are accepted. */
  function Of(key: char, word: seq<char>): (p: PuzzleLetters)
    ensures p.key == key
    ensures StrictlySorted(p.others, CharLess) && key !in p.others
    ensures Elements(p.others) == Elements(word) - {key}
  {
    CharLessIsStrictTotalOrder();
    PuzzleLetters(key, SortedUnique(Without(word, key), CharLess))
  }

  // ---------------------------------------------------------------- word tests

  /** contains_word in terms of sets: the key is among w's letters, and w's letters are
      among the puzzle's. */
  lemma ContainsWordBySets(p: PuzzleLetters, w: string)
    ensures p.ContainsWord(w) <==> p.key in Elements(w) && Elements(w) <= Elements(p.AllLetters())
  {
    if Elements(w) <= Elements(p.AllLetters()) {
      forall i | 0 <= i < |w|
        ensures p.Has(w[i])
      {
        assert w[i] in Elements(w);
      }
    }
  }

  /** A pangram is always an accepted word. */
  lemma PangramIsAccepted(p: PuzzleLetters, w: string)
    requires p.IsPangram(w)
    ensures p.ContainsWord(w)
  {
    assert p.key in Elements(p.AllLetters());
    ContainsWordBySets(p, w);
  }

  /** When the key occurs in the word, the puzzle derived from them has exactly the word's
      letters, so the word is one of its pangrams. */
  lemma OfUsesWordLetters(key: char, word: string)
    requires key in word
    ensures Elements(Of(key, word).AllLetters()) == Elements(word)
    ensures Of(key, word).IsPangram(word) && Of(key, word).ContainsWord(word)
  {
    var p := Of(key, word);
    assert Elements(p.AllLetters()) == Elements(p.others) + {key};
    PangramIsAccepted(p, word);
  }

  /** A word with seven distinct letters yields six other letters, whichever letter is key. */
  lemma OfSevenLetters(key: char, word: string)
    requires key in word && |Elements(word)| == 7
    ensures |Of(key, word).others| == 6
  {
    var p := Of(key, word);
    CharLessIsStrictTotalOrder();
    StrictlySortedCard(p.others, CharLess);
    assert key in Elements(word);
  }

  // ---------------------------------------------------------------- solving

  /** solve keeps exactly the accepted words, in dictionary order: filtering distributes over
      concatenation of dictionaries. */
  lemma SolutionsAppend(p: PuzzleLetters, a: seq<string>, b: seq<string>)
    ensures p.Solutions(a + b) == p.Solutions(a) + p.Solutions(b)
  {
    FilterAppend(a, b, w => p.ContainsWord(w));
  }

  /** Picking the pangrams out of the solutions is picking them out of the dictionary:
      no pangram is lost by the first filter. */
  lemma PangramsOfSolutions(p: PuzzleLetters, dictionary: seq<string>)
    ensures p.Pangrams(p.Solutions(dictionary)) == p.Pangrams(dictionary)
  {
    forall w | p.IsPangram(w)
      ensures p.ContainsWord(w)
    {
      PangramIsAccepted(p, w);
    }
    FilterOfFilter(dictionary, w => p.IsPangram(w), w => p.ContainsWord(w));
  }

  // ---------------------------------------------------------------- the display string

  /** ' '.join of single letters puts letter i at position 2i, with a space between letters. */
  lemma {:induction false} SpacedLayout(cs: seq<char>)
    ensures |JoinWith(" ", Singletons(cs))| == if cs == [] then 0 else 2 * |cs| - 1
    ensures forall i :: 0 <= i < |cs| ==> JoinWith(" ", Singletons(cs))[2 * i] == cs[i]
    ensures forall i :: 0 <= i < |cs| - 1 ==> JoinWith(" ", Singletons(cs))[2 * i + 1] == ' '
  {
    if |cs| > 1 {
      SpacedLayout(cs[1..]);
      assert Singletons(cs)[1..] == Singletons(cs[1..]);
      var rest := JoinWith(" ", Singletons(cs[1..]));
      var s := JoinWith(" ", Singletons(cs));
      assert s == [cs[0], ' '] + rest;
      forall i | 1 <= i < |cs|
        ensures s[2 * i] == cs[i]
      {
        assert s[2 * i] == rest[2 * (i - 1)];
      }
      forall i | 1 <= i < |cs| - 1
        ensures s[2 * i + 1] == ' '
      {
        assert s[2 * i + 1] == rest[2 * (i - 1) + 1];
      }
    }
  }

  /** Where the key and each other letter sit in the display string. */
  lemma StrLayout(p: PuzzleLetters)
    ensures |p.Str()| == if p.others == [] then 4 else 2 * |p.others| + 3
    ensures p.Str()[1] == p.key
    ensures forall i :: 0 <= i < |p.others| ==> p.Str()[4 + 2 * i] == p.others[i]
    ensures forall i :: 0 <= i < |p.others| - 1 ==> p.Str()[5 + 2 * i] == ' '
  {
    SpacedLayout(p.others);
  }

  /** Two puzzles have the same display string exactly when they have the same key and the
      same other letters in the same order: comparing by __str__ is comparing the letters. */
  lemma StrInjective(p: PuzzleLetters, q: PuzzleLetters)
    ensures p.Str() == q.Str() <==> p == q
  {
    if p.Str() == q.Str() {
      StrLayout(p);
      StrLayout(q);
      assert |p.others| == |q.others|;
      forall i | 0 <= i < |p.others|
        ensures p.others[i] == q.others[i]
      {
        assert p.Str()[4 + 2 * i] == q.Str()[4 + 2 * i];
      }
    }
  }
}
