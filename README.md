# Spelling Bee helper: a Dafny model

This project models the core of a small Python toolkit for the New York Times
"Spelling Bee" word puzzle and proves properties of it. A puzzle has one key letter,
which every answer must use, and a list of other letters. An answer may use no letter
outside the puzzle. A pangram uses every letter of the puzzle.

The model covers these parts of the toolkit:

- **Puzzles** (`letters.dfy`, `puzzles.dfy`): main.py's `Puzzle` class.
  - The puzzle letters are a value, `Letters.PuzzleLetters`. They hold the word tests
    `has`, `contains_word`, `is_pangram` and `is_valid`, and the display string
    `__str__`, through which puzzles are compared and hashed.
  - The class `Puzzles.Puzzle` keeps the fields that `solve` overwrites, `all_words` and
    `all_pangrams`.
  - `get_puzzles` collects the puzzles of every seven-letter word of a dictionary.
- **Reports on a solved puzzle** (`counts.dfy`, `listing.dfy`):
  - the count table of `Puzzle.grid_str`, answers counted by first letter and by length;
  - the dashed word list of `solution_str`;
  - the word table of `solution_grid`.
- **Table rendering** (`grid.dfy`): util.py's `grid_str`, `get_row_text`,
  `get_divider` and `surround`. main.py carries identical copies of these and of
  `find_median`; each is modelled once.
- **Small helpers** (`util.dfy`): `find_median`, `scrabble_score` over
  `SCRABBLE_SCORES`, and the layout `print_adjacent` prints.
- **Word-list refinement** (`cache.py`, modelled in `cache.dfy`):
  - `save_unverified_words` replays past puzzles against the Scrabble word list.
  - Each puzzle removes the words it accepts that its official answers lack.
  - Every word it accepts stops being unverified.
  - Also modelled: the likely-word filters, the normalisation `save_dictionary`
    applies, the `.txt` suffix rule and the Scrabble-list filter.
- **Cache file names** (`scraper.dfy`): `filename_from_url` and the cache path.
- **Shared helpers**: `wrappers.dfy` (Option, Result and the Python exceptions raised),
  `ordering.dfy` (sorting and sums), `strings.dfy` (the `str` methods used) and
  `lists.dfy` (filters and counts).

Python exceptions become `Err` values of `Wrappers.Result`:

- `surround` with mismatched columns: ValueError.
- `find_median` of an empty list: IndexError.
- A blank answer reaching `w[0]`: IndexError.
- `scrabble_score` of a character outside A–Z: KeyError.
- The `assert` in `grid_str` and `n_words` before `solve`: AssertionError.
- Iterating `all_words` while it is still `None`: TypeError.

Points where the code's behaviour is easy to misread:

- Puzzles are not validated on construction. `Puzzle(...)` and `Puzzle.of` accept any
  letters, and `of` counts repeated letters only once.
- Puzzle equality goes through the display string, not through the set of letters. The
  display string is proved injective (`Letters.StrInjective`). Two puzzles are therefore
  equal exactly when their key letters match and their other letters match in the same
  order.
- `contains_word` has no minimum length. The four-letter minimum comes from the word-list
  loaders: `load_scrabble_dictionary` (`Cache.ScrabbleWords`), and main.py's
  `get_dictionary` for the Collins list, which is left out with file I/O. The extra
  valid-words list that `get_dictionary` adds is not filtered.
- The code has no "perfect pangram" test and keeps no set of verified words. Neither is
  modelled.

## Model

| member | source | states |
|---|---|---|
| Puzzles.Puzzle.constructor | main.py:35-45 | the key is stored; no other letters when none are given; not yet solved |
| Puzzles.Puzzle.Of | main.py:62-65 | a fresh, unsolved puzzle whose letters are `Letters.Of(key, word)` |
| Letters.Of | main.py:62-65 | the key is kept; the other letters are strictly ascending, exclude the key, and are exactly the word's other letters |
| Letters.PuzzleLetters.AllLetters | main.py:67-68 | the letters are the key and the other letters, and nothing else |
| Letters.PuzzleLetters.Has | main.py:78-79 | a letter is had iff it is the key or one of the other letters |
| Letters.PuzzleLetters.ContainsWord | main.py:81-82 | a word is accepted iff it uses the key and every letter of it is the key or another letter |
| Letters.PuzzleLetters.IsPangram | main.py:84-85 | a word is a pangram iff its letters are exactly the key and the other letters |
| Letters.PuzzleLetters.IsValid | main.py:70-76 | valid iff no letter is S and not both E and R are letters |
| Letters.PuzzleLetters.Str | main.py:50-52 | the display string opens with "(", the key, ") " |
| Letters.PuzzleLetters.Solutions | main.py:88 | the answers are exactly the dictionary words the puzzle accepts, no more of them than dictionary entries |
| Letters.PuzzleLetters.Pangrams | main.py:89 | the pangrams are exactly the given words that are pangrams |
| Letters.OfUsesWordLetters | main.py:62-68 | for a key taken from the word: the puzzle's letters are the word's letters, and the word is both a pangram and an answer |
| Letters.OfSevenLetters | main.py:62-65 | a key from a word with seven distinct letters leaves six other letters |
| Letters.ContainsWordBySets | main.py:67-82 | a word is accepted iff it uses the key and all its letters are puzzle letters |
| Letters.PangramIsAccepted | main.py:81-85 | every pangram is an accepted answer |
| Letters.StrLayout | main.py:50-52 | the display string is "(K) A B …": its length, the key at position 1, other letter i at position 4+2i, a space at position 5+2i between consecutive other letters |
| Letters.SpacedLayout | main.py:50-52 | letters joined by single spaces: length 2n-1, letter i at position 2i, a space at position 2i+1 between letters i and i+1 |
| Letters.StrInjective | main.py:50-57 | two puzzles have the same display string iff they have the same key and the same other letters in the same order |
| Puzzles.Puzzle.Equals | main.py:54-57 | `__eq__` holds iff the two puzzles' letters are equal |
| Puzzles.Puzzle.Hash | main.py:59-60 | the hash is the string hash of the display string; its agreement with `__eq__` is `Puzzles.EqualPuzzlesHashEqually` |
| Puzzles.EqualPuzzlesHashEqually | main.py:54-60 | equal puzzles hash equally, whatever the string hash |
| Puzzles.Puzzle.Solve | main.py:87-89 | the letters are unchanged; `all_words` becomes the accepted dictionary words in dictionary order; `all_pangrams` becomes the dictionary's pangrams |
| Letters.SolutionsAppend | main.py:87-88 | solving distributes over concatenating dictionaries |
| Letters.PangramsOfSolutions | main.py:87-89 | the pangrams among the answers are the pangrams of the whole dictionary |
| Puzzles.Puzzle.NWords | main.py:149-151 | AssertionError before solve; the number of answers after it |
| Puzzles.Puzzle.GridStr | main.py:91-121 | AssertionError before solve; IndexError for a blank answer; otherwise the rendered count table of the answers |
| Counts.AllFirsts | main.py:93 | strictly ascending, and holds exactly the first letters of the words |
| Counts.AllLengths | main.py:94 | strictly ascending, and holds exactly the word lengths that occur |
| Counts.CountTableOf | main.py:93-103 | the count table over the words' own first letters and lengths; its cells and margins are characterised by `Counts.Tally`, `Counts.RowTotal`, `Counts.ColumnTotal` and `Counts.MarginTotals` |
| Counts.Tally | main.py:98-105 | the counting loop yields the table of the words: each cell, row sum and column sum counts the words with that key |
| Counts.CountGrid | main.py:92-105 | for non-blank words, the counts equal the count table of the words |
| Counts.RowTotal | main.py:98-105 | each first-letter sum is the total of its row |
| Counts.ColumnTotal | main.py:98-105 | each length sum is the total of its column |
| Counts.MarginTotals | main.py:98-105 | both the first-letter sums and the length sums add up to the number of answers |
| Counts.RenderCountTable | main.py:106-121 | the text built is the header, top border, a line and divider per row, and the footer |
| Counts.CountTableLines | main.py:108-121 | the lines grid_str prints: header, top border, a text line and divider per first letter, then the footer, all at the common cell width |
| Counts.AppendRows | main.py:115-118 | the row loop appends each row line and its divider in order |
| Puzzles.Puzzle.SolutionStr | main.py:123-130 | TypeError before solve; IndexError for a blank answer; otherwise the dashed listing of the answers sorted by (first letter, length) |
| Listing.SortByKey | main.py:125 | the sorted list is a permutation of the answers |
| Listing.SortByKeySorted | main.py:125 | the result is ordered by (first letter, length) |
| Listing.SortByKeyStable | main.py:125 | the sort is stable: the words of each key keep their original order |
| Listing.InsertByKeyStable | main.py:125 | inserting one word leaves every other key's words unchanged and appends the word to its own key's words |
| Listing.SolutionLines | main.py:126-130 | the lines solution_str writes for sorted words; their count, word positions and dash lines are `Listing.SolutionLinesCount`, `Listing.SolutionWordAt` and `Listing.SolutionDashAt` |
| Listing.SolutionText | main.py:126-130 | the loop's text is the listing's lines, each followed by a newline |
| Listing.SolutionLinesCount | main.py:126-130 | the listing has one line per word plus one dash line per group change |
| Listing.SolutionWordAt | main.py:126-130 | word i is printed on line i plus the number of group changes up to it |
| Listing.SolutionDashAt | main.py:127-128 | where (first letter, length) changes, the line just before the word is dashes as long as the longer of the two words |
| Puzzles.Puzzle.SolutionGrid | main.py:132-147 | TypeError before solve; IndexError for a blank answer; otherwise the rendered word table |
| Listing.SortedWords | main.py:138 | the answers sorted in string order: ascending and a permutation of the answers |
| Listing.GroupWords | main.py:137-142 | the grouping loop maps each (first letter, length) key to the words with that key, in sorted order |
| Listing.GroupContents | main.py:137-143 | a cell's words are sorted and are exactly the answers with that key |
| Listing.GroupSizeIsCount | main.py:137-143 | a cell holds as many words as there are answers with that key |
| Listing.GroupCellSplits | main.py:143 | for answers without whitespace, splitting a cell's text gives back its words |
| Listing.GroupGridIsWordGrid | main.py:137-143 | the table built from the map equals the table defined from the groups |
| Listing.SolutionGridText | main.py:132-147 | the text returned is the rendering of the header, surrounded word grid and footer |
| Listing.SolutionTable | main.py:133-146 | the table solution_grid renders: header, one row per first letter framed by the letter and its total, footer; its shape is `Listing.SolutionTableShape` |
| Listing.SolutionTableShape | main.py:133-146 | the table has two more rows than first letters and two more columns than lengths, and the corner holds the number of answers |
| Listing.SolutionTableRow | main.py:133-146 | row i+1 is the first letter, the word cells and the count of answers starting with that letter |
| Listing.SolutionLinesAligned | main.py:144-147 | every non-blank rendered line of the word table has the same width |
| Puzzles.SevenLetterWords | main.py:168 | a word is kept iff it is in the dictionary and has seven distinct letters |
| Puzzles.AddWordPuzzles | main.py:170-173 | the inner loop adds the word's puzzle for every one of its letters as key |
| Puzzles.GetPuzzles | main.py:167-174 | the set built is the puzzles of the seven-letter words |
| Puzzles.GetPuzzlesShape | main.py:167-174 | a puzzle is found iff some seven-letter dictionary word yields it; each has six other letters and seven letters in all, and a dictionary word as pangram |
| Grid.Surround | util.py:19-22 | ValueError iff a side column's length differs from the row count; otherwise row i is first[i], the row, then last[i] |
| Grid.MaxTokenLength | util.py:39 | the length of the longest whitespace-separated token of a cell, 0 for none |
| Grid.ColumnWidth | util.py:39 | a column's width bounds, and equals, its longest token (0 if none) |
| Grid.RowHeight | util.py:40 | a row's height bounds, and equals, its largest token count (0 if none) |
| Grid.FillSubRows | util.py:44-48 | sub-line k holds, in each column, the cell's k-th token or a blank |
| Grid.RowLines | util.py:44-49 | a row block has one line per sub-line, and one empty line for a row without tokens |
| Grid.LinesUpTo | util.py:42-51 | the lines of the first n rows, each followed by a divider unless it is the table's last row |
| Grid.GridLines | util.py:36-52 | the lines grid_str prints for a table of cells, at the computed column widths |
| Grid.GridStr | util.py:36-52 | the text built is the lines of each row block, with a divider after every row but the last |
| Grid.LinesUpToStep | util.py:42-51 | each row adds its sub-lines, then a divider unless it is the last row |
| Grid.RowTextLength | util.py:55-56 | a row whose cells fit has length sum(widths) + 3(n-1) + 2 |
| Grid.RowText | util.py:55-56 | get_row_text: cells centred in their widths, joined by " │ ", with a space at each end; its length is `Grid.RowTextLength` |
| Grid.DividerLength | util.py:59-61 | a divider has length sum(widths) + 3(n-1) + 2 |
| Grid.Divider | util.py:59-61 | get_divider: a bar per column joined by "─┼─", with a bar at each end; its length is `Grid.DividerLength` |
| Grid.GridLinesAligned | util.py:36-61 | in a rectangular table every non-blank line has the same width as the dividers |
| Util.SortedInts | util.py:26 | sorted(lst) for integers is an ascending permutation |
| Util.Middle | util.py:27-33 | the middle element of an odd-length list, the mean of the two middle elements of an even-length one; `Util.MiddleSplitsHalf` proves it splits a sorted list in halves |
| Util.FindMedian | util.py:25-33 | IndexError iff the list is empty |
| Util.FindMedianSplitsHalf | util.py:25-33 | at least half of the values (rounded up) lie at or below the median, and at least half at or above it |
| Util.FindMedianOddIsValue | util.py:28-29 | for an odd length the median is one of the values |
| Util.FindMedianOrderIndependent | util.py:25-33 | the median depends only on the multiset of values |
| Util.ScrabbleScoresDomain | util.py:13-16 | the table scores exactly A–Z, each letter between 1 and 10 |
| Util.ScrabbleScore | util.py:77-78 | KeyError iff some character is outside A–Z; otherwise the score lies between len(w) and 10·len(w) |
| Util.ScrabbleScoreIsSum | util.py:77-78 | the score is the sum of the letter scores |
| Util.ScrabbleScoreAppend | util.py:77-78 | scores add over concatenation; the concatenation fails iff a part does |
| Util.Padded | util.py:68-70 | the padded list is as long as the larger height; its line i is the original or a blank |
| Util.MaxLength | util.py:72 | the longest line length: no line is longer and some line has it |
| Util.Juxtapose | util.py:68-74 | one printed line per line of the taller side, each the left line justified to the longest left line, a space and the right line |
| Util.PrintAdjacent | util.py:64-74 | the printed lines are the side-by-side layout of the two strings' lines |
| Util.PrintLines | util.py:67-74 | after padding, the loop prints each pair of lines side by side |
| Util.AdjacentLayout | util.py:64-74 | one line per line of the taller side; each is the left line justified to the longest left line, a space, then the right line |
| Util.AdjacentRightColumn | util.py:64-74 | reading the first as many printed lines as the right string has lines, each from one past the longest left line, and joining them with newlines gives back the right string |
| Cache.AddTxtExtension | cache.py:43-46 | the result ends in ".txt"; the name is unchanged if it already does, otherwise ".txt" is appended |
| Cache.AddTxtExtensionIdempotent | cache.py:43-46 | adding the extension twice is adding it once |
| Cache.NormalizedWordsSpec | cache.py:17 | the saved list is strictly ascending and upper-case, and holds exactly the upper-cased input words |
| Cache.NormalizedWords | cache.py:17 | the distinct upper-cased words in ascending order; what that guarantees is `Cache.NormalizedWordsSpec` |
| Cache.ScrabbleWords | cache.py:61-63 | every word is upper case with at least four letters and is the upper-cased form of a line of four or more letters, and every such line appears upper-cased |
| Cache.Listed | cache.py:95 | iterating a set lists exactly its elements, each once, in some order |
| Cache.Accepted | cache.py:95-96 | the set of dictionary words the puzzle accepts |
| Cache.Refined | cache.py:93-98 | the working dictionary after replaying puzzles in order, each removing the words it accepts that its official answers lack; its properties are `Cache.RefinedShrinks` and `Cache.RefinedIsSound` |
| Cache.Unverified | cache.py:91-100 | the unverified words after replaying puzzles in order, each striking the words it accepts; characterised by `Cache.UnverifiedIsNeverAccepted` |
| Cache.SaveUnverifiedWords | cache.py:88-102 | the loop's final dictionary and unverified words are the refined and unverified sets of the scrabble minus retconned words |
| Cache.RefinedStep | cache.py:93-100 | one puzzle removes its illegal words from the dictionary and its accepted words from the unverified set |
| Cache.RefinedShrinks | cache.py:93-98 | the working dictionary only shrinks as puzzles are replayed |
| Cache.UnverifiedShrinks | cache.py:91-100 | the unverified words only shrink as puzzles are replayed, starting from the working dictionary |
| Cache.UnverifiedInRefined | cache.py:91-100 | the unverified words stay inside the working dictionary |
| Cache.RefinedIsSound | cache.py:93-98 | every final dictionary word that a past puzzle accepts is one of that puzzle's official answers |
| Cache.RefinedIsNeverRuledOut | cache.py:91-98 | the final working dictionary is exactly the starting words that no past puzzle accepts while leaving them out of its official answers |
| Cache.RefinedOrderIndependent | cache.py:93-98 | replaying the past puzzles in any order gives the same final working dictionary |
| Cache.UnverifiedIsNeverAccepted | cache.py:91-100 | the unverified words are exactly the starting words that no past puzzle accepts |
| Cache.UnverifiedOrderIndependent | cache.py:93-100 | replaying the past puzzles in any order gives the same unverified words |
| Cache.LikelyWordsSpec | cache.py:112-121 | a word is likely iff it is unverified, has no S, lacks E or R, and has at most seven distinct letters |
| Cache.LikelyWords | cache.py:112-121 | the unverified words with no S, without both E and R, and with at most seven distinct letters, as `Cache.LikelyWordsSpec` states |
| Cache.LikelyWordsFitValidPuzzles | cache.py:112-121 | a likely word with any of its letters as key gives a puzzle that passes `is_valid`, has at most seven letters, and has the word as pangram |
| Scraper.Replace | scraper.py:48 | replacing one character keeps the length and every other character in place |
| Scraper.FilenameFromUrl | scraper.py:47-48 | the file name ends in ".html", has no slash, is 5 longer than the url, and maps each slash to an underscore |
| Scraper.FilenameCollision | scraper.py:47-48 | two urls share a file name iff they agree at every position once slashes are read as underscores |
| Scraper.CachePath | scraper.py:14-16 | the path starts with "cache/" |
| Scraper.CachePathInCacheDir | scraper.py:6-16 | the path's only slash is the directory's own, and the rest is the url's file name |
| Strings.Split | util.py:39-46 | str.split() with no argument: the maximal runs of non-whitespace characters; every piece is a token (`Strings.SplitYieldsTokens`) and joining tokens with a newline splits back (`Strings.SplitJoin`) |
| Strings.SplitOn | util.py:65-66 | str.split('\n'): at least one piece, none holding the separator, and joining them with it gives back the string |
| Strings.Center | util.py:56 | str.center: the width or the string's length, the string placed at CPython's left margin, spaces around it, the two margins differing by at most one |
| Strings.LJust | util.py:74 | str.ljust: the width or the string's length, the string first and spaces after it |

## Left out

- File and network I/O are left out. This covers reading and writing word lists, `load_dictionary`,
  `read_lines`, the `os.path.exists` caching in the `load_*` functions, jsonpickle files,
  `tqdm` progress bars, and all of scraper.py except `filename_from_url` and the path
  it builds. Word lists, retconned words and past puzzles are inputs instead.
- The functions cache.py calls but that are not part of this model are left out:
  `scraper.scrape_puzzle`, `scrape_retconned_words`, `scrape_pokedex` and
  `Puzzle.calc_pangrams`. The pokedex functions go with them.
- The word-frequency and plotting code is left out: nltk and `brown_freq`,
  `median_word_frequency`, `print_word_frequencies`, `print_histogram`, plots.py and
  `main()`. These depend on external corpora and plotting libraries.
- The `likely_pangrams` and `likely_words` fields of `Puzzle` are left out: only the
  constructor sets them, to None, and no modelled code reads them.
- `print` output is left out. `print_adjacent` returns the lines it would print. The
  messages of `save_unverified_words` and of `surround`'s ValueError are not modelled.
- Puzzles.Puzzle.constructor: the default key letter 'X' is not modelled; callers always
  pass a key.
- Puzzles.Puzzle.Equals: the `isinstance` test is not modelled; in the typed model the
  other object is always a Puzzle.
- Puzzles.Puzzle.Hash: Python's string hash is a parameter.
- Util.FindMedian: the result is an exact real. Python returns the middle element itself
  for an odd length and a float for an even length. Float rounding of large values is
  not modelled.
- Util.ScrabbleScore: the error is the same KeyError whichever bad character comes first.
  The character named in the exception is not modelled.
- Cache.Listed: Python's set iteration order is not modelled. Any order may be chosen,
  and the refinement results are proved not to depend on it.
- Strings.Upper: the model's `Upper` maps ASCII letters only. Python's Unicode case
  mapping (for example 'é' to 'É' and 'ß' to "SS") is not modelled.
- Letters.PuzzleLetters: each letter is a single character. Python's `Puzzle` stores any
  strings as letters. Multi-character letters are not modelled; with them two different
  puzzles can share a display string (`['B C']` against `['B', 'C']`), so
  `Letters.StrInjective` holds only for single-character letters.
- Grid.GridStr: table cells are strings or integers (`Grid.Cell`). Other Python objects
  and their `str` are not modelled.
