/** Option and Result values, and the Python exceptions the modelled code can raise. */
module Wrappers {

  datatype Option<+T> = None | Some(value: T)

  /** The exception kinds raised by the modelled operations. */
  datatype Error =
    | ValueError      // surround: side columns of the wrong length
    | IndexError      // find_median of an empty list; a blank answer has no first letter
    | KeyError        // scrabble_score of a letter outside A-Z
    | AssertionError  // Puzzle.grid_str / n_words before solve
    | TypeError       // Puzzle.solution_str / solution_grid before solve (iterating None)

  datatype Result<+T> = Ok(value: T) | Err(error: Error)
}
