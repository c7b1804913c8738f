/** The outcomes of the script's steps: a value, or the Python exception that stops the run. */
module Results {

  /** A lookup that may find nothing, such as the first row with a given title. */
  datatype Option<+T> = None | Some(value: T)

  /** The ways the script can fail on the inputs it is given. */
  datatype Error =
    /** A decoded record has no entry for `key` (Python raises KeyError). */
    | KeyError(key: string)
    /** No row of the movie table has the requested title (pandas raises
        IndexError from `.index[0]` on the empty selection). */
    | TitleNotFound(title: string)
    /** A row number past the end of the similarity matrix (numpy raises IndexError). */
    | RowOutOfRange(row: nat)

  /** The value a step computes, or the error that aborts the script; usable with `:-`. */
  datatype Result<+T> = Ok(value: T) | Err(error: Error) {

    predicate IsFailure() {
      Err?
    }

    function PropagateFailure<U>(): Result<U>
      requires Err?
    {
      Err(error)
    }

    function Extract(): T
      requires Ok?
    {
      value
    }
  }

  /** The smaller of two integers, for the length bounds of `convert3` and the
      `[1:6]` slice; it lives here because every module that needs it already
      imports this one. */
  function Min(a: int, b: int): int {
    if a <= b then a else b
  }
}
