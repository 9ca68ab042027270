/** Failure-compatible wrappers shared by the parser model.

    Every Python exception that `DromPage.get_cards` can raise while it reads
    one listing card becomes an `Exception` value, and every parsing step
    returns a `Result` so that the first exception raised aborts the steps
    after it, exactly as an uncaught exception does in the source. */
module Results {

  datatype Option<+T> = None | Some(value: T)

  /** The Python exceptions the card parser can raise. */
  datatype Exception =
    | UnpackError(expected: nat, got: nat)  // ValueError from `a, b = parts`
    | IntError(text: string)                // ValueError from `int(text)`
    | IndexError(index: nat, length: nat)   // IndexError from `items[index]`
    | NoSuchElement(selector: string)       // NoSuchElementException from `find_element`

  datatype Result<+T> = Ok(value: T) | Err(error: Exception) {

    predicate IsFailure() {
      Err?
    }

    function PropagateFailure<U>(): Result<U>
      requires Err?
    {
      Err(error)
    }

    function Extract(): T
      requires Ok?
    {
      value
    }
  }
}
