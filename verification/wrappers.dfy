/** Failure-compatible results for the program's fatal conditions.

    The program stops with a panic on every malformed recognised line; the
    model returns `Err` with the kind of failure instead, and every caller
    propagates it unchanged.
 */
module Wrappers {

  /** Why a run stops. */
  datatype Failure =
    | MissingMarker(marker: string)  // a header lacks `(cd `, `GOPATH=` or `GOROOT=`
    | MissingSpace(marker: string)   // no space ends the token after a marker
    | EmptyToken(marker: string)     // the token after a marker is empty
    | NoSeparator(path: string)      // a root or working directory has no `/` left
    | SliceOutOfRange(path: string)  // a locator equals a root with nothing after it
    | TooFewFields                   // a timing line has fewer than five tab fields
    | BadTime(field: string)         // the time field is not a decimal uint64
    | NoConfiguration                // a timing line comes before any header

  datatype Result<+T> = Ok(value: T) | Err(failure: Failure) {

    predicate IsFailure() {
      Err?
    }

    function PropagateFailure<U>(): Result<U>
      requires Err?
    {
      Err(failure)
    }

    function Extract(): T
      requires Ok?
    {
      value
    }
  }

  datatype Option<+T> = None | Some(value: T)
}
