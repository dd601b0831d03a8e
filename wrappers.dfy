/** Plain wrapper types shared by the other modules. */
module Wrappers {

  /** A value that may be absent: JavaScript's `T | null`. */
  datatype Option<+T> = None | Some(value: T)

  /** The settlement of a promise that carries no value: resolved, or rejected with an error. */
  datatype Outcome<+E> = Pass | Fail(error: E)
}
