/** Small value types shared by the store, the nonce generator and the handlers. */
module Basics {

  /** Go's `byte` (uint8). */
  newtype byte = x: int | 0 <= x < 256

  /** A value that may be absent; used where Go returns a value together with an error. */
  datatype Option<+T> = None | Some(value: T)

  /** Go's `error` return of a function that returns nothing else: `nil` is `Pass`. */
  datatype Outcome<+E> = Pass | Fail(error: E)
}
