/** Types shared by all components. */
module Prelude {

  type byte = x: int | 0 <= x < 256

  datatype Option<+T> = None | Some(value: T)

  /** The outcome of a reader: failure, or a value and the bytes not yet consumed. */
  datatype Dec<+T> = Bad | Good(v: T, rest: seq<byte>)
}
