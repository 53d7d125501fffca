/** Optional values and the two ways an operation of the yard can end. */
module Wrappers {

  /** A value that may be missing: the source's nullable references and `int?`. */
  datatype Option<+T> = None | Some(value: T)

  /** How a call that may throw ends: it returns a value or it throws with a message. */
  datatype Outcome<+T> = Returned(value: T) | Thrown(message: string)
}
