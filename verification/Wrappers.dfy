/** Values that may be absent. */
module Wrappers {
  datatype Option<T> = None | Some(value: T)

  /** What a computation comes to that may have no end. */
  datatype Course<T> = Returned(value: T) | Endless
}
