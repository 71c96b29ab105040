/** Shared value wrappers. */
module Wrappers {

  /** A value that may be nil, or a lookup that may miss. */
  datatype Option<+T> = None | Some(value: T)
}
