/** The usual optional-value wrapper, used for pattern matches and run results. */
module Wrappers {
  datatype Option<+T> = None | Some(value: T)
}
