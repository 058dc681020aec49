/** The optional-value wrapper used for results that may be absent (a miss, an undefined estimate). */
module Wrappers {
  datatype Option<+T> = None | Some(value: T)
}
