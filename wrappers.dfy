/** The absence-or-value wrapper used for JavaScript's `null` and optional fields. */
module Wrappers {
  datatype Option<+T> = None | Some(value: T)
}
