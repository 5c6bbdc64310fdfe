/** The absent-value marker used throughout the model in place of Kotlin's nullable types. */
module Wrappers {

  /** `None` plays the role of Kotlin's `null`; `Some(v)` a non-null `v`. */
  datatype Option<+T> = None | Some(value: T)
}
