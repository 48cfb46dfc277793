/** Failure-carrying values shared by the modules of this model. */
module Wrappers {

  /** A value that may be absent: a JavaScript `null`/`undefined`, a Kotlin
      `null`, or a library call that threw instead of returning. */
  datatype Option<+T> = None | Some(value: T)
}
