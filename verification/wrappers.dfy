/** Small result types shared by the classifier modules. */
module Wrappers {

  /** A value that may be absent; stands for JavaScript's `null`. */
  datatype Option<+T> = None | Some(value: T)

  /** How a JavaScript call ends: with a value, or by throwing a TypeError
      (the only exception the classifier code can raise). */
  datatype Completion<+T> = Normal(value: T) | TypeError
}
