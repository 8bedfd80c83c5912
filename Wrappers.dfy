/** Small result types shared by the whole model. */
module Wrappers {

  /** A value that may be missing: a C# `null` reference or an empty `Nullable<T>`. */
  datatype Option<+T> = None | Some(value: T)

  /** The outcome of a call that may throw: the host API and a few string operations
      either return a value or raise an exception. */
  datatype Query<+T> = Answer(value: T) | Threw
}
