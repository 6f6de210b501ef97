/// C# null references, modelled explicitly.
module Nullable {

  /** A reference that may be null: `None` is C#'s `null`. */
  datatype Option<+T> = None | Some(value: T)

  /** The outcome of a call that returns nothing on success and throws on failure. */
  datatype Outcome<+E> = Pass | Fail(error: E)
}
