/** The `Maybe<T>` of the source (`T | null | undefined`), as an option type. */
module Wrappers {

  datatype Option<+T> = None | Some(value: T)
}
