/** The optional value used for SQL NULLs, Python's `None` and failed parses. */
module Wrappers {

  datatype Option<T> = None | Some(value: T)
}
