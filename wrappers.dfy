module Wrappers {
  /** A value that may be absent, as Rust's Option and TypeScript's undefined. */
  datatype Option<T> = None | Some(value: T)
}
