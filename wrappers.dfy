/** Rust's Option, for lookups that may find nothing and parses that may fail. */
module Wrappers {

  datatype Option<T> = None | Some(value: T)
}
