/** The `Option` type of the Rust source, used for hit queries and scatter results. */
module Optional {
  datatype Option<+T> = None | Some(value: T)
}
