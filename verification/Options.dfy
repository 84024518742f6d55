/** Rust's `Option`. */
module Options {
  datatype Option<T> = None | Some(value: T)
}
