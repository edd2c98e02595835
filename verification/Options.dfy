/** A value that may be absent: `std::optional`, and results that may be null. */
module Options {
  datatype Option<T> = None | Some(value: T)
}
