/** The optional value that the source writes as `Option<T>`. */
module Options {
  datatype Option<+T> = None | Some(value: T)
}
