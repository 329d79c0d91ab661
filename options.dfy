/** An optional value: a configuration key that may be unset, a parse that may fail. */
module Options {
  datatype Option<T> = None | Some(value: T)
}
