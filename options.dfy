/** An optional value: the `None` default of a Python keyword argument, or a value. */
module Options {
  datatype Option<T> = None | Some(value: T)
}
