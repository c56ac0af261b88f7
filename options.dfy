/** An optional value: stands for Python's `None` or a present value. */
module Options {
  datatype Option<+T> = None | Some(value: T)
}
