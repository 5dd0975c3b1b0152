/** The optional value that stands for Go's nil results and "value, ok" pairs. */
module Options {
  datatype Option<+T> = None | Some(value: T)
}
