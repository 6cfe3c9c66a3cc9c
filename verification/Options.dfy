/** The stock optional value, used wherever the program has a value or None. */
module Options {
  datatype Option<+T> = None | Some(value: T)
}
