/** The option type used wherever the original marks a value as absent (NAN, NULL, end iterator). */
module Options {
  datatype Option<+T> = None | Some(value: T)
}
