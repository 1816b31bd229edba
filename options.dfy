/** The usual Some/None wrapper: a C++ out-parameter that is written only on success becomes `Some`. */
module Options {
  datatype Option<+T> = None | Some(value: T)
}
