/** The conventional Some/None wrapper, used for parse results. */
module Optional {
  datatype Option<+T> = None | Some(value: T)
}
