/** The optional value used for a timer that may be unset, a file that may be
    missing and a parse that may fail. */
module Options {
  datatype Option<T> = None | Some(value: T)
}
