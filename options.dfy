/** Kotlin's nullable values (`T?`), modelled as an option type. */
module Options {
  datatype Option<+T> = None | Some(value: T)
}
