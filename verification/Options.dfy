/** The absent-or-present values of the sources, which write them `null` or `undefined`. */
module Options {

  datatype Option<+T> = None | Some(value: T)
}
