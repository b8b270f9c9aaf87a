/** The optional values shared by the three modules: a JavaScript `null` /
    `undefined` or a Ruby `nil` is `None`. */
module Options {
  datatype Option<+T> = None | Some(value: T)
}
