/** A nullable pointer: `Some(v)` for an allocated buffer, `None` for `nullptr`. */
module Options {

  datatype Option<+T> = None | Some(value: T)
}
