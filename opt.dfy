/** The optional value used wherever the source has `None` or a missing result. */
module Opt {

  datatype Option<T> = None | Some(value: T)
}
