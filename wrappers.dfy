/** The optional value used wherever the source has `undefined`, a failed lookup or a NaN. */
module Wrappers {

  datatype Option<+T> = None | Some(value: T)
}
