/** The optional value used for every entry that pandas reports as NaN. */
module Wrappers {

  datatype Option<+T> = None | Some(value: T)
}
