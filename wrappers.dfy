/** The nullable values of the source (`None` in Python) as an Option datatype. */
module Wrappers {

  datatype Option<+T> = None | Some(value: T)
}
