/** The optional value shared by the games' lookups and scans. */
module Wrappers {

  datatype Option<+T> = None | Some(value: T)
}
