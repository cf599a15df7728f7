/** Stand-in for a value that pandas would turn into NaN. */
module Wrappers {

  datatype Option<+T> = None | Some(value: T)

}
