/** Option values for the library's "null pointer" returns. */
module Wrappers {

  datatype Option<+T> = None | Some(value: T)
}
