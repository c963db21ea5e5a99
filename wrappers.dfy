/** The optional value that stands for a JavaScript `T | null` result. */
module Wrappers {

  datatype Option<+T> = None | Some(value: T)
}
