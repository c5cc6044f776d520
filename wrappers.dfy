/** The optional value used wherever the Java code returns or stores `null`. */
module Wrappers {

  datatype Option<+T> = None | Some(value: T)
}
