/** The optional value the core uses where the Java code returns `null`. */
module Wrappers {
  datatype Option<+T> = None | Some(value: T)
}
