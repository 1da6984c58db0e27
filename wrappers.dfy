/** Option stands for a Java reference that may be null, or a java.util.Optional. */
module Wrappers {

  datatype Option<+T> = None | Some(value: T)
}
