/** Option values, used where the C code returns a null pointer or a failure flag with an output. */
module Wrappers {
  datatype Option<+T> = None | Some(value: T)
}
