/** Optional values, for the places where the C++ code uses a null pointer or a failed read. */
module Wrappers {

  datatype Maybe<+T> = None | Some(value: T)
}
