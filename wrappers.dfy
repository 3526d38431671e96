/** Optional values: the model's stand-in for nil pointers and for the
    "-1 means absent" sentinel of the original program. */
module Wrappers {

  datatype Option<+T> = None | Some(value: T)

}
