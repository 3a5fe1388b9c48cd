/** Optional values, standing in for the `T | null` and `T | undefined` results of the source. */
module Wrappers {

  datatype Option<+T> = None | Some(value: T)

}
