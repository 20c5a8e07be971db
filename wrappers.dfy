/** Optional values, used where the lookup loop of a sequence can fall through. */
module Wrappers {

  datatype Option<+T> = None | Some(value: T)
}
