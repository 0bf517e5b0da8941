/** Optional values: the model's stand-in for Go's nil / "comma ok" results. */
module Wrappers {

  datatype Option<+T> = None | Some(value: T)
}
