/** Optional values, used wherever the source has `Optional[...]` or an
    operation of the model can fail. */
module Wrappers {

  datatype Option<+T> = None | Some(value: T)
}
