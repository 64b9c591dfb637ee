/** Optional values: `None` stands for what the source represents as a missing
    value or NaN (for instance the mean of an empty column). */
module Wrappers {

  datatype Option<T> = None | Some(value: T)
}
