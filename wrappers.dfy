/** Optional values: `None` stands for a missing JSON field, JavaScript's
    `null`/`undefined`, or pandas' NaN, depending on where it is used. */
module Wrappers {

  datatype Option<+T> = None | Some(value: T)
}
