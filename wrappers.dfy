/** Optional values, standing for the `T | null` types of the portfolio's React code. */
module Wrappers {

  datatype Option<+T> = None | Some(value: T)
}
