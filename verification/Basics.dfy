/** Optional values and durations in nanoseconds. */
module Basics {

  datatype Option<T> = None | Some(value: T)

  const MINUTE := 60_000_000_000
  const HOUR := 60 * MINUTE
}
