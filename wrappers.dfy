/** Optional values: a TypeScript `x?: T` field or a `T | null` state. */
module Wrappers {

  datatype Option<+T> = None | Some(value: T)

}
