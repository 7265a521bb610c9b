/** Optional values: TypeScript's `T | null` and optional record fields. */
module Wrappers {

  datatype Option<+T> = None | Some(value: T)
}
