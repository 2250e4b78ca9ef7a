/** Optional values, for the source's `string | null` and `thumbnail?` fields. */
module Wrappers {

  datatype Option<+T> = None | Some(value: T)
}
