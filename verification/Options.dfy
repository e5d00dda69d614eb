/** Optional values: the nullable columns and fields of the original. */
module Options {
  datatype Option<+T> = None | Some(value: T)
}
