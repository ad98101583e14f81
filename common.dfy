/** Optional values and fallible results: `T | null` and `{ data, error }` of the source. */
module Options {
  datatype Option<+T> = None | Some(value: T)

  datatype Result<+T> = Ok(value: T) | Err(message: string)
}
