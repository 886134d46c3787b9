/** What several modules share: an optional value and the error numbers of the C library. */
module Common {

  datatype Option<T> = None | Some(value: T)

  const ENODATA: int := 61
  const ECONNREFUSED: int := 111
  const ETIMEDOUT: int := 116
  const EMSGSIZE: int := 122
}
