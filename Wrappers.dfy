/** Small failure-carrying datatypes shared by every module. */
module Wrappers {

  datatype Option<+T> = None | Some(value: T)

  datatype Result<+T, +E> = Success(value: T) | Failure(error: E)

  /** The outcome of one query against the data store: the rows it
      returned, or an error reported by the store. */
  datatype Fetch<+T> = Fetched(data: T) | QueryFailed

  function Max(a: int, b: int): (m: int)
    ensures m >= a && m >= b && (m == a || m == b)
  {
    if a >= b then a else b
  }
}
