/** Optional value shared by every module. */
module Wrappers {

  /** `None` stands for Go's nil / "no value" (a failed fetch, an absent document, nil response data). */
  datatype Option<T> = None | Some(value: T)
}
