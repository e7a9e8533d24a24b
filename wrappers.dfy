/** Failure-carrying values shared by every module of the model. */
module Wrappers {

  datatype Option<+T> = None | Some(value: T)

  /** A raised Python exception: the printed type name and the text `str(e)` gives. */
  datatype Error = Error(kind: string, detail: string)

  /** A stage either produces a value or raises an exception. */
  datatype Result<+R> = Success(value: R) | Failure(error: Error)
}
