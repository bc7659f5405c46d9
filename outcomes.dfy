/** Optional values and the success-or-error results that stand for Python's
    `None` and for exceptions raised and caught inside the pipeline. */
module Outcomes {

  datatype Option<+T> = None | Some(value: T)

  datatype Result<+T, +E> = Success(value: T) | Failure(error: E)
}
