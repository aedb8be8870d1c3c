/** Optional values and results with an error, shared by every module of the model. */
module Outcomes {

  /** A value that may be absent: `None` stands for JavaScript's `undefined`. */
  datatype Option<+T> = None | Some(value: T)

  /** The outcome of an operation that may fail with a typed error instead of throwing. */
  datatype Result<+T, +E> = Success(value: T) | Failure(error: E)

  /** One field of `{...current, ...body}`: the body's value when it carries the field, the
      current value otherwise. */
  function Supplied<T>(v: Option<T>, current: T): T {
    if v.Some? then v.value else current
  }
}
