/** Failure-carrying wrappers shared by the whole model.
    - Option<T> stands for a TypeScript value that may be `null` or `undefined`.
    - Result<R, E> stands for a call that either returns or throws an `Error`.
 */
module Options {

  datatype Option<+T> = None | Some(value: T) {

    /** The wrapped value, or `default` when absent (the `??` operator). */
    function GetOr(default: T): T {
      match this
      case Some(v) => v
      case None => default
    }
  }

  datatype Result<+R, +E> = Ok(value: R) | Err(error: E)
}
