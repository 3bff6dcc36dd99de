/** Failure-carrying wrappers shared by every module of the model.
    `Option` stands for a JavaScript `undefined`/`null` or a Java `null`;
    `Result` stands for a call that either returns or throws. */
module Common {

  datatype Option<+T> = None | Some(value: T) {

    /** The wrapped value, or `default` when there is none (JavaScript's `x || d`
        for values that are never falsy). */
    function GetOr(default: T): T
    {
      match this
      case Some(v) => v
      case None => default
    }
  }

  datatype Result<+T, +E> = Ok(value: T) | Err(error: E)
}
