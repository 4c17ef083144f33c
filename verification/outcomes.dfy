/** Failure-carrying datatypes shared by the modules of this model. */
module Outcomes {

  /** A value that JavaScript may leave as `null`. */
  datatype Option<+T> = None | Some(value: T) {

    /** The value, or `default` for `None`. */
    function GetOr(default: T): T
    {
      match this
      case Some(v) => v
      case None => default
    }
  }

  /** The outcome of one call into a collaborator: its result, or the
      message of the error it raised. */
  datatype Outcome<+T> = Ok(value: T) | Err(msg: string)
}
