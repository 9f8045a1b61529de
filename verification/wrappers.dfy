/** Failure-compatible wrappers shared by every module of the ride model. */
module Wrappers {

  /** A value that may be missing: pandas' NaN / Python's None. */
  datatype Option<+T> = None | Some(value: T) {

    /** The value, or `default` when missing (pandas' `fillna(default)`). */
    function GetOr(default: T): T {
      match this
      case Some(v) => v
      case None => default
    }
  }

  /** The exceptions the modelled code can raise. */
  datatype Error =
    | KeyError(key: string)     // a DataFrame column that no record carries
    | ValueError(msg: string)   // a rejected argument

  /** Either a value or the exception that ended the computation. */
  datatype Result<+R> = Ok(value: R) | Err(error: Error) {

    predicate IsFailure() {
      Err?
    }

    function PropagateFailure<U>(): Result<U>
      requires Err?
    {
      Err(error)
    }

    function Extract(): R
      requires Ok?
    {
      value
    }
  }
}
