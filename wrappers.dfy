/** Failure-carrying wrappers shared by every module of the model. */
module Wrappers {

  /** A value that may be absent: SQL NULL, a JavaScript `null`, a missing row. */
  datatype Option<+T> = None | Some(value: T) {
    function GetOr(default: T): T {
      match this
      case Some(v) => v
      case None => default
    }
  }

  /** The outcome of an operation that either succeeds with a value or throws. */
  datatype Result<+T, +E> = Ok(value: T) | Err(error: E)

  /**
   * A property of a JavaScript request body or attribute bag: the key may be
   * absent (`undefined`), present with `null`, or present with a value.
   * Sequelize applies a column default only for `Missing`; `??` treats
   * `Missing` and `Null` alike.
   */
  datatype Field<+T> = Missing | Null | Given(value: T) {
    /** `x ?? fallback` */
    function Coalesce(fallback: T): T {
      if Given? then value else fallback
    }
  }
}
