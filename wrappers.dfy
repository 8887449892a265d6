/** The optional-value datatype shared by every module of the model. */
module Wrappers {

  /** A value that may be missing: `undefined`/`null` on the TypeScript side, `None` on the Python side. */
  datatype Option<+T> = None | Some(value: T) {

    /** The value, or `default` when it is missing. */
    function GetOr(default: T): T {
      match this
      case Some(v) => v
      case None => default
    }
  }
}
