/** Option for values the source may leave as None, and Outcome for a computation
    that either yields a value or ends in a Python exception (TypeError, KeyError,
    ValueError ...), which the model does not distinguish further. */
module Wrappers {

  datatype Option<+T> = None | Some(value: T) {
    function GetOr(default: T): T {
      match this
      case Some(v) => v
      case None => default
    }
  }

  datatype Outcome<+T> = Ok(value: T) | Raises
}
