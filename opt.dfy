/** The usual optional-value wrapper, for absent keys, missing matches and
    nullable columns. */
module Opt {
  datatype Option<+T> = None | Some(value: T) {
    function GetOr(default: T): T {
      match this
      case Some(v) => v
      case None => default
    }
  }
}
