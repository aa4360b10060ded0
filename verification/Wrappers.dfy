/** An optional value. */
module Wrappers {

  datatype Option<+T> = None | Some(value: T) {
    function UnwrapOr(default: T): T {
      match this case Some(v) => v case None => default
    }
  }
}
