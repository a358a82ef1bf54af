module Wrappers {
  datatype Option<+T> = None | Some(value: T) {
    function Get(default: T): T {
      if Some? then value else default
    }
  }

  datatype Result<+T, +E> = Ok(value: T) | Err(error: E)
}
