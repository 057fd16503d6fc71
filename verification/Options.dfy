/** The two result shapes every component of the model shares. */
module Options {

  datatype Option<+T> = None | Some(value: T) {
    function UnwrapOr(other: T): T { if None? then other else value }
  }

  datatype Result<+T, +E> = Ok(value: T) | Err(error: E)
}
