/** Stock datatypes shared by the other modules. */
module Prelude {
  datatype Option<+T> = None | Some(value: T)
  {
    function GetOr(default: T): T { if Some? then value else default }
  }

  datatype Result<+T, +E> = Ok(value: T) | Err(error: E)
}
