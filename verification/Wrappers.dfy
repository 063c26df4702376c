/** The result types the other modules share. */
module Wrappers {

  datatype Option<+T> = None | Some(value: T)

  datatype Result<+T, +E> = Ok(value: T) | Err(error: E)

  /** How a write went: done and heard of, done but reported as failed, or not done. */
  datatype Writing = Done | Unheard | Lost
}
