/** Optional values and check outcomes shared by the model. */
module Wrappers {

  /** `None` plays JavaScript's `undefined` (or `NaN` for a number parse). */
  datatype Option<+T> = None | Some(value: T)

  /** The outcome of a check that either yields a value or an error reply. */
  datatype Result<+R, +E> = Ok(value: R) | Err(error: E)
}
