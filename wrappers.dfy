/** Failure-compatible wrappers shared by the model: JavaScript's `null` and
    Python's `None` become `None`; an exception the source lets escape
    becomes `Err`. */
module Wrappers {

  datatype Option<+T> = None | Some(value: T)

  /** The kinds of runtime failure the modelled code can raise. */
  datatype Error =
    | KeyError      // Python dict lookup of an absent key
    | TypeError     // JavaScript property access on undefined / null

  datatype Result<+T> = Ok(value: T) | Err(error: Error)
}
