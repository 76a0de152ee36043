/** The failure-carrying wrappers the rest of the model uses in place of
    JavaScript's `null`, `undefined`, `NaN` and thrown errors. */
module Wrappers {

  /** `None` stands for an absent value: `null`, `undefined`, or (for numbers) `NaN`. */
  datatype Option<+T> = None | Some(value: T)

  /** A computation that either yields a value or fails with a message (a thrown `Error`). */
  datatype Result<+T, +E> = Ok(value: T) | Err(error: E)
}
