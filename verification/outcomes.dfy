/** Failure-carrying values shared by the turmite model.

    The program reports a bad pattern with `bail!` and aborts with `panic!`
    or `todo!()` on internal faults; here every one of these becomes a typed
    `Err`, so that contracts can say exactly when each can happen. */
module Outcomes {

  /** A value that may be absent. */
  datatype Option<+T> = None | Some(value: T)

  /** The ways a turmite operation can fail. */
  datatype Error =
    | IncorrectPattern   // fewer than two turn letters in the pattern text (a configuration error)
    | NoMatchingColor    // a tile holds a marker the pattern never produced (`Pattern::next` panics)
    | Unimplemented      // the hex ant reached a turn it has no rule for (`todo!()` in `ant_movement`)

  /** Either a value or the reason there is none. */
  datatype Result<+R> = Ok(value: R) | Err(error: Error)
}
