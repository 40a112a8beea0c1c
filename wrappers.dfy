/** Small result types shared by the rule engine model. */
module Wrappers {

  /** A value that may be absent, as Python's `None` or a missing dictionary key. */
  datatype Option<+T> = None | Some(value: T)

  /**
   * The outcome of a Python call that either returns a value or lets a
   * `TypeError` escape to its caller (the only exception the engine does not
   * catch).
   */
  datatype Outcome<+T> = Returns(value: T) | RaisesTypeError
}
