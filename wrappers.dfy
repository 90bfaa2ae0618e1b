/** The optional-value and outcome types used wherever the source returns `None` or may raise. */
module Wrappers {

  datatype Option<+T> = None | Some(value: T)

  /**
    The result of a call that either returns a value or lets an exception
    escape to its caller (an uncaught `AttributeError` or `TypeError`).
   */
  datatype Outcome<+T> = Returns(value: T) | Raises
}
