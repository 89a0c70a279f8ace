/** Option and Outcome values shared by every module of the model. */
module Wrappers {

  /** A value that may be absent: Python's `None`, JavaScript's `undefined`/`null`. */
  datatype Option<+T> = None | Some(value: T)

  /** The exceptions the modelled code can raise and does not catch. */
  datatype Error =
    | ValueError        // `list.remove` of an element that is not in the list
    | CancelledError    // `Future.exception()` on a cancelled future
    | AttributeError    // a method called on Python `None`
    | TypeError         // a property read on JavaScript `undefined`
    | CallbackError     // whatever a stop callback raised

  /** The outcome of a call that returns nothing but may raise. */
  datatype Outcome = Pass | Fail(error: Error)
}
