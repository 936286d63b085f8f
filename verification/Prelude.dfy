/** The result shapes shared by every part of the model. */
module Prelude {

  type Address = string

  datatype Option<+T> = None | Some(value: T)

  datatype Result<+T, +E> = Ok(value: T) | Err(error: E) {
    predicate IsFailure() {
      Err?
    }

    function PropagateFailure<U>(): Result<U, E>
      requires Err?
    {
      Err(error)
    }

    function Extract(): T
      requires Ok?
    {
      value
    }
  }

  /** What becomes of a command sent to a remote store: it may take effect although the caller sees an error. */
  datatype Delivery = Delivered | Refused | ReplyLost {
    predicate TakesEffect() {
      !Refused?
    }
  }
}
