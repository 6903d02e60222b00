/** Failure-aware results for the operations of the game engine.

    The engine reports its two caller errors by raising Ruby's ArgumentError;
    here each raise becomes an `Err` carrying which check failed, and the
    caller's state is whatever it held before the call.
 */
module Outcomes {

  /** The two ways a caller can be refused. */
  datatype Error =
    | InvalidGuess  // the guess is not four digits from 1 to 6
    | InvalidName   // the player's name is not 1 to 9 characters long

  datatype Result<+T> = Ok(value: T) | Err(error: Error) {

    predicate IsFailure() {
      Err?
    }

    function PropagateFailure<U>(): Result<U>
      requires Err?
    {
      Err(error)
    }

    function Extract(): T
      requires Ok?
    {
      value
    }
  }

  /** A value that is present or absent (Ruby's `nil` / `false`). */
  datatype Option<+T> = None | Some(value: T)
}
