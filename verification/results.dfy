/** Failure values shared by every slot of the model.

    The slots signal failure by throwing .NET exceptions; here each exception
    becomes an `Error` carrying its type and, where the source fixes it, its
    message. */
module Results {

  datatype Error =
    | Hyperlambda(message: string)    // HyperlambdaException
    | ArgumentNull(message: string)   // ArgumentNullException
    | Argument(message: string)       // ArgumentException
    | NoElements                      // Enumerable.First() on an empty child list
    | OutOfRange                      // string.Substring past either end
    | Conversion                      // GetEx<T>() on a value of another kind
    | NotFound(path: string)          // the service has no entry at path
    | Conflict(path: string)          // the service refuses to replace path

  datatype Option<+T> = None | Some(value: T)

  /** A value or the exception that replaced it; usable with `:-`. */
  datatype Result<+T> = Ok(value: T) | Fail(error: Error) {

    predicate IsFailure() {
      Fail?
    }

    function PropagateFailure<U>(): Result<U>
      requires Fail?
    {
      Fail(error)
    }

    function Extract(): T
      requires Ok?
    {
      value
    }
  }

  /** How a slot invocation ended: normally, or by throwing. */
  datatype Status = Done | Failed(error: Error)
}
