/** Failure-compatible result types shared by every module, and the exception
    classes of the ORM core as error values. */
module Wrappers {

  datatype Option<+T> = None | Some(value: T)

  /** The exception classes the core throws:
      OrmInputException (caller misuse), OrmException (internal inconsistency),
      OrmRelationshipResolutionException, and PHP's plain Exception; and
      the engine's own fatal errors, such as a violated type hint, which
      end the script instead of throwing. */
  datatype Error =
    | InputError(msg: string)
    | OrmError(msg: string)
    | ResolutionError(msg: string)
    | PlainError(msg: string)
    | FatalError(msg: string)

  datatype Result<+T> = Ok(value: T) | Err(error: Error) {
    predicate IsFailure() {
      Err?
    }

    function PropagateFailure<U>(): Result<U>
      requires Err?
    {
      Err(error)
    }

    function Extract(): T
      requires Ok?
    {
      value
    }
  }
}
