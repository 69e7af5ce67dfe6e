/** Failure-compatible result types and the error taxonomy of the shop backend.

    Every exception the controllers raise or let through is one `Error`:
    - `NotFound`: a `DoesNotExist` turned into `Http404` (also for rows a
      visibility filter hides);
    - `PermissionDenied`: an object-level permission check that failed;
    - `ValidationError`: a DRF validation error, optionally keyed by a field
      name (`non_field_errors` for cross-field errors);
    - `ValueError`: raised by `Image.save`;
    - `KeyError`: an ordered-dict `pop` of a missing key;
    - `TypeError`: a call with a keyword argument the callee does not accept.
 */
module Wrappers {

  datatype Option<+T> = None | Some(value: T)

  datatype Error =
    | NotFound
    | PermissionDenied
    | ValidationError(field: Option<string>, message: string)
    | ValueError(message: string)
    | KeyError(key: string)
    | TypeError(message: string)

  /** An operation's outcome: a value, or the exception that interrupted it. */
  datatype Result<+T> = Ok(value: T) | Err(error: Error) {

    predicate IsFailure() {
      Err?
    }

    function PropagateFailure<U>(): Result<U>
      requires Err?
    {
      Err(error)
    }

    function Extract(): T
      requires Ok?
    {
      value
    }
  }
}
