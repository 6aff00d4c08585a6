/** Optional values and results, the shapes Go expresses with `(value, error)` pairs. */
module Wrappers {

  datatype Option<+T> = None | Some(value: T)

  datatype Result<+R, +E> = Success(value: R) | Failure(error: E)
}

/**
 * Go `error` values of the worker. `fmt.Errorf("...: %w", err)` wraps an
 * inner error; each wrapping site of the consumer is its own constructor,
 * so unwrapping (`errors.Unwrap`) is field access.
 */
module Errors {

  datatype Error =
    | Cause(text: string)                             // an error produced outside the model (SDK, handler body)
    | ReceiveFailed(inner: Error)                     // receiveAndProcessMessages: receive call failed
    | ProcessFailed(messageId: string, inner: Error)  // processMessage: handler failed for one message
    | DeleteFailed(inner: Error)                      // deleteMessage: delete call failed

  /** The `error` result of a Go function: `nil` or an error. */
  datatype Outcome = Ok | Fail(err: Error)
}
