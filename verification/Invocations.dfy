/** internal/invocation/invocation.go: how one invocation judges and reports errors. */
module Invocations {
  import opened Wrappers
  import opened Errors
  import opened CircuitBreakers

  /** What `Impl` knows when it judges an error. */
  datatype Terms = Terms(retryableRequest: bool, redoOperation: bool, deadline: int)

  /** The content of a response. */
  type Payload = nat

  predicate MaybeCanRetry(t: Terms, e: Error) {
    || Is(e, Io)
    || Is(e, InstanceNotActive)
    || IsRetryable(e)
    || (Is(e, TargetDisconnected) && (t.retryableRequest || t.redoOperation))
  }

  predicate CanRetry(t: Terms, e: Error) {
    AsNonRetryable(e).None? && MaybeCanRetry(t, e)
  }

  /** `handleError`: past its deadline, an invocation is completed with a marked error. */
  function TimedError(e: Error, now: int, deadline: int): Error {
    if now > deadline then NonRetryable(e, false) else e
  }

  /** `unwrapResponse` on an error response. */
  function UnwrapError(t: Terms, e: Error): Error {
    if CanRetry(t, e) || e.NonRetryable? then e else NonRetryable(e, false)
  }

  function CtxError(canceled: bool): Error {
    Leaf(if canceled then ContextCanceled else ContextDeadlineExceeded)
  }

  /** The error handed to the caller lets a retry loop go on exactly when the
      invocation itself accepted the error for retrying, contexts aside. */
  lemma UnwrapErrorDecidesRetry(t: Terms, e: Error)
    ensures Judge<Payload>(Fail(UnwrapError(t, e))).Again? <==> CanRetry(t, e) && !ContextErr(e)
  {
    if CanRetry(t, e) {
      assert UnwrapError(t, e) == e;
    } else {
      var u := UnwrapError(t, e);
      assert u.NonRetryable?;
      assert AsNonRetryable(u) == Some(u);
    }
  }
}
