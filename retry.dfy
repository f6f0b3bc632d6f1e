/**
 * The classifier handed to the exponential back-off around the calendar
 * query (`backoffPermanentError`): it decides which failures are worth
 * another attempt and which stop the retry loop at once.
 */
module Retry {
  import opened Text

  datatype Option<T> = None | Some(value: T)

  /**
   * A Go `error` as the classifier sees it: the HTTP status of the
   * `request.StatusError` found in its chain, if any, and its message.
   */
  datatype Error = Error(status: Option<int>, message: string)

  /** What the classifier returns: no error, the error unchanged, or the error marked permanent. */
  datatype Classified = NoError | Retryable(err: Error) | Permanent(err: Error)

  /** The message prefix of a failed evaluation of the response's jq query. */
  const QueryFailedPrefix: string := "jq: query failed"

  /** An HTTP client or server error: the upstream answered with a status in [400, 599]. */
  predicate IsHttpError(e: Error) {
    e.status.Some? && 400 <= e.status.value <= 599
  }

  /** The response could not be evaluated by the jq query. */
  predicate IsQueryFailure(e: Error) {
    HasPrefix(e.message, QueryFailedPrefix)
  }

  /** The model of `backoffPermanentError`. */
  function BackoffPermanentError(err: Option<Error>): (r: Classified)
    ensures err.None? <==> r.NoError?
    ensures err.Some? ==> !r.NoError? && r.err == err.value
    ensures err.Some? ==> (r.Permanent? <==> IsHttpError(err.value) || IsQueryFailure(err.value))
  {
    if err.Some? && IsHttpError(err.value) then Permanent(err.value)
    else if err.Some? && IsQueryFailure(err.value) then Permanent(err.value)
    else if err.Some? then Retryable(err.value)
    else NoError
  }

  /** Every status code of the 4xx and 5xx families stops the retry loop, whatever the message. */
  lemma HttpStatusIsPermanent(code: int, message: string)
    requires 400 <= code <= 599
    ensures BackoffPermanentError(Some(Error(Some(code), message))) == Permanent(Error(Some(code), message))
  {
  }

  /** A status outside [400, 599] does not make an error permanent by itself. */
  lemma OtherStatusIsRetried(code: int, message: string)
    requires code < 400 || 599 < code
    requires !HasPrefix(message, QueryFailedPrefix)
    ensures BackoffPermanentError(Some(Error(Some(code), message))) == Retryable(Error(Some(code), message))
  {
  }

  /** A failed jq evaluation is permanent even without an HTTP status. */
  lemma QueryFailureIsPermanent(suffix: string)
    ensures var e := Error(None, QueryFailedPrefix + suffix);
            BackoffPermanentError(Some(e)) == Permanent(e)
  {
    var m := QueryFailedPrefix + suffix;
    assert m[..|QueryFailedPrefix|] == QueryFailedPrefix;
  }

  /** A transport failure (no status, any other message) is retried. */
  lemma TransportFailureIsRetried(message: string)
    requires !HasPrefix(message, QueryFailedPrefix)
    ensures BackoffPermanentError(Some(Error(None, message))) == Retryable(Error(None, message))
  {
  }

  /** A message that merely contains the jq text further in is not a query failure. */
  lemma QueryFailureMustBeAPrefix()
    ensures BackoffPermanentError(Some(Error(None, "upstream: jq: query failed"))).Retryable?
  {
    var m := "upstream: jq: query failed";
    assert m[0] != QueryFailedPrefix[0];
  }
}
