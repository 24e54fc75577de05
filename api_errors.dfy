/**
 * The response classifier `handle_api_errors`: given the outcome of one
 * submission (no response at all, or an HTTP response), decide whether the
 * batch is skipped as retryable (`true`) or its body is processed (`false`).
 */
module ApiErrors {
  import opened Wrappers

  /**
   * An HTTP response with its JSON body already decoded: the status code and
   * the optional `success_count` and `failed_count` fields.
   */
  datatype Response = Response(status: int, successCount: Option<int>, failedCount: Option<int>)

  const TooManyRequests: int := 429
  const ServerErrorFloor: int := 500

  /** Bounds of `random.randint(1, 5)`, the rate-limit wait in seconds. */
  const MinBackoff: int := 1
  const MaxBackoff: int := 5

  /** The status code of a submission outcome; `None` when the request failed. */
  function StatusOf(response: Option<Response>): Option<int>
  {
    match response
    case None => None
    case Some(r) => Some(r.status)
  }

  /**
   * The classification the handler promises: a missing response, 429, or any
   * status of 500 or more is retryable; every other status, 2xx included, is not.
   */
  predicate IsRetryable(status: Option<int>)
  {
    match status
    case None => true
    case Some(code) => code == TooManyRequests || code >= ServerErrorFloor
  }

  /**
   * The handler itself. On 429 it also chooses a wait in 1..5 and sleeps;
   * the chosen wait is returned as `backoff`. The random draw is a
   * nondeterministic choice.
   */
  method HandleApiErrors(response: Option<Response>) returns (skip: bool, backoff: Option<int>)
    ensures skip <==> IsRetryable(StatusOf(response))
    ensures response.Some? && 200 <= response.value.status < 300 ==> !skip
    ensures backoff.Some? <==> StatusOf(response) == Some(TooManyRequests)
    ensures backoff.Some? ==> MinBackoff <= backoff.value <= MaxBackoff
  {
    if response.None? {
      return true, None;
    }
    var code := response.value.status;
    if code == TooManyRequests {
      var wait :| MinBackoff <= wait <= MaxBackoff;
      return true, Some(wait);
    } else if code >= ServerErrorFloor {
      return true, None;
    } else {
      return false, None;
    }
  }
}
