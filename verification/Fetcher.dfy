/** internal/compose/fetcher.go: from HTTP responses to the outcome the cache sees. */
module Fetcher {
  import opened FileStore
  import opened DesiredCache

  /** What one attempt meets. `TooLong` covers every failure to read the body within the limit. */
  datatype Response =
    | NoResponse
    | TooLong
    | Reply(status: int, body: Bytes, etag: string)

  /** doFetch's result, with the retry decision of its error. */
  datatype Attempt = Done(outcome: FetchOutcome) | Failed(retryable: bool)

  function DoFetch(response: Response): Attempt {
    match response
    case NoResponse => Failed(true)
    case TooLong => Failed(true)
    case Reply(status, body, etag) =>
      if status == 304 then Done(NotModified(etag))
      else if 500 <= status < 600 then Failed(true)
      else if status != 200 then Failed(false)
      else if body == "" then Failed(false)
      else Done(Fetched(body, etag))
  }

  /** No usable answer, or an error of the server: worth another attempt. */
  ghost predicate Transient(response: Response) {
    response.NoResponse? || response.TooLong? || 500 <= response.status <= 599
  }

  /**
   The attempt loop: it asks again exactly after transient failures, within
   maxRetries + 1 attempts, and the outcome is what the last response says. A body it
   returns is never empty.
   */
  method Fetch(responses: nat -> Response, maxRetries: nat) returns (outcome: FetchOutcome, attempts: nat)
    ensures 1 <= attempts <= maxRetries + 1
    ensures forall k: nat | k < attempts - 1 :: Transient(responses(k))
    ensures forall body, etag :: outcome == Fetched(body, etag) <==>
              responses(attempts - 1) == Reply(200, body, etag) && body != ""
    ensures forall etag :: outcome == NotModified(etag) <==>
              exists body :: responses(attempts - 1) == Reply(304, body, etag)
    ensures outcome.FetchFailed? <==>
              var last := responses(attempts - 1);
              || (last.Reply? && last.status == 200 && last.body == "")
              || (last.Reply? && last.status != 200 && last.status != 304 && !(500 <= last.status <= 599))
              || (Transient(last) && attempts == maxRetries + 1)
  {
    attempts := 0;
    while attempts <= maxRetries
      invariant attempts <= maxRetries + 1
      invariant forall k: nat | k < attempts :: Transient(responses(k))
    {
      var result := DoFetch(responses(attempts));
      assert responses(attempts).Reply? ==>
               responses(attempts)
                   == Reply(responses(attempts).status, responses(attempts).body, responses(attempts).etag);
      attempts := attempts + 1;
      if result.Done? {
        return result.outcome, attempts;
      }
      if !result.retryable {
        return FetchFailed, attempts;
      }
    }
    return FetchFailed, attempts;
  }
}
