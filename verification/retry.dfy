/** `http_get_with_retries`: a GET repeated while the server answers
    502/503/504 or the request raises, sleeping with capped exponential
    backoff after every failed attempt. The network and the clock are not
    modelled: the outcome of the i-th request (counting from 0) is the
    parameter `outcome(i)`, and the sleeps are returned instead of taken. */
module Retry {

  import opened Wrappers

  datatype Response = Response(status: int, body: string)

  /** What one `requests.get` call did: answered, or raised (connection
      error, timeout, ...). */
  datatype Attempt = Responded(response: Response) | Raised(reason: string)

  /** The terminal error, carrying the URL and the last failed attempt
      (`None` when no attempt was made). */
  datatype FetchFailure = DownloadFailed(url: string, lastError: Option<Attempt>)

  /** The number of attempts used for the CSV download. */
  const DataTries: int := 7

  /** Statuses treated as a temporary outage. */
  predicate IsTransientStatus(status: int) {
    status == 502 || status == 503 || status == 504
  }

  /** An attempt that is retried: it raised or answered with a transient status. */
  predicate Failed(a: Attempt) {
    a.Raised? || IsTransientStatus(a.response.status)
  }

  function Pow2(i: nat): (p: nat)
    ensures p >= 1
  {
    if i == 0 then 1 else 2 * Pow2(i - 1)
  }

  /** Seconds slept after failed attempt `i`: `min(30, 3 * 2^i)`. */
  function BackoffDelay(i: nat): (d: nat)
    ensures 3 <= d <= 30
  {
    if 3 * Pow2(i) < 30 then 3 * Pow2(i) else 30
  }

  lemma {:induction false} Pow2Monotone(i: nat, j: nat)
    requires i <= j
    ensures Pow2(i) <= Pow2(j)
    decreases j
  {
    if i < j {
      Pow2Monotone(i, j - 1);
    }
  }

  /** The delay never decreases from one attempt to the next. */
  lemma BackoffMonotone(i: nat, j: nat)
    requires i <= j
    ensures BackoffDelay(i) <= BackoffDelay(j)
  {
    Pow2Monotone(i, j);
  }

  /** The schedule is 3, 6, 12, 24 and then 30 for every later attempt
      (the source's comment says 20 for the fourth delay; the formula
      gives 24). */
  lemma BackoffSchedule(i: nat)
    ensures BackoffDelay(0) == 3 && BackoffDelay(1) == 6 && BackoffDelay(2) == 12 && BackoffDelay(3) == 24
    ensures i >= 4 ==> BackoffDelay(i) == 30
  {
    assert Pow2(4) == 16 by {
      assert Pow2(1) == 2 && Pow2(2) == 4 && Pow2(3) == 8;
    }
    if i >= 4 {
      Pow2Monotone(4, i);
    }
  }

  function Max0(n: int): nat {
    if n < 0 then 0 else n
  }

  /** At most `tries` requests are made (none when `tries <= 0`). The first
      attempt that does not fail is returned unchanged, whatever its status
      (a 4xx included); a 502, 503 or 504 is never returned. Every failed
      attempt, the last one included, is followed by its backoff sleep.
      When all attempts fail the result is `DownloadFailed` with the last
      one. */
  method HttpGetWithRetries(url: string, tries: int, outcome: nat -> Attempt)
    returns (requests: nat, sleeps: seq<nat>, result: Result<Response, FetchFailure>)
    ensures requests <= Max0(tries)
    ensures forall k :: 0 <= k < |sleeps| ==> Failed(outcome(k)) && sleeps[k] == BackoffDelay(k)
    ensures result.Success? ==>
      && requests >= 1
      && |sleeps| == requests - 1
      && outcome(requests - 1) == Responded(result.value)
      && !IsTransientStatus(result.value.status)
    ensures result.Failure? ==>
      && requests == Max0(tries)
      && |sleeps| == requests
      && result.error == DownloadFailed(url, if requests == 0 then None else Some(outcome(requests - 1)))
  {
    requests := 0;
    sleeps := [];
    var lastErr: Option<Attempt> := None;
    var i: nat := 0;
    while i < tries
      invariant i <= Max0(tries)
      invariant requests == i && |sleeps| == i
      invariant forall k :: 0 <= k < i ==> Failed(outcome(k)) && sleeps[k] == BackoffDelay(k)
      invariant lastErr == if i == 0 then None else Some(outcome(i - 1))
    {
      var a := outcome(i);
      requests := requests + 1;
      if !Failed(a) {
        result := Success(a.response);
        return;
      }
      lastErr := Some(a);
      sleeps := sleeps + [BackoffDelay(i)];
      i := i + 1;
    }
    result := Failure(DownloadFailed(url, lastErr));
  }

  /** The download answers 503 twice and then 200: the call succeeds on the
      third request after sleeping 3 and then 6 seconds. */
  method TwoOutagesThenOk(url: string) returns (requests: nat, sleeps: seq<nat>, result: Result<Response, FetchFailure>)
    ensures requests == 3 && sleeps == [3, 6]
    ensures result == Success(Response(200, "ok"))
  {
    var script := (i: nat) =>
      if i < 2 then Responded(Response(503, "")) else Responded(Response(200, "ok"));
    requests, sleeps, result := HttpGetWithRetries(url, DataTries, script);
    assert !Failed(script(2));
    assert |sleeps| <= 2;
    assert result.Success?;
    assert !Failed(script(requests - 1));
    BackoffSchedule(0);
    assert sleeps == [sleeps[0], sleeps[1]];
  }
}
