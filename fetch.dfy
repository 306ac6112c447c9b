/**
 * The retry loop of `getSuppressionList`: one logical request to the
 * suppression-list endpoint, re-issued while the service answers 429.
 *
 * The HTTP call itself is not modelled: the answers the service gives to the
 * successive attempts are a finite sequence of responses, and running out of
 * them means the loop would still be waiting (`Pending`).  The sleep is not
 * modelled either; the number of pauses the loop would take is reported.
 */
module SuppressionFetch {
  import opened Common

  /** The one 429 message that makes the loop pause before it retries. */
  const RateLimitMessage: string := "Too many requests"

  /**
   * One HTTP response: its status, the message of the first error in a 429
   * body, and the decoded JSON body (used when the status is 200).
   */
  datatype Response<J> = Response(status: int, message: string, json: J)

  /**
   * `Returned(v, used, pauses)`: the function returned `v` (`None` for an
   * error status) after `used` attempts and `pauses` rate-limit pauses.
   * `Pending(pauses)`: every given response was a 429.
   */
  datatype FetchResult<J> = Returned(value: Option<J>, used: nat, pauses: nat) | Pending(pauses: nat)

  /** True of a status that ends the retry loop. */
  predicate Final(status: int) {
    status != 429
  }

  /** Whether a response makes the loop pause before the next attempt. */
  predicate Pauses<J>(r: Response<J>) {
    r.status == 429 && r.message == RateLimitMessage
  }

  /** The number of the first `n` responses that cause a pause. */
  function PauseCount<J>(rs: seq<Response<J>>, n: nat): (c: nat)
    requires n <= |rs|
    ensures c <= n
  {
    if n == 0 then 0 else PauseCount(rs, n - 1) + (if Pauses(rs[n - 1]) then 1 else 0)
  }

  /** What the retry loop does with the responses `rs`, one attempt at a time. */
  function FetchSpec<J>(rs: seq<Response<J>>): (r: FetchResult<J>)
    ensures r.Returned? ==> 1 <= r.used <= |rs|
    decreases |rs|
  {
    if |rs| == 0 then Pending(0)
    else if rs[0].status == 200 then Returned(Some(rs[0].json), 1, 0)
    else if rs[0].status == 429 then
      var p := if rs[0].message == RateLimitMessage then 1 else 0;
      match FetchSpec(rs[1..])
      case Returned(v, u, q) => Returned(v, u + 1, q + p)
      case Pending(q) => Pending(q + p)
    else Returned(None, 1, 0)
  }

  /** The result of the loop after `k` attempts that were all 429s and `pauses` pauses. */
  function After<J>(r: FetchResult<J>, k: nat, pauses: nat): FetchResult<J> {
    match r
    case Returned(v, u, q) => Returned(v, u + k, q + pauses)
    case Pending(q) => Pending(q + pauses)
  }

  /**
   * The loop of `getSuppressionList`: 200 returns the body, 429 tries again
   * (pausing first only for the rate-limit message), anything else returns
   * `None`.
   */
  method GetSuppressionList<J>(responses: seq<Response<J>>) returns (result: FetchResult<J>)
    ensures result == FetchSpec(responses)
  {
    var k := 0;
    var pauses := 0;
    while k < |responses|
      invariant 0 <= k <= |responses|
      invariant FetchSpec(responses) == After(FetchSpec(responses[k..]), k, pauses)
    {
      var response := responses[k];
      assert responses[k..][1..] == responses[k + 1..];
      k := k + 1;
      if response.status == 200 {
        return Returned(Some(response.json), k, pauses);
      } else if response.status == 429 {
        if response.message == RateLimitMessage {
          pauses := pauses + 1;       // the source sleeps here
          continue;
        }
      } else {
        return Returned(None, k, pauses);
      }
    }
    return Pending(pauses);
  }

  /**
   * The loop ends at the first response whose status is not 429: it returns
   * that response's body when the status is 200 and `None` otherwise, after
   * exactly that many attempts, having paused once for each earlier 429 that
   * carried the rate-limit message and for no other.
   */
  lemma {:induction false} FetchEndsAtFirstFinal<J>(rs: seq<Response<J>>, i: nat)
    requires i < |rs| && Final(rs[i].status)
    requires forall j :: 0 <= j < i ==> rs[j].status == 429
    ensures FetchSpec(rs) == Returned(if rs[i].status == 200 then Some(rs[i].json) else None, i + 1, PauseCount(rs, i))
  {
    if i > 0 {
      FetchEndsAtFirstFinal(rs[1..], i - 1);
      PauseCountShift(rs, i);
    }
  }

  /** The loop is still retrying after every response iff every response is a 429. */
  lemma {:induction false} FetchPendingIffAll429<J>(rs: seq<Response<J>>)
    ensures FetchSpec(rs).Pending? <==> forall j :: 0 <= j < |rs| ==> rs[j].status == 429
    ensures FetchSpec(rs).Pending? ==> FetchSpec(rs).pauses == PauseCount(rs, |rs|)
  {
    if |rs| > 0 {
      FetchPendingIffAll429(rs[1..]);
      PauseCountShift(rs, |rs|);
      if rs[0].status == 429 {
        forall j | 1 <= j < |rs| ensures rs[1..][j - 1] == rs[j] { }
      }
    }
  }

  /** Counting pauses over `rs` is the first response's pause plus those over the rest. */
  lemma {:induction false} PauseCountShift<J>(rs: seq<Response<J>>, n: nat)
    requires 1 <= n <= |rs|
    ensures PauseCount(rs, n) == (if Pauses(rs[0]) then 1 else 0) + PauseCount(rs[1..], n - 1)
  {
    if n > 1 {
      PauseCountShift(rs, n - 1);
      assert rs[1..][n - 2] == rs[n - 1];
    }
  }
}
