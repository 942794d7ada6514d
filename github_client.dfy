/**
 * The GitHub client the sync uses: a GET with retries that keeps the last rate-limit
 * reading between calls, waits before a request while the quota is spent, and backs off
 * after 429, 403-with-no-quota, 5xx answers and transport failures.
 *
 * The network is an oracle giving the outcome of the n-th request sent for a URL; the
 * jitter is the n-th draw of a stream of reals in [0, 1); the clock moves only when the
 * client sleeps.
 */
module GitHub {
  import opened Wrappers
  import opened RateLimit

  /** One entry of a recursive git tree listing. */
  datatype TreeItem = TreeItem(path: string, kind: string)

  /**
   * The fields of a JSON body the sync reads, with the defaults it reads them with:
   * a commit's `sha`, a tree's `tree` list, a file's base64 `content`.
   */
  datatype Payload = Payload(sha: Option<string>, tree: seq<TreeItem>, content: string)

  const NoPayload := Payload(None, [], "")

  /** An HTTP status code. */
  type Status = s: int | 100 <= s <= 599 witness 200

  /** What one request produced: an answer, or a timeout or other transport error. */
  datatype Exchange =
    | Received(status: Status, headers: Headers, data: Payload)
    | Timeout
    | RequestError

  /** The outcome of the n-th request sent for a URL. */
  type Network = (string, nat) -> Exchange

  /** The n-th value of `random.random()`. */
  type Draws = nat -> Unit

  /** `GitHubResponse`; status 0 means every attempt failed in transport. */
  datatype Response = Response(status: int, data: Payload, rateLimit: Option<RateLimitInfo>, isRateLimited: bool) {
    predicate Success() {
      200 <= status < 300
    }
  }

  /** An answer the client treats as rate limiting, given the reading taken from it. */
  predicate LimitedAnswer(x: Exchange, rl: Option<RateLimitInfo>)
    requires x.Received?
  {
    x.status == 429 || (x.status == 403 && Exhausted(rl))
  }

  /** Whether the reading says the quota is spent does not depend on when it is taken. */
  lemma ExhaustedAnyTime(h: Headers, t1: real, t2: real)
    ensures Exhausted(FromHeaders(h, t1)) == Exhausted(FromHeaders(h, t2))
  {
  }

  /** An exchange after which the client tries again, if attempts remain. */
  predicate Retryable(x: Exchange) {
    !x.Received? || LimitedAnswer(x, FromHeaders(x.headers, 0.0)) || x.status >= 500
  }

  /** The longest one attempt waits: the wait before the request plus the delay after it. */
  const MaxWaitPerAttempt: real := MaxDelay + MaxDelay * (1.0 + JitterFactor)

  /** The longest `n` attempts can wait in all. */
  function WaitBudget(n: nat): real {
    if n == 0 then 0.0 else WaitBudget(n - 1) + MaxWaitPerAttempt
  }

  lemma {:induction false} WaitBudgetGrows(m: nat, n: nat)
    requires m <= n
    ensures WaitBudget(m) <= WaitBudget(n)
    decreases n
  {
    if m < n {
      WaitBudgetGrows(m, n - 1);
    }
  }

  /** `n` attempts wait at most 67.5 s each: 30 s for the quota and 37.5 s of backoff. */
  lemma {:induction false} WaitBudgetIs(n: nat)
    ensures WaitBudget(n) == n as real * 67.5
  {
    if n > 0 {
      WaitBudgetIs(n - 1);
    }
  }

  /** How a call of `get` ended. */
  datatype Ending = Refused | Replied | GaveUp

  class GitHubClient {
    /** `_rate_limit`: the reading of the last answer received. */
    var rateLimit: Option<RateLimitInfo>
    /** The clock, in seconds. */
    var now: real
    /** Requests sent so far. */
    var sent: nat
    /** Jitter values drawn so far. */
    var drawn: nat

    constructor(start: real)
      ensures rateLimit == None && now == start && sent == 0 && drawn == 0
    {
      rateLimit := None;
      now := start;
      sent := 0;
      drawn := 0;
    }

    /** The cached reading says the quota is spent and the reset is more than 30 s away. */
    predicate Blocked()
      reads this`rateLimit, this`now
    {
      Exhausted(rateLimit) && WaitSeconds(rateLimit.value, now) > MaxDelay
    }

    /** `asyncio.sleep(d)` */
    method Sleep(d: real)
      requires d >= 0.0
      modifies this
      ensures now == old(now) + d
      ensures rateLimit == old(rateLimit) && sent == old(sent) && drawn == old(drawn)
    {
      now := now + d;
    }

    /** `_calculate_delay`, drawing a jitter value only when it backs off. */
    method Delay(attempt: nat, rl: Option<RateLimitInfo>, rand: Draws) returns (d: real)
      modifies this
      ensures d == CalculateDelay(attempt, rl, now, rand(old(drawn)))
      ensures drawn == old(drawn) + (if Exhausted(rl) then 0 else 1)
      ensures rateLimit == old(rateLimit) && now == old(now) && sent == old(sent)
    {
      d := CalculateDelay(attempt, rl, now, rand(drawn));
      if !Exhausted(rl) {
        drawn := drawn + 1;
      }
    }

    /** The answer `x` closes the call: what `get` returns for it. */
    predicate Answered(url: string, net: Network, before: nat, x: Exchange, resp: Response)
      reads this
    {
      && sent == before + 1 && x == net(url, before) && x.Received?
      && rateLimit == FromHeaders(x.headers, now)
      && resp == (if LimitedAnswer(x, rateLimit) then Response(x.status, NoPayload, rateLimit, true)
                  else Response(x.status, x.data, rateLimit, false))
    }

    /**
     * The wait before a request while the cached reading shows a spent quota: refused
     * when the reset is more than 30 s away, otherwise slept out.
     */
    method WaitForQuota() returns (blocked: bool)
      modifies this
      ensures blocked <==> old(Blocked())
      ensures blocked ==> now == old(now)
      ensures old(now) <= now <= old(now) + MaxDelay
      ensures rateLimit == old(rateLimit) && sent == old(sent) && drawn == old(drawn)
    {
      blocked := false;
      if Exhausted(rateLimit) {
        var wait := WaitSeconds(rateLimit.value, now);
        if wait > MaxDelay {
          return true;
        }
        if wait > 0.0 {
          Sleep(wait);
        }
      }
    }

    /**
     * Handling an answer: its reading replaces the cache; a rate-limited or 5xx answer is
     * followed by the delay and another pass (`None`) unless this was the last attempt.
     */
    method Answer(x: Exchange, attempt: nat, maxRetries: nat, rand: Draws) returns (resp: Option<Response>)
      requires x.Received? && attempt <= maxRetries
      modifies this
      ensures rateLimit == FromHeaders(x.headers, old(now))
      ensures old(now) <= now <= old(now) + MaxDelay * (1.0 + JitterFactor)
      ensures sent == old(sent)
      ensures resp.None? ==> Retryable(x) && attempt < maxRetries
      ensures resp.Some? ==> now == old(now) && (Retryable(x) ==> attempt == maxRetries)
      ensures resp.Some? ==> resp.value == (if LimitedAnswer(x, rateLimit) then Response(x.status, NoPayload, rateLimit, true)
                                            else Response(x.status, x.data, rateLimit, false))
    {
      var rl := FromHeaders(x.headers, now);
      rateLimit := rl;
      ExhaustedAnyTime(x.headers, now, 0.0);
      if x.status == 429 || (x.status == 403 && Exhausted(rl)) {
        var d := Delay(attempt, rl, rand);
        if attempt < maxRetries {
          Sleep(d);
          return None;
        }
        return Some(Response(x.status, NoPayload, rl, true));
      }
      if x.status >= 500 {
        var d := Delay(attempt, None, rand);
        if attempt < maxRetries {
          Sleep(d);
          return None;
        }
      }
      return Some(Response(x.status, x.data, rl, false));
    }

    /**
     * How a call of `get` that started with `s0` requests sent ended, by `how`:
     * - `Refused`: 403 with `is_rate_limited`, because the cached reading shows a spent
     *   quota whose reset is over 30 s away;
     * - `Replied`: the last answer received, marked as rate limited for 429 and for 403
     *   with no quota left; such an answer, like a 5xx, is returned only on the last
     *   attempt;
     * - `GaveUp`: status 0 after every attempt failed in transport.
     */
    predicate Ended(url: string, net: Network, maxRetries: nat, s0: nat, resp: Response, how: Ending)
      reads this
    {
      match how
      case Refused => resp == Response(403, NoPayload, rateLimit, true) && Blocked()
      case Replied =>
        && sent > s0
        && Answered(url, net, sent - 1, net(url, sent - 1), resp)
        && (Retryable(net(url, sent - 1)) ==> sent == s0 + maxRetries + 1)
      case GaveUp =>
        && resp == Response(0, NoPayload, rateLimit, false)
        && sent == s0 + maxRetries + 1 && !net(url, sent - 1).Received?
    }

    /**
     * One pass of the retry loop of `get` (the `attempt`-th, with `s0` requests sent
     * before the first): the wait while the quota is spent, one request, and either the
     * response to return or (`None`) the delay slept before the next pass.
     */
    method Attempt(url: string, attempt: nat, maxRetries: nat, net: Network, rand: Draws, ghost s0: nat)
      returns (resp: Option<Response>, ghost how: Ending)
      requires attempt <= maxRetries && sent == s0 + attempt
      modifies this
      ensures old(now) <= now <= old(now) + MaxWaitPerAttempt
      ensures sent == old(sent) + (if resp.Some? && how == Refused then 0 else 1)
      ensures old(Blocked()) ==> resp.Some? && how == Refused && now == old(now) && sent == old(sent)
      ensures resp.None? ==> sent == old(sent) + 1 && Retryable(net(url, old(sent)))
                             && (attempt == maxRetries ==> !net(url, old(sent)).Received?)
      ensures resp.Some? ==> how != GaveUp && Ended(url, net, maxRetries, s0, resp.value, how)
    {
      var blocked := WaitForQuota();
      if blocked {
        return Some(Response(403, NoPayload, rateLimit, true)), Refused;
      }
      var x := net(url, sent);
      sent := sent + 1;
      how := Replied;
      if x.Received? {
        resp := Answer(x, attempt, maxRetries, rand);
      } else {
        var d := Delay(attempt, None, rand);
        if attempt < maxRetries {
          Sleep(d);
        }
        resp := None;
      }
    }

    /**
     * `get(url, max_retries)`: it sends at most `maxRetries + 1` requests, retries only
     * after a retryable exchange, and ends as `Ended` says. The cache holds the reading
     * of the last answer received.
     */
    method Get(url: string, maxRetries: nat, net: Network, rand: Draws) returns (resp: Response, ghost how: Ending)
      modifies this
      ensures old(sent) <= sent <= old(sent) + maxRetries + 1
      ensures old(now) <= now <= old(now) + WaitBudget(maxRetries + 1)
      ensures forall k :: old(sent) <= k < sent - 1 ==> Retryable(net(url, k))
      ensures old(Blocked()) ==> how == Refused && sent == old(sent) && now == old(now)
      ensures Ended(url, net, maxRetries, old(sent), resp, how)
    {
      var attempt: nat := 0;
      while attempt <= maxRetries
        invariant attempt <= maxRetries + 1
        invariant sent == old(sent) + attempt
        invariant old(now) <= now <= old(now) + WaitBudget(attempt)
        invariant forall k :: old(sent) <= k < sent ==> Retryable(net(url, k))
        invariant attempt == maxRetries + 1 ==> !net(url, sent - 1).Received?
        invariant attempt == 0 ==> now == old(now) && rateLimit == old(rateLimit)
        invariant old(Blocked()) ==> attempt == 0
      {
        var r, h := Attempt(url, attempt, maxRetries, net, rand, old(sent));
        if r.Some? {
          WaitBudgetGrows(attempt + 1, maxRetries + 1);
          return r.value, h;
        }
        attempt := attempt + 1;
      }
      return Response(0, NoPayload, rateLimit, false), GaveUp;
    }
  }
}
