/** The attempt loop around one upstream request (src/proxy.rs, `execute_with_retry`). */
module Retry {
  import opened Config
  import opened Http
  import opened Text
  import opened Wrappers

  /** What one send gives: a response, or a transport error or timeout. */
  datatype Outcome = Responded(response: Response) | SendFailed(reason: string)

  /** The world: the outcome of each attempt and the time it took, numbered from one. */
  datatype Upstream = Upstream(outcome: nat -> Outcome, took: nat -> nat)

  predicate IsServerError(status: nat) {
    500 <= status <= 599
  }

  predicate Final(o: Outcome) {
    o.Responded? && !IsServerError(o.response.status)
  }

  function MaxAttempts(retry: Option<RetryConfig>): nat {
    match retry
    case Some(r) => r.maxAttempts
    case None => 1
  }

  function BackoffMs(retry: Option<RetryConfig>): nat {
    match retry
    case Some(r) => r.backoffMs
    case None => 0
  }

  function Sum(f: nat -> nat, n: nat): nat {
    if n == 0 then 0 else Sum(f, n - 1) + f(n)
  }

  /**
   Which attempt ends the loop: the first among the first `m` to bring a response whose status is not
   a server error (section 15.6 of RFC 9110), else the last one.
   */
  ghost predicate Ends(up: Upstream, m: nat, k: nat) {
    && 1 <= k <= m
    && (forall a: nat | 1 <= a < k :: up.outcome(a).SendFailed? || 500 <= up.outcome(a).response.status <= 599)
    && (k == m || (up.outcome(k).Responded? && !(500 <= up.outcome(k).response.status <= 599)))
  }

  /** How the call ends after its last send, out of `m` allowed ones. */
  function Report(o: Outcome, m: nat): Result<Response, GatewayError> {
    match o
    case Responded(response) => Success(response)
    case SendFailed(reason) => Failure(ProxyError("Request failed after " + Decimal(m) + " attempts: " + reason))
  }

  /**
   `sent` counts the requests sent, `slept` and `elapsed` are milliseconds. A request whose body
   cannot be cloned fails before the first send.
   */
  method ExecuteWithRetry(retry: Option<RetryConfig>, cloneable: bool, up: Upstream)
    returns (result: Result<Response, GatewayError>, sent: nat, slept: nat, elapsed: nat)
    ensures retry == None && cloneable ==> sent == 1
    ensures retry.Some? && retry.value.maxAttempts > 0 && cloneable ==> Ends(up, retry.value.maxAttempts, sent)
    ensures retry.Some? && retry.value.maxAttempts == 0 ==> sent == 0 && result == Failure(UpstreamUnavailable)
    ensures !cloneable && (retry.Some? ==> retry.value.maxAttempts > 0) ==>
              sent == 0 && result == Failure(ProxyError("Cannot clone request"))
    ensures sent > 0 && up.outcome(sent).Responded? ==> result == Success(up.outcome(sent).response)
    ensures sent > 0 && up.outcome(sent).SendFailed? ==>
              var m := if retry.Some? then retry.value.maxAttempts else 1;
              result == Failure(ProxyError("Request failed after " + Decimal(m) + " attempts: "
                                           + up.outcome(sent).reason))
    ensures retry == None ==> slept == 0
    ensures retry.Some? ==> 2 * slept == retry.value.backoffMs * (sent * (if sent == 0 then 0 else sent - 1))
    ensures elapsed == Sum(up.took, sent) + slept
  {
    var maxAttempts := MaxAttempts(retry);
    sent, slept, elapsed := 0, 0, 0;
    for attempt := 1 to maxAttempts + 1
      invariant sent == attempt - 1
      invariant forall a: nat | 1 <= a < attempt :: !Final(up.outcome(a))
      invariant attempt <= maxAttempts || attempt == 1
      invariant attempt == 1 || cloneable
      invariant 2 * slept == BackoffMs(retry) * (attempt * (attempt - 1))
      invariant elapsed == Sum(up.took, sent) + slept
    {
      if !cloneable {
        return Failure(ProxyError("Cannot clone request")), sent, slept, elapsed;
      }
      sent := sent + 1;
      elapsed := elapsed + up.took(attempt);
      match up.outcome(attempt) {
        case Responded(response) =>
          if IsServerError(response.status) && attempt < maxAttempts {
            BackoffStep(BackoffMs(retry), attempt);
            slept, elapsed := slept + BackoffMs(retry) * attempt, elapsed + BackoffMs(retry) * attempt;
            continue;
          }
          return Success(response), sent, slept, elapsed;
        case SendFailed(reason) =>
          if attempt < maxAttempts {
            BackoffStep(BackoffMs(retry), attempt);
            slept, elapsed := slept + BackoffMs(retry) * attempt, elapsed + BackoffMs(retry) * attempt;
            continue;
          }
          var message := "Request failed after " + Decimal(maxAttempts) + " attempts: " + reason;
          return Failure(ProxyError(message)), sent, slept, elapsed;
      }
    }
    return Failure(UpstreamUnavailable), sent, slept, elapsed;
  }

  lemma BackoffStep(b: nat, attempt: nat)
    requires attempt >= 1
    ensures b * (attempt * (attempt - 1)) + 2 * (b * attempt) == b * ((attempt + 1) * attempt)
  {
  }

  /// The loop as a function, for counting sends over many requests

  /** The attempt that ends the loop when the attempts before `from` were not final. */
  function LastAttempt(up: Upstream, m: nat, from: nat): (k: nat)
    requires 1 <= from <= m
    ensures from <= k <= m
    decreases m - from
  {
    if from == m || Final(up.outcome(from)) then from else LastAttempt(up, m, from + 1)
  }

  lemma {:induction false} LastAttemptEnds(up: Upstream, m: nat, from: nat)
    requires 1 <= from <= m
    requires forall a: nat | 1 <= a < from :: !Final(up.outcome(a))
    ensures forall k: nat :: Ends(up, m, k) <==> k == LastAttempt(up, m, from)
    decreases m - from
  {
    if from < m && !Final(up.outcome(from)) {
      LastAttemptEnds(up, m, from + 1);
    }
  }

  /// Time

  lemma {:induction false} SumBound(f: nat -> nat, n: nat, t: nat)
    requires forall a: nat | 1 <= a <= n :: f(a) <= t
    ensures Sum(f, n) <= n * t
  {
    if n > 0 {
      SumBound(f, n - 1, t);
      assert n * t == (n - 1) * t + t;
    }
  }

  /**
   With a per-send timeout the whole call ends within `m` timeouts plus the backoffs of `m`
   attempts. The two equations are what `ExecuteWithRetry` ensures of its results.
   */
  lemma ElapsedBound(up: Upstream, m: nat, b: nat, timeout: nat, sent: nat, slept: nat, elapsed: nat)
    requires sent <= m
    requires forall a: nat | 1 <= a <= sent :: up.took(a) <= timeout
    requires 2 * slept == b * (sent * (if sent == 0 then 0 else sent - 1))
    requires elapsed == Sum(up.took, sent) + slept
    ensures 2 * elapsed <= 2 * (m * timeout) + b * (m * (if m == 0 then 0 else m - 1))
  {
    SumBound(up.took, sent, timeout);
    Monotone(sent, m, timeout);
    if sent > 0 {
      Monotone(sent, m, sent - 1);
      Monotone(sent - 1, m - 1, m);
      Monotone(sent * (sent - 1), m * (m - 1), b);
    }
  }

  /**
   The delay is a 64-bit number of milliseconds and a `Duration` holds 2^64 seconds: the product
   the model leaves unbounded overflows only after sleeps of more than 2^64 seconds.
   */
  lemma BackoffOverflowsOnlyAfterAges(b: nat, attempt: nat, slept: nat)
    requires b < 0x1_0000_0000_0000_0000 && attempt >= 1
    requires 2 * slept == b * (attempt * (attempt - 1))
    requires b * attempt >= 1000 * 0x1_0000_0000_0000_0000
    ensures slept >= 1000 * 0x1_0000_0000_0000_0000
  {
    if attempt <= 1000 { Monotone(attempt, 1000, b); }
    assert attempt > 1000;
    Monotone(1000, attempt - 1, b * attempt);
    assert b * (attempt * (attempt - 1)) == (b * attempt) * (attempt - 1);
  }

  lemma Monotone(x: nat, y: nat, f: nat)
    requires x <= y
    ensures x * f <= y * f && f * x <= f * y
  {
    assert y * f == x * f + (y - x) * f;
  }
}
