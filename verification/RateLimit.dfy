/** The rate-limiting middleware over an arbitrary stateful limiter (src/middleware/rate_limit.rs). */
module RateLimit {
  import opened Http
  import opened Text

  datatype KeyStrategy = Global | Ip | ByHeader(name: string) | Custom(key: string)

  /** What leaves the stages before the proxy: a refusal, a panic, or the request to go on with. */
  datatype Staged = Unauthorized(body: string) | TooManyRequests | Panicked | Forwarded(req: Request)

  /** `check_key` of the limiter, for any limiter: the state after it, and whether the key may pass. */
  type Check<!L> = (L, string, nat) -> (L, bool)

  class Limiter<L> {
    const check: Check<L>
    var state: L

    constructor (check: Check<L>, state: L)
      ensures this.check == check && this.state == state
    {
      this.check, this.state := check, state;
    }

    method CheckKey(key: string, at: nat) returns (ok: bool)
      modifies this
      ensures (state, ok) == check(old(state), key, at)
    {
      var after := check(state, key, at);
      state, ok := after.0, after.1;
    }
  }

  /** Which key a request is charged to. */
  function LimitKey(strategy: KeyStrategy, headers: seq<Header>): string {
    match strategy
    case Global => "global"
    case Ip =>
      (match GetStr(headers, "x-forwarded-for")
       case Some(value) => Trim(Split(value, ',')[0])
       case None => "unknown")
    case ByHeader(name) =>
      (match GetStr(headers, Lower(name))
       case Some(value) => value
       case None => "unknown")
    case Custom(key) => key
  }

  /** `front` is the text of a list header up to its first comma. */
  predicate IsFrontOf(front: string, text: string) {
    ',' !in front && (text == front || front + "," <= text)
  }

  /** The key, from what the headers hold. */
  lemma LimitKeyMeaning(strategy: KeyStrategy, headers: seq<Header>, text: string, front: string)
    ensures strategy.Global? ==> LimitKey(strategy, headers) == "global"
    ensures strategy.Custom? ==> LimitKey(strategy, headers) == strategy.key
    ensures strategy.Ip? && IsFirstText(headers, "x-forwarded-for", text) && IsFrontOf(front, text) ==>
              LimitKey(strategy, headers) == Trim(front)
    ensures strategy.ByHeader? && IsFirstText(headers, Lower(strategy.name), text) ==>
              LimitKey(strategy, headers) == text
    ensures strategy.Ip? && (forall t :: !IsFirstText(headers, "x-forwarded-for", t)) ==>
              LimitKey(strategy, headers) == "unknown"
    ensures strategy.ByHeader? && (forall t :: !IsFirstText(headers, Lower(strategy.name), t)) ==>
              LimitKey(strategy, headers) == "unknown"
  {
    if strategy.Ip? {
      TextOrNone(headers, "x-forwarded-for", text);
      if IsFrontOf(front, text) {
        FirstPiece(front, text[|front|..], ',');
        assert front + text[|front|..] == text;
      }
    } else if strategy.ByHeader? {
      TextOrNone(headers, Lower(strategy.name), text);
    }
  }

  function RateLimitCall<L>(strategy: KeyStrategy, check: Check<L>, limiter: L, req: Request): (L, Staged) {
    var (after, ok) := check(limiter, LimitKey(strategy, req.headers), req.at);
    (after, if ok then Forwarded(req) else TooManyRequests)
  }

  class RateLimitService<L> {
    const limiter: Limiter<L>
    const strategy: KeyStrategy

    constructor (limiter: Limiter<L>, strategy: KeyStrategy)
      ensures this.limiter == limiter && this.strategy == strategy
    {
      this.limiter, this.strategy := limiter, strategy;
    }

    method Call(req: Request) returns (out: Staged)
      modifies limiter
      ensures (limiter.state, out) == RateLimitCall(strategy, limiter.check, old(limiter.state), req)
      ensures var (state, ok) := limiter.check(old(limiter.state), LimitKey(strategy, req.headers), req.at);
              limiter.state == state && out == if ok then Forwarded(req) else TooManyRequests
    {
      var ok := limiter.CheckKey(LimitKey(strategy, req.headers), req.at);
      if ok {
        return Forwarded(req);
      } else {
        return TooManyRequests;
      }
    }
  }
}
