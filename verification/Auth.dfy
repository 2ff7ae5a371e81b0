/** Excluded paths, token extraction and the authentication middleware (src/middleware/auth.rs). */
module Auth {
  import opened Http
  import opened RateLimit
  import opened Text
  import opened Utf8
  import opened Wrappers
  import Router

  datatype AuthConfig = AuthConfig(enabled: bool, excludedPaths: seq<string>)

  /** The JWT check of the library: the subject of the claims in its bytes, or why the token is refused. */
  type Validator = (string, nat) -> Result<seq<Byte>, string>

  /// Excluded paths

  predicate ExcludedBy(pattern: string, path: string) {
    if EndsWith(pattern, "/**") then pattern[..|pattern| - 3] <= path
    else if EndsWith(pattern, "/*") then pattern[..|pattern| - 2] <= path
    else path == pattern
  }

  predicate IsExcludedPath(config: AuthConfig, path: string) {
    exists i | 0 <= i < |config.excludedPaths| :: ExcludedBy(config.excludedPaths[i], path)
  }

  /**
   Two readings of one glob: what the router's reading covers is excluded as well, and the two
   differ exactly on paths that go on after a wildcard's base with something other than a slash.
   */
  lemma ExclusionIsWider(pattern: string, path: string)
    requires IsPath(path)
    ensures Router.Covers(pattern, path) ==> ExcludedBy(pattern, path)
    ensures ExcludedBy(pattern, path) && !Router.Covers(pattern, path)
       <==> var base := Router.Base(pattern); Router.IsWildcard(pattern) && base < path && path[|base|] != '/'
  {
  }

  /// Tokens

  /** What follows the prefix in the first piece that has it. */
  function FindPrefixed(pieces: seq<string>, prefix: string): (r: Option<string>)
    ensures r == None ==> forall i | 0 <= i < |pieces| :: !(prefix <= pieces[i])
    ensures r.Some? ==> exists i | 0 <= i < |pieces| ::
              pieces[i] == prefix + r.value && forall j | 0 <= j < i :: !(prefix <= pieces[j])
  {
    if pieces == [] then None
    else if prefix <= pieces[0] then
      assert pieces[0] == prefix + pieces[0][|prefix|..];
      Some(pieces[0][|prefix|..])
    else FindPrefixed(pieces[1..], prefix)
  }

  /** A bearer token of the first `Authorization` header, or else the query's first `token`. */
  function ExtractToken(req: Request): Option<string> {
    var header := GetStr(req.headers, "authorization");
    if header.Some? && "Bearer " <= header.value then Some(header.value[7..])
    else
      match req.query
      case Some(q) => FindPrefixed(Split(q, '&'), "token=")
      case None => None
  }

  /** `t` follows `prefix` in the first piece between ampersands that starts with it. */
  ghost predicate IsFirstParameter(query: string, prefix: string, t: string) {
    var pieces := Split(query, '&');
    exists i | 0 <= i < |pieces| :: pieces[i] == prefix + t && forall j | 0 <= j < i :: !(prefix <= pieces[j])
  }

  /** The request carries this token: in the first `Authorization` header, or failing that in the query. */
  ghost predicate Carries(req: Request, t: string) {
    || IsFirstText(req.headers, "authorization", "Bearer " + t)
    || (&& (forall u: string :: !IsFirstText(req.headers, "authorization", "Bearer " + u))
        && req.query.Some? && IsFirstParameter(req.query.value, "token=", t))
  }

  lemma BearerToken(req: Request, t: string)
    requires IsFirstText(req.headers, "authorization", "Bearer " + t)
    ensures ExtractToken(req) == Some(t)
  {
    GetStrIsFirstText(req.headers, "authorization", "Bearer " + t);
    assert ("Bearer " + t)[7..] == t;
  }

  lemma AfterBearer(s: string)
    requires "Bearer " <= s
    ensures s == "Bearer " + s[7..]
  {
  }

  lemma NoBearerToken(req: Request)
    requires forall u: string :: !IsFirstText(req.headers, "authorization", "Bearer " + u)
    ensures ExtractToken(req) == if req.query == None then None else FindPrefixed(Split(req.query.value, '&'), "token=")
  {
    var header := GetStr(req.headers, "authorization");
    if header.Some? && "Bearer " <= header.value {
      GetStrIsFirstText(req.headers, "authorization", header.value);
      AfterBearer(header.value);
      assert false;
    }
  }

  lemma FirstParameter(query: string, prefix: string, t: string)
    ensures FindPrefixed(Split(query, '&'), prefix) == Some(t) <==> IsFirstParameter(query, prefix, t)
  {
    FindsFirst(Split(query, '&'), prefix, t);
  }

  lemma {:induction false} FindsFirst(pieces: seq<string>, prefix: string, t: string)
    ensures FindPrefixed(pieces, prefix) == Some(t)
       <==> exists i | 0 <= i < |pieces| :: pieces[i] == prefix + t && forall j | 0 <= j < i :: !(prefix <= pieces[j])
  {
    var found := FindPrefixed(pieces, prefix);
    if i :| 0 <= i < |pieces| && pieces[i] == prefix + t && forall j | 0 <= j < i :: !(prefix <= pieces[j]) {
      var k :| 0 <= k < |pieces| && pieces[k] == prefix + found.value
               && forall j | 0 <= j < k :: !(prefix <= pieces[j]);
      assert i == k;
      assert t == (prefix + t)[|prefix|..] == (prefix + found.value)[|prefix|..] == found.value;
    }
  }

  /** The token that is looked at is the one the request carries. */
  lemma TokenMeaning(req: Request, t: string)
    ensures ExtractToken(req) == Some(t) <==> Carries(req, t)
  {
    if u: string :| IsFirstText(req.headers, "authorization", "Bearer " + u) {
      BearerToken(req, u);
      if IsFirstText(req.headers, "authorization", "Bearer " + t) { BearerToken(req, t); }
    } else {
      NoBearerToken(req);
      if req.query.Some? { FirstParameter(req.query.value, "token=", t); }
    }
  }

  /// The middleware

  const MISSING_TOKEN := "{\"error\":\"Unauthorized\",\"message\":\"Missing or invalid token\"}"

  function InvalidToken(reason: string): string {
    "{\"error\":\"Unauthorized\",\"message\":\"" + reason + "\"}"
  }

  /** The request as it goes on with the user's name in it. */
  function WithUser(req: Request, subject: seq<Byte>): Request {
    req.(headers := Insert(req.headers, "x-user-id", Chars(subject)))
  }

  /** `AuthService` around `RateLimitService`: what the limiter is left as and what comes out. */
  function AuthCall<L>(config: AuthConfig, jwt: Validator, strategy: KeyStrategy, check: Check<L>,
                       limiter: L, req: Request)
    : (L, Staged)
  {
    if !config.enabled || IsExcludedPath(config, req.path) then RateLimitCall(strategy, check, limiter, req)
    else
      match ExtractToken(req)
      case None => (limiter, Unauthorized(MISSING_TOKEN))
      case Some(token) =>
        match jwt(token, req.at)
        case Failure(reason) => (limiter, Unauthorized(InvalidToken(reason)))
        case Success(subject) =>
          if !IsHeaderValue(subject) then (limiter, Panicked)
          else
            RateLimitCall(strategy, check, limiter, WithUser(req, subject))
  }

  /** The check applies to a path: it is on, and no excluded path takes it. */
  predicate Guards(config: AuthConfig, path: string) {
    config.enabled && forall i | 0 <= i < |config.excludedPaths| :: !ExcludedBy(config.excludedPaths[i], path)
  }

  /** What the middleware does with a request that carries no token, or this one. */
  lemma AuthCallMeaning<L>(config: AuthConfig, jwt: Validator, strategy: KeyStrategy, check: Check<L>, limiter: L,
                           req: Request, t: string)
    ensures !Guards(config, req.path) ==>
              AuthCall(config, jwt, strategy, check, limiter, req) == RateLimitCall(strategy, check, limiter, req)
    ensures Guards(config, req.path) && (forall u :: !Carries(req, u)) ==>
              AuthCall(config, jwt, strategy, check, limiter, req)
              == (limiter, Unauthorized("{\"error\":\"Unauthorized\",\"message\":\"Missing or invalid token\"}"))
    ensures Guards(config, req.path) && Carries(req, t) ==>
              AuthCall(config, jwt, strategy, check, limiter, req)
              == match jwt(t, req.at)
                 case Failure(reason) =>
                   (limiter, Unauthorized("{\"error\":\"Unauthorized\",\"message\":\"" + reason + "\"}"))
                 case Success(subject) =>
                   if IsHeaderValue(subject) then
                     RateLimitCall(strategy, check, limiter,
                                   req.(headers := Insert(req.headers, "x-user-id", Chars(subject))))
                   else (limiter, Panicked)
  {
    TokenMeaning(req, t);
    var token := ExtractToken(req);
    if token.Some? { TokenMeaning(req, token.value); }
  }

  /** So it refuses exactly the guarded requests whose token is absent or not accepted. */
  lemma RefusedExactlyWithoutToken<L>(config: AuthConfig, jwt: Validator, strategy: KeyStrategy, check: Check<L>,
                                      limiter: L, req: Request)
    ensures AuthCall(config, jwt, strategy, check, limiter, req).1.Unauthorized?
       <==> Guards(config, req.path) && forall t | Carries(req, t) :: jwt(t, req.at).Failure?
  {
    var token := ExtractToken(req);
    if token.Some? { TokenMeaning(req, token.value); }
    forall t | Carries(req, t) ensures token == Some(t) { TokenMeaning(req, t); }
  }

  class AuthService<L> {
    const inner: RateLimitService<L>
    const config: AuthConfig
    const jwt: Validator

    constructor (inner: RateLimitService<L>, config: AuthConfig, jwt: Validator)
      ensures this.inner == inner && this.config == config && this.jwt == jwt
    {
      this.inner, this.config, this.jwt := inner, config, jwt;
    }

    method Call(req: Request) returns (out: Staged)
      modifies inner.limiter
      ensures (inner.limiter.state, out)
           == AuthCall(config, jwt, inner.strategy, inner.limiter.check, old(inner.limiter.state), req)
    {
      if !config.enabled || IsExcludedPath(config, req.path) {
        out := inner.Call(req);
        return;
      }
      var token := ExtractToken(req);
      if token == None {
        return Unauthorized(MISSING_TOKEN);
      }
      match jwt(token.value, req.at)
      case Success(subject) =>
        if !IsHeaderValue(subject) {
          return Panicked; // the unwrap of `HeaderValue::from_str`
        }
        var headers := Insert(req.headers, "x-user-id", Chars(subject));
        out := inner.Call(req.(headers := headers));
      case Failure(reason) =>
        return Unauthorized(InvalidToken(reason));
    }
  }
}
