/**
 The request pipeline (src/gateway.rs, `handle_request`): routing, preflight, authentication, rate
 limit, cache and proxy, one after the other, with the counters they move (src/metrics.rs).
 */
module Gateway {
  import opened Auth
  import opened Config
  import opened Cors
  import opened Http
  import opened RateLimit
  import opened Text
  import opened Utf8
  import opened Wrappers
  import CacheKey
  import CacheMiddleware
  import Forwarding
  import Retry
  import Router

  datatype GatewayConfig = GatewayConfig(
    routes: seq<RouteConfig>,
    auth: Option<AuthConfig>,
    limit: Option<KeyStrategy>,
    cors: Option<CorsConfig>,
    cache: Option<CacheKey.CacheConfig>,
    requestIdHeader: Option<string>)

  /**
   Everything around one request: its generated id, what discovery, the JWT check and the cache
   backend answer, what the upstream does with a request, and why the request cannot be sent or the
   response body not be read.
   */
  datatype World = World(
    requestId: seq<Byte>,
    discovery: Option<Router.Discovery>,
    jwt: Validator,
    cached: string -> Option<Response>,
    upstream: Forwarding.Outgoing -> Retry.Upstream,
    sendError: Option<string>,
    readError: Option<string>)

  datatype Outcome = NotFound | Preflight | AuthFailed | RateLimited | CacheHit | ProxiedOk | ProxiedError

  /** How a request ended; `staged` is what left the authentication and limit stages, if it got there. */
  datatype Handled = Handled(outcome: Outcome, staged: Option<Staged>, sends: nat, response: Response)

  /** Prometheus counters, and two the source does not keep: limiter charges and upstream sends. */
  datatype Counters = Counters(requests: nat, cacheHits: nat, rateLimited: nat, authFailures: nat,
                               charges: nat, sends: nat)

  const ZERO := Counters(0, 0, 0, 0, 0, 0)

  /// Responses the gateway makes itself

  const JSON: seq<Header> := [Header("content-type", "application/json")]

  const NO_ROUTE := Response(404, JSON, "{\"error\":\"Not Found\",\"message\":\"No route matches the request\"}")

  const LIMITED := Response(429, JSON, "{\"error\":\"Rate limit exceeded\",\"retry_after\":1}")

  function Refusal(body: string): Response {
    Response(401, [Header("www-authenticate", "Bearer")], body)
  }

  function Display(e: GatewayError): string {
    match e
    case ConfigError(m) => "Configuration error: " + m
    case DiscoveryError(m) => "Service discovery error: " + m
    case ProxyError(m) => "Proxy error: " + m
    case UpstreamUnavailable => "Upstream unavailable"
  }

  function StatusCode(e: GatewayError): nat {
    if e.UpstreamUnavailable? then 502 else 500
  }

  function ErrorResponse(e: GatewayError): Response {
    Response(StatusCode(e), JSON,
             "{\"error\":\"" + Decimal(StatusCode(e)) + "\",\"message\":\"" + Display(e) + "\"}")
  }

  /// The stages

  function WithRequestId(config: GatewayConfig, req: Request, id: seq<Byte>): Request {
    match config.requestIdHeader
    case Some(name) =>
      if IsHeaderName(name) && IsHeaderValue(id) then req.(headers := Insert(req.headers, Lower(name), Chars(id)))
      else req
    case None => req
  }

  predicate IsPreflight(config: GatewayConfig, req: Request) {
    config.cors.Some? && req.verb == "OPTIONS" && IsOriginAllowed(config.cors.value, OriginOf(req.headers))
  }

  /** The authentication stage: a refusal, or the request with the user's name in it. */
  function AuthStage(config: GatewayConfig, jwt: Validator, req: Request): Result<Request, string> {
    if config.auth == None || !config.auth.value.enabled || IsExcludedPath(config.auth.value, req.path) then
      Success(req)
    else
      match ExtractToken(req)
      case None => Failure(MISSING_TOKEN)
      case Some(token) =>
        match jwt(token, req.at)
        case Failure(reason) => Failure(InvalidToken(reason))
        case Success(subject) => Success(if IsHeaderValue(subject) then WithUser(req, subject) else req)
  }

  /** The pipeline's own choice of the key a request is charged to. */
  function ChargedKey(strategy: KeyStrategy, headers: seq<Header>): string {
    if strategy.Global? then "global"
    else if strategy.Custom? then strategy.key
    else
      match Get(headers, if strategy.Ip? then "x-forwarded-for" else Lower(strategy.name))
      case None => "unknown"
      case Some(value) =>
        match ToStr(value)
        case None => "unknown"
        case Some(text) => if strategy.Ip? then Trim(Split(text, ',')[0]) else text
  }

  function LimitStage<L>(config: GatewayConfig, check: Check<L>, limiter: L, req: Request): (L, bool) {
    match config.limit
    case Some(strategy) => check(limiter, ChargedKey(strategy, req.headers), req.at)
    case None => (limiter, true)
  }

  /** The cached response of a request that may be answered from the cache. */
  function Hit(config: GatewayConfig, route: Router.RouteMatch, world: World, req: Request): Option<Response> {
    if config.cache.Some? && route.cacheEnabled && req.verb == "GET" then
      world.cached(CacheKey.Key(config.cache.value.keyStrategy, req))
    else None
  }

  function HitResult(req: Request, cached: Response): Handled {
    Handled(CacheHit, Some(Forwarded(req)), 0, CacheMiddleware.Tagged(cached, "HIT"))
  }

  /** The attempts at this request, as sent through this route. */
  function UpstreamOf(route: Router.RouteMatch, world: World, req: Request): Retry.Upstream {
    world.upstream(Forwarding.OutgoingOf(route, req))
  }

  /** The attempts the loop makes: none for a request that cannot be sent. */
  function Sends(route: Router.RouteMatch, world: World, req: Request): (k: nat)
    ensures k <= Retry.MaxAttempts(route.retry)
  {
    var m := Retry.MaxAttempts(route.retry);
    if world.sendError == None && m > 0 then Retry.LastAttempt(UpstreamOf(route, world, req), m, 1) else 0
  }

  /** The upstream's response as it is returned. */
  function Returned(config: GatewayConfig, r: Response): Response {
    WithCors(config.cors, r.(headers := Forwarding.Kept(r.headers)))
  }

  function ProxyFailed(req: Request, sent: nat, e: GatewayError): Handled {
    Handled(ProxiedError, Some(Forwarded(req)), sent, ErrorResponse(e))
  }

  /** How the proxy stage ends after this many sends. */
  function ProxyResult(config: GatewayConfig, route: Router.RouteMatch, world: World, req: Request, sent: nat)
    : Handled
  {
    if world.sendError.Some? then ProxyFailed(req, sent, ProxyError(world.sendError.value))
    else if sent == 0 then ProxyFailed(req, sent, UpstreamUnavailable)
    else
      match Retry.Report(UpstreamOf(route, world, req).outcome(sent), Retry.MaxAttempts(route.retry))
      case Failure(e) => ProxyFailed(req, sent, e)
      case Success(r) =>
        if world.readError.Some? then ProxyFailed(req, sent, ProxyError(world.readError.value))
        else Handled(ProxiedOk, Some(Forwarded(req)), sent, Returned(config, r))
  }

  /** The stages behind the limiter: cache and proxy. */
  function Finish(config: GatewayConfig, route: Router.RouteMatch, req: Request, world: World): Handled {
    match Hit(config, route, world, req)
    case Some(cached) => HitResult(req, cached)
    case None => ProxyResult(config, route, world, req, Sends(route, world, req))
  }

  /** The same as a function of the request that is handed on. */
  function FinisherOf(config: GatewayConfig, route: Router.RouteMatch, world: World): Request -> Handled {
    (req: Request) => Finish(config, route, req, world)
  }

  /** Authentication and limit: the request to go on with, or how it ended. */
  function Screening<L>(config: GatewayConfig, check: Check<L>, limiter: L, jwt: Validator, req: Request)
    : (L, Result<Request, Handled>)
  {
    match AuthStage(config, jwt, req)
    case Failure(body) => (limiter, Failure(Handled(AuthFailed, Some(Unauthorized(body)), 0, Refusal(body))))
    case Success(authed) =>
      var (after, ok) := LimitStage(config, check, limiter, authed);
      (after, if ok then Success(authed) else Failure(Handled(RateLimited, Some(TooManyRequests), 0, LIMITED)))
  }

  /** A routed request from authentication on; `finish` is what happens behind the limiter. */
  function Serve<L>(config: GatewayConfig, check: Check<L>, limiter: L, jwt: Validator, req: Request,
                    finish: Request -> Handled)
    : (L, Handled)
  {
    var (after, screened) := Screening(config, check, limiter, jwt, req);
    (after, match screened
            case Failure(handled) => handled
            case Success(authed) => finish(authed))
  }

  /** One request through the whole pipeline. */
  function Handle<L>(config: GatewayConfig, check: Check<L>, limiter: L, incoming: Request, world: World)
    : (L, Handled)
  {
    var req := WithRequestId(config, incoming, world.requestId);
    match Router.Route(config.routes, req, world.discovery)
    case None => (limiter, Handled(NotFound, None, 0, NO_ROUTE))
    case Some(route) =>
      if IsPreflight(config, req) then
        (limiter, Handled(Preflight, None, 0, PreflightResponse(config.cors.value, OriginOf(req.headers))))
      else Serve(config, check, limiter, world.jwt, req, FinisherOf(config, route, world))
  }

  /** The limiter is consulted for a request past routing, preflight and authentication, when there is one. */
  predicate Charged(config: GatewayConfig, o: Outcome) {
    config.limit.Some? && o in {RateLimited, CacheHit, ProxiedOk, ProxiedError}
  }

  /** The counters after a request that ended so. */
  function Counted(config: GatewayConfig, c: Counters, h: Handled): Counters {
    Counters(
      c.requests + (if h.outcome == ProxiedOk then 1 else 0),
      c.cacheHits + (if h.outcome == CacheHit then 1 else 0),
      c.rateLimited + (if h.outcome == RateLimited then 1 else 0),
      c.authFailures + (if h.outcome == AuthFailed then 1 else 0),
      c.charges + (if Charged(config, h.outcome) then 1 else 0),
      c.sends + h.sends)
  }

  /** The counters a request moves behind the limiter. */
  function CountedBehind(c: Counters, h: Handled): Counters {
    c.(requests := c.requests + (if h.outcome == ProxiedOk then 1 else 0),
       cacheHits := c.cacheHits + (if h.outcome == CacheHit then 1 else 0),
       sends := c.sends + h.sends)
  }

  /** The counters the limiter stage moves by itself. */
  function Charge(config: GatewayConfig, c: Counters): Counters {
    c.(charges := c.charges + if config.limit.Some? then 1 else 0)
  }

  lemma ChargedThenCounted(config: GatewayConfig, c: Counters, h: Handled)
    requires h.outcome in {CacheHit, ProxiedOk, ProxiedError}
    ensures CountedBehind(Charge(config, c), h) == Counted(config, c, h)
  {
  }

  lemma ServeScreened<L>(config: GatewayConfig, check: Check<L>, limiter: L, jwt: Validator, req: Request,
                         finish: Request -> Handled, after: L, screened: Result<Request, Handled>)
    requires (after, screened) == Screening(config, check, limiter, jwt, req)
    ensures Serve(config, check, limiter, jwt, req, finish)
         == (after, if screened.Success? then finish(screened.value) else screened.error)
  {
  }

  class Gateway<L> {
    const config: GatewayConfig
    const router: Router.Router
    const limiter: Limiter<L>
    var counters: Counters

    ghost predicate Valid() {
      router.Valid() && router.Configs() == config.routes
    }

    constructor (config: GatewayConfig, router: Router.Router, limiter: Limiter<L>)
      requires router.Valid() && router.Configs() == config.routes
      ensures Valid() && this.config == config && this.limiter == limiter && counters == ZERO
    {
      this.config, this.router, this.limiter := config, router, limiter;
      counters := ZERO;
    }

    method Authenticate(req: Request, jwt: Validator) returns (staged: Result<Request, string>)
      ensures staged == AuthStage(config, jwt, req)
    {
      if config.auth.Some? {
        var auth := config.auth.value;
        if auth.enabled && !IsExcludedPath(auth, req.path) {
          var token := ExtractToken(req);
          if token == None {
            return Failure(MISSING_TOKEN);
          }
          match jwt(token.value, req.at)
          case Success(subject) =>
            if IsHeaderValue(subject) {
              return Success(req.(headers := Insert(req.headers, "x-user-id", Chars(subject))));
            }
          case Failure(reason) =>
            return Failure(InvalidToken(reason));
        }
      }
      return Success(req);
    }

    method Admit(req: Request) returns (ok: bool)
      modifies this, limiter
      ensures (limiter.state, ok) == LimitStage(config, limiter.check, old(limiter.state), req)
      ensures counters == Charge(config, old(counters))
    {
      ok := true;
      if config.limit.Some? {
        ok := limiter.CheckKey(ChargedKey(config.limit.value, req.headers), req.at);
        counters := counters.(charges := counters.charges + 1);
      }
    }

    method LookUp(route: Router.RouteMatch, world: World, req: Request) returns (cached: Option<Response>)
      ensures cached == Hit(config, route, world, req)
    {
      cached := None;
      if config.cache.Some? && route.cacheEnabled && req.verb == "GET" {
        var cacheKey := CacheKey.BuildKey(config.cache.value.keyStrategy, req);
        cached := world.cached(cacheKey);
      }
    }

    method Proxy(route: Router.RouteMatch, world: World, req: Request) returns (handled: Handled)
      ensures handled == ProxyResult(config, route, world, req, Sends(route, world, req))
    {
      if world.sendError.Some? {
        return ProxyFailed(req, 0, ProxyError(world.sendError.value));
      }
      var copied := Forwarding.CopyRequestHeaders(req.headers);
      var outgoing := Forwarding.Outgoing(req.verb, Forwarding.TargetUrl(route, req), copied);
      var result, sent, _, _ := Retry.ExecuteWithRetry(route.retry, true, world.upstream(outgoing));
      if Retry.MaxAttempts(route.retry) > 0 {
        Retry.LastAttemptEnds(world.upstream(outgoing), Retry.MaxAttempts(route.retry), 1);
      }
      if result.Failure? {
        return ProxyFailed(req, sent, result.error);
      }
      var headers := Forwarding.CopyResponseHeaders(result.value.headers);
      if world.readError.Some? {
        return ProxyFailed(req, sent, ProxyError(world.readError.value));
      }
      var response := Response(result.value.status, headers, result.value.body);
      return Handled(ProxiedOk, Some(Forwarded(req)), sent, WithCors(config.cors, response));
    }

    method HandleRequest(incoming: Request, world: World) returns (handled: Handled)
      requires Valid()
      modifies this, limiter
      ensures (limiter.state, handled) == Handle(config, limiter.check, old(limiter.state), incoming, world)
      ensures counters == Counted(config, old(counters), handled)
    {
      var req := WithRequestId(config, incoming, world.requestId);
      var serving := router.(discovery := world.discovery);
      assert serving.Configs() == config.routes;
      var found := serving.MatchRoute(req);
      if found == None {
        return Handled(NotFound, None, 0, NO_ROUTE);
      }
      if IsPreflight(config, req) {
        return Handled(Preflight, None, 0, PreflightResponse(config.cors.value, OriginOf(req.headers)));
      }
      handled := ServeRouted(found.value, req, world);
    }

    method ServeRouted(route: Router.RouteMatch, req: Request, world: World) returns (handled: Handled)
      modifies this, limiter
      ensures (limiter.state, handled)
           == Serve(config, limiter.check, old(limiter.state), world.jwt, req, FinisherOf(config, route, world))
      ensures counters == Counted(config, old(counters), handled)
    {
      var screened := Screen(req, world.jwt);
      ghost var finish := FinisherOf(config, route, world);
      ServeScreened(config, limiter.check, old(limiter.state), world.jwt, req, finish, limiter.state, screened);
      if screened.Failure? {
        return screened.error;
      }
      handled := FinishAdmitted(route, screened.value, world);
      ChargedThenCounted(config, old(counters), handled);
    }

    method Screen(req: Request, jwt: Validator) returns (screened: Result<Request, Handled>)
      modifies this, limiter
      ensures (limiter.state, screened) == Screening(config, limiter.check, old(limiter.state), jwt, req)
      ensures screened.Failure? ==> counters == Counted(config, old(counters), screened.error)
      ensures screened.Success? ==> counters == Charge(config, old(counters))
    {
      var authed := Authenticate(req, jwt);
      if authed.Failure? {
        counters := counters.(authFailures := counters.authFailures + 1);
        return Failure(Handled(AuthFailed, Some(Unauthorized(authed.error)), 0, Refusal(authed.error)));
      }
      var ok := Admit(authed.value);
      if !ok {
        counters := counters.(rateLimited := counters.rateLimited + 1);
        return Failure(Handled(RateLimited, Some(TooManyRequests), 0, LIMITED));
      }
      return Success(authed.value);
    }

    method FinishAdmitted(route: Router.RouteMatch, req: Request, world: World) returns (handled: Handled)
      modifies this
      ensures handled == FinisherOf(config, route, world)(req)
      ensures counters == CountedBehind(old(counters), handled)
      ensures handled.outcome in {CacheHit, ProxiedOk, ProxiedError}
    {
      var cached := LookUp(route, world, req);
      if cached.Some? {
        counters := counters.(cacheHits := counters.cacheHits + 1);
        return HitResult(req, cached.value);
      }
      handled := Proxy(route, world, req);
      counters := counters.(sends := counters.sends + handled.sends,
                            requests := counters.requests + if handled.outcome == ProxiedOk then 1 else 0);
    }
  }

  /// The inlined stages refine the composed middleware

  /** Authentication and limit as middleware; a stage that is not configured is not there. */
  function Middleware<L>(config: GatewayConfig, jwt: Validator, check: Check<L>, limiter: L, req: Request): (L,
                         Staged) {
    match (config.auth, config.limit)
    case (Some(auth), Some(strategy)) => AuthCall(auth, jwt, strategy, check, limiter, req)
    case (None, Some(strategy)) => RateLimitCall(strategy, check, limiter, req)
    case (Some(auth), None) => AuthCall(auth, jwt, Global, (l: L, k, t) => (l, true), limiter, req)
    case (None, None) => (limiter, Forwarded(req))
  }

  /** The pipeline reaches the two stages: the request is routed and is no preflight. */
  predicate ReachesStages(config: GatewayConfig, incoming: Request, world: World) {
    var req := WithRequestId(config, incoming, world.requestId);
    Router.Route(config.routes, req, world.discovery).Some? && !IsPreflight(config, req)
  }

  /** The one case the two treat differently: a valid token whose subject is no header value. */
  predicate BadSubject(config: GatewayConfig, jwt: Validator, req: Request) {
    && config.auth.Some? && config.auth.value.enabled && !IsExcludedPath(config.auth.value, req.path)
    && ExtractToken(req).Some?
    && jwt(ExtractToken(req).value, req.at).Success?
    && !IsHeaderValue(jwt(ExtractToken(req).value, req.at).value)
  }

  /** Pipeline and middleware charge a request to the same key. */
  lemma KeysAgree(strategy: KeyStrategy, headers: seq<Header>)
    ensures ChargedKey(strategy, headers) == LimitKey(strategy, headers)
  {
  }

  /** What comes back from behind the limiter names the request that was handed on, and is no refusal. */
  ghost predicate Finishes(finish: Request -> Handled) {
    forall req: Request ::
      finish(req).staged == Some(Forwarded(req)) && finish(req).outcome in {CacheHit, ProxiedOk, ProxiedError}
  }

  lemma FinisherFinishes(config: GatewayConfig, route: Router.RouteMatch, world: World)
    ensures Finishes(FinisherOf(config, route, world))
  {
  }

  lemma ServeMatchesMiddleware<L>(config: GatewayConfig, check: Check<L>, limiter: L, jwt: Validator, req: Request,
                                  finish: Request -> Handled)
    requires Finishes(finish)
    ensures var (after, handled) := Serve(config, check, limiter, jwt, req, finish);
            var (l, staged) := Middleware(config, jwt, check, limiter, req);
            handled.staged == Some(staged) && after == l <==> !BadSubject(config, jwt, req)
  {
    var authed := AuthStage(config, jwt, req);
    if authed.Success? && config.limit.Some? {
      KeysAgree(config.limit.value, authed.value.headers);
    }
  }

  /** Same refusals, same forwarded request and same limiter state, exactly when the subject is a header value. */
  lemma StagesMatchMiddleware<L>(config: GatewayConfig, check: Check<L>, limiter: L, incoming: Request, world: World)
    requires ReachesStages(config, incoming, world)
    ensures var req := WithRequestId(config, incoming, world.requestId);
            var (after, handled) := Handle(config, check, limiter, incoming, world);
            var (l, staged) := Middleware(config, world.jwt, check, limiter, req);
            handled.staged == Some(staged) && after == l <==> !BadSubject(config, world.jwt, req)
  {
    var req := WithRequestId(config, incoming, world.requestId);
    var route := Router.Route(config.routes, req, world.discovery).value;
    FinisherFinishes(config, route, world);
    ServeMatchesMiddleware(config, check, limiter, world.jwt, req, FinisherOf(config, route, world));
  }

  lemma ServedIsFinished<L>(config: GatewayConfig, check: Check<L>, limiter: L, jwt: Validator, req: Request,
                            finish: Request -> Handled)
    requires Finishes(finish)
    ensures var h := Serve(config, check, limiter, jwt, req, finish).1;
            && h.staged.Some?
            && if h.staged.value.Forwarded? then
                 AuthStage(config, jwt, req) == Success(h.staged.value.req) && h == finish(h.staged.value.req)
               else h.outcome in {AuthFailed, RateLimited} && h.sends == 0
  {
  }

  /** The stages behind the limiter run on the request that was handed on, and nothing else gets that far. */
  lemma ForwardedIsFinished<L>(config: GatewayConfig, check: Check<L>, limiter: L, incoming: Request, world: World)
    ensures var req := WithRequestId(config, incoming, world.requestId);
            var route := Router.Route(config.routes, req, world.discovery);
            var h := Handle(config, check, limiter, incoming, world).1;
            if ReachesStages(config, incoming, world) && h.staged.Some? && h.staged.value.Forwarded? then
              && AuthStage(config, world.jwt, req) == Success(h.staged.value.req)
              && h == Finish(config, route.value, h.staged.value.req, world)
            else h.outcome in {NotFound, Preflight, AuthFailed, RateLimited} && h.sends == 0
                 && (h.staged.Some? ==> !h.staged.value.Forwarded?)
  {
    if ReachesStages(config, incoming, world) {
      var req := WithRequestId(config, incoming, world.requestId);
      var route := Router.Route(config.routes, req, world.discovery).value;
      FinisherFinishes(config, route, world);
      ServedIsFinished(config, check, limiter, world.jwt, req, FinisherOf(config, route, world));
    }
  }

  /** One plain route to a fixed upstream, with authentication on and nothing excluded. */
  const GUARDED := GatewayConfig(
    [RouteConfig("id", "/", None, Static("http://u"), None, None, None, None, None)],
    Some(AuthConfig(true, [])), None, None, None, None)

  const BEARER := Request("GET", "", "/", None, [Header("authorization", "Bearer t")], 0)

  /** A world whose JWT check accepts any token for this subject. */
  function Naming(subject: seq<Byte>): World {
    World([], None, (token, at) => Success(subject), key => None,
          out => Retry.Upstream(k => Retry.SendFailed(""), k => 0), None, None)
  }

  lemma GuardedRoutes(world: World)
    requires world.discovery == None
    ensures ReachesStages(GUARDED, BEARER, world) && WithRequestId(GUARDED, BEARER, world.requestId) == BEARER
  {
    assert Router.Covers("/", "/");
    assert Router.Accepts(GUARDED.routes[0], BEARER);
  }

  lemma BearerToken()
    ensures ExtractToken(BEARER).Some?
  {
    assert Get(BEARER.headers, "authorization") == Some("Bearer t");
    assert ToStr("Bearer t").Some? && "Bearer " <= "Bearer t";
  }

  lemma BadSubjectArrives(subject: seq<Byte>)
    requires !IsHeaderValue(subject)
    ensures BadSubject(GUARDED, Naming(subject).jwt, BEARER)
  {
    BearerToken();
  }

  lemma BadSubjectScreened<L>(config: GatewayConfig, check: Check<L>, limiter: L, jwt: Validator, req: Request)
    requires BadSubject(config, jwt, req)
    ensures Middleware(config, jwt, check, limiter, req) == (limiter, Panicked)
    ensures AuthStage(config, jwt, req) == Success(req)
  {
  }

  /** There the middleware panics before its limiter; the pipeline goes on to the limiter with the request as it is. */
  lemma BadSubjectGoesOn<L>(config: GatewayConfig, check: Check<L>, limiter: L, incoming: Request, world: World)
    requires ReachesStages(config, incoming, world)
    requires BadSubject(config, world.jwt, WithRequestId(config, incoming, world.requestId))
    ensures var req := WithRequestId(config, incoming, world.requestId);
            var staged := Handle(config, check, limiter, incoming, world).1.staged;
            && Middleware(config, world.jwt, check, limiter, req) == (limiter, Panicked)
            && staged == Some(if LimitStage(config, check, limiter, req).1 then Forwarded(req) else TooManyRequests)
  {
    var req := WithRequestId(config, incoming, world.requestId);
    var route := Router.Route(config.routes, req, world.discovery).value;
    BadSubjectScreened(config, check, limiter, world.jwt, req);
    FinisherFinishes(config, route, world);
    ServedAfterAuth(config, check, limiter, world.jwt, req, FinisherOf(config, route, world));
  }

  lemma ServedAfterAuth<L>(config: GatewayConfig, check: Check<L>, limiter: L, jwt: Validator, req: Request,
                           finish: Request -> Handled)
    requires Finishes(finish) && AuthStage(config, jwt, req) == Success(req)
    ensures Serve(config, check, limiter, jwt, req, finish).1.staged
         == Some(if LimitStage(config, check, limiter, req).1 then Forwarded(req) else TooManyRequests)
  {
  }

  /** It arrives with every subject that is no header value, such as a line feed. */
  lemma BadSubjectHappens(subject: seq<Byte>)
    requires !IsHeaderValue(subject)
    ensures ReachesStages(GUARDED, BEARER, Naming(subject))
    ensures BadSubject(GUARDED, Naming(subject).jwt, WithRequestId(GUARDED, BEARER, Naming(subject).requestId))
    ensures !IsHeaderValue([0x0A])
  {
    GuardedRoutes(Naming(subject));
    BadSubjectArrives(subject);
    assert [0x0A][0] == 0x0A;
  }

  lemma FinishTable(config: GatewayConfig, route: Router.RouteMatch, req: Request, world: World)
    ensures var h, m := Finish(config, route, req, world), Retry.MaxAttempts(route.retry);
            var up := UpstreamOf(route, world, req);
            && h.outcome in {CacheHit, ProxiedOk, ProxiedError}
            && (h.outcome == CacheHit <==> Hit(config, route, world, req).Some?)
            && (h.outcome == CacheHit ==>
                  h.sends == 0 && h.response == CacheMiddleware.Tagged(Hit(config, route, world, req).value, "HIT"))
            && (h.outcome == ProxiedOk ==>
                  && Retry.Ends(up, m, h.sends) && up.outcome(h.sends).Responded?
                  && h.response == Returned(config, up.outcome(h.sends).response))
            && (h.outcome == ProxiedError ==>
                  h.response.status == if world.sendError == None && m == 0 then 502 else 500)
  {
    if Retry.MaxAttempts(route.retry) > 0 {
      Retry.LastAttemptEnds(UpstreamOf(route, world, req), Retry.MaxAttempts(route.retry), 1);
    }
  }

  /**
   Which requests end how, in terms of the route table and the middleware alone: a request that
   is not routed, a preflight, a refusal of the middleware, a hit, or a proxied request.
   */
  lemma OutcomeTable<L>(config: GatewayConfig, check: Check<L>, limiter: L, incoming: Request, world: World)
    requires !BadSubject(config, world.jwt, WithRequestId(config, incoming, world.requestId))
    ensures var req := WithRequestId(config, incoming, world.requestId);
            var route := Router.Route(config.routes, req, world.discovery);
            var (after, handled) := Handle(config, check, limiter, incoming, world);
            var (l, staged) := Middleware(config, world.jwt, check, limiter, req);
            && (handled.outcome == NotFound <==> route == None)
            && (handled.outcome == Preflight <==> route.Some? && IsPreflight(config, req))
            && (handled.outcome in {NotFound, Preflight} ==> after == limiter && handled.sends == 0)
            && (handled.outcome !in {NotFound, Preflight} ==>
                  && (handled.outcome == AuthFailed <==> staged.Unauthorized?)
                  && (handled.outcome == RateLimited <==> staged.TooManyRequests?)
                  && (handled.outcome == CacheHit <==>
                        staged.Forwarded? && Hit(config, route.value, world, staged.req).Some?)
                  && after == l && (handled.sends > 0 ==> handled.outcome in {ProxiedOk, ProxiedError}))
  {
    if ReachesStages(config, incoming, world) {
      var req := WithRequestId(config, incoming, world.requestId);
      var route := Router.Route(config.routes, req, world.discovery).value;
      FinisherFinishes(config, route, world);
      RoutedOutcome(config, check, limiter, world.jwt, req, FinisherOf(config, route, world));
      var staged := Middleware(config, world.jwt, check, limiter, req).1;
      if staged.Forwarded? { FinishTable(config, route, staged.req, world); }
    }
  }

  lemma RoutedOutcome<L>(config: GatewayConfig, check: Check<L>, limiter: L, jwt: Validator, req: Request,
                         finish: Request -> Handled)
    requires !BadSubject(config, jwt, req) && Finishes(finish)
    ensures var (after, handled) := Serve(config, check, limiter, jwt, req, finish);
            var (l, staged) := Middleware(config, jwt, check, limiter, req);
            && handled.outcome !in {NotFound, Preflight}
            && (handled.outcome == AuthFailed <==> staged.Unauthorized?)
            && (handled.outcome == RateLimited <==> staged.TooManyRequests?)
            && (staged.Forwarded? ==> handled == finish(staged.req))
            && after == l && (!staged.Forwarded? ==> handled.sends == 0)
  {
    ServeMatchesMiddleware(config, check, limiter, jwt, req, finish);
    ServedIsFinished(config, check, limiter, jwt, req, finish);
  }

  /**
   What a request that was handed on gets back: on a hit the cached response and the tag, else the
   response of the attempt that ends the loop, or an error.
   */
  lemma ResponseTable<L>(config: GatewayConfig, check: Check<L>, limiter: L, incoming: Request, world: World)
    requires Handle(config, check, limiter, incoming, world).1.outcome in {CacheHit, ProxiedOk, ProxiedError}
    ensures var req := WithRequestId(config, incoming, world.requestId);
            var found := Router.Route(config.routes, req, world.discovery);
            var h := Handle(config, check, limiter, incoming, world).1;
            && found.Some? && h.staged.Some? && h.staged.value.Forwarded?
            && var route, m := found.value, Retry.MaxAttempts(found.value.retry);
               var cached := Hit(config, route, world, h.staged.value.req);
               var up := UpstreamOf(route, world, h.staged.value.req);
               && (cached.Some? ==> h.outcome == CacheHit && h.response == CacheMiddleware.Tagged(cached.value, "HIT"))
               && (h.outcome == ProxiedOk ==>
                     && Retry.Ends(up, m, h.sends) && up.outcome(h.sends).Responded?
                     && h.response == Returned(config, up.outcome(h.sends).response))
               && (h.outcome == ProxiedError ==>
                     h.response.status == if world.sendError == None && m == 0 then 502 else 500)
  {
    ForwardedIsFinished(config, check, limiter, incoming, world);
    var req := WithRequestId(config, incoming, world.requestId);
    var h := Handle(config, check, limiter, incoming, world).1;
    FinishTable(config, Router.Route(config.routes, req, world.discovery).value, h.staged.value.req, world);
  }

  /** The check puts a user's name into the request: it applies to the path, and token and subject are good. */
  predicate NamesUser(config: GatewayConfig, jwt: Validator, req: Request) {
    && config.auth.Some? && config.auth.value.enabled && !IsExcludedPath(config.auth.value, req.path)
    && ExtractToken(req).Some?
    && var subject := jwt(ExtractToken(req).value, req.at);
       subject.Success? && IsHeaderValue(subject.value)
  }

  lemma AuthStageUser(config: GatewayConfig, jwt: Validator, req: Request, name: string)
    requires AuthStage(config, jwt, req).Success?
    ensures var authed := AuthStage(config, jwt, req).value;
            && authed == req.(headers := authed.headers)
            && Get(authed.headers, name)
               == if NamesUser(config, jwt, req) && name == "x-user-id" then
                    Some(Chars(jwt(ExtractToken(req).value, req.at).value))
                  else Get(req.headers, name)
  {
    if NamesUser(config, jwt, req) {
      GetAfterInsert(req.headers, "x-user-id", Chars(jwt(ExtractToken(req).value, req.at).value), name);
    }
  }

  /**
   The request that is handed on differs from the incoming one in a single header: `x-user-id` is the
   subject of the token, whatever the client sent, exactly when the check names a user.
   */
  lemma ForwardedUser<L>(config: GatewayConfig, check: Check<L>, limiter: L, incoming: Request, world: World,
                         name: string)
    requires var h := Handle(config, check, limiter, incoming, world).1;
             h.staged.Some? && h.staged.value.Forwarded?
    ensures var req := WithRequestId(config, incoming, world.requestId);
            var forwarded := Handle(config, check, limiter, incoming, world).1.staged.value.req;
            && forwarded == req.(headers := forwarded.headers)
            && Get(forwarded.headers, name)
               == if NamesUser(config, world.jwt, req) && name == "x-user-id" then
                    Some(Chars(world.jwt(ExtractToken(req).value, req.at).value))
                  else Get(req.headers, name)
  {
    ForwardedIsFinished(config, check, limiter, incoming, world);
    AuthStageUser(config, world.jwt, WithRequestId(config, incoming, world.requestId), name);
  }

  lemma UserHeaderIsLower()
    ensures Lower("x-user-id") == "x-user-id"
  {
  }

  lemma WithUserSent(req: Request, subject: seq<Byte>, name: string)
    ensures Forwarding.LastValue(WithUser(req, subject).headers, name)
         == if name == "x-user-id" then Some(Chars(subject)) else Forwarding.LastValue(req.headers, name)
  {
    UserHeaderIsLower();
    Forwarding.LastValueAfterInsert(req.headers, "x-user-id", Chars(subject), name);
  }

  lemma AuthStageSent(config: GatewayConfig, jwt: Validator, req: Request, name: string)
    requires AuthStage(config, jwt, req).Success?
    ensures Forwarding.LastValue(AuthStage(config, jwt, req).value.headers, name)
         == if NamesUser(config, jwt, req) && name == "x-user-id" then
              Some(Chars(jwt(ExtractToken(req).value, req.at).value))
            else Forwarding.LastValue(req.headers, name)
  {
    if NamesUser(config, jwt, req) {
      WithUserSent(req, jwt(ExtractToken(req).value, req.at).value, name);
    }
  }

  /**
   What the upstream receives under a name, when a request is sent: nothing under the filtered ones,
   the token's subject under `x-user-id` when the check names a user, and otherwise the last value
   the client sent.
   */
  lemma UpstreamReceives<L>(config: GatewayConfig, check: Check<L>, limiter: L, incoming: Request, world: World,
                            name: string)
    requires Handle(config, check, limiter, incoming, world).1.sends > 0
    ensures var req := WithRequestId(config, incoming, world.requestId);
            var found := Router.Route(config.routes, req, world.discovery);
            var h := Handle(config, check, limiter, incoming, world).1;
            && found.Some? && h.staged.Some? && h.staged.value.Forwarded?
            && var out := Forwarding.OutgoingOf(found.value, h.staged.value.req);
               var sent := if NamesUser(config, world.jwt, req) && name == "x-user-id" then
                             Some(Chars(world.jwt(ExtractToken(req).value, req.at).value))
                           else Forwarding.LastValue(req.headers, name);
               && out.verb == incoming.verb && out.url == Forwarding.TargetUrl(found.value, incoming)
               && (name in out.headers <==> !Forwarding.IsHopByHop(name) && sent.Some?)
               && (name in out.headers ==> Some(out.headers[name]) == sent)
  {
    ForwardedIsFinished(config, check, limiter, incoming, world);
    var req := WithRequestId(config, incoming, world.requestId);
    AuthStageUser(config, world.jwt, req, name);
    AuthStageSent(config, world.jwt, req, name);
    Forwarding.CopiedLookup(AuthStage(config, world.jwt, req).value.headers, name);
  }

  /// Requests one after the other

  datatype Visit = Visit(req: Request, world: World)

  type Pipeline<!L> = (L, Visit) -> (L, Handled)

  function PipelineOf<L>(config: GatewayConfig, check: Check<L>): Pipeline<L> {
    (limiter: L, v: Visit) => Handle(config, check, limiter, v.req, v.world)
  }

  /** Every prefix of a run is a run. */
  function Run<L>(pipeline: Pipeline<L>, limiter: L, visits: seq<Visit>): (r: (L, seq<Handled>))
    ensures |r.1| == |visits|
    decreases visits
  {
    if visits == [] then (limiter, [])
    else
      var (l, h) := pipeline(limiter, visits[0]);
      var (l', hs) := Run(pipeline, l, visits[1..]);
      (l', [h] + hs)
  }

  /** The middleware over the requests that reach it. */
  function RunMiddleware<L>(config: GatewayConfig, check: Check<L>, limiter: L, visits: seq<Visit>): (L, seq<Staged>)
    decreases visits
  {
    if visits == [] then (limiter, [])
    else if !ReachesStages(config, visits[0].req, visits[0].world) then
      RunMiddleware(config, check, limiter, visits[1..])
    else
      var req := WithRequestId(config, visits[0].req, visits[0].world.requestId);
      var (l, s) := Middleware(config, visits[0].world.jwt, check, limiter, req);
      var (l', ss) := RunMiddleware(config, check, l, visits[1..]);
      (l', [s] + ss)
  }

  /** What left the stages, in order. */
  function Stages(handled: seq<Handled>): seq<Staged> {
    if handled == [] then []
    else
      (match handled[0].staged
       case Some(staged) => [staged]
       case None => [])
      + Stages(handled[1..])
  }

  predicate GoodSubject(config: GatewayConfig, v: Visit) {
    !BadSubject(config, v.world.jwt, WithRequestId(config, v.req, v.world.requestId))
  }

  /** One request, against what the middleware does with it if it gets there. */
  lemma VisitMatchesMiddleware<L>(config: GatewayConfig, check: Check<L>, limiter: L, v: Visit)
    requires GoodSubject(config, v)
    ensures var (l, h) := Handle(config, check, limiter, v.req, v.world);
            if ReachesStages(config, v.req, v.world) then
              var (m, s) := Middleware(config, v.world.jwt, check, limiter,
                                       WithRequestId(config, v.req, v.world.requestId));
              l == m && h.staged == Some(s)
            else l == limiter && h.staged == None
  {
    if ReachesStages(config, v.req, v.world) {
      StagesMatchMiddleware(config, check, limiter, v.req, v.world);
    }
  }

  /** Over any run with good subjects, the stages and the middleware stay in step. */
  lemma {:induction false} PipelineRefinesMiddleware<L>(config: GatewayConfig, check: Check<L>, limiter: L,
                                                        visits: seq<Visit>)
    requires forall k | 0 <= k < |visits| :: GoodSubject(config, visits[k])
    ensures var (l, hs) := Run(PipelineOf(config, check), limiter, visits);
            var (m, ss) := RunMiddleware(config, check, limiter, visits);
            l == m && Stages(hs) == ss
    decreases visits
  {
    if visits != [] {
      VisitMatchesMiddleware(config, check, limiter, visits[0]);
      var (l, h) := Handle(config, check, limiter, visits[0].req, visits[0].world);
      PipelineRefinesMiddleware(config, check, l, visits[1..]);
      var hs := Run(PipelineOf(config, check), limiter, visits).1;
      assert hs[0] == h && hs[1..] == Run(PipelineOf(config, check), l, visits[1..]).1;
    }
  }
}
