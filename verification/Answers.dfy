/**
 What a client gets from the pipeline (src/gateway.rs, `handle_request`), stage by stage and spelled
 out: who is refused, limited, answered from the cache or by the upstream, and with which response.
 */
module Answers {
  import opened Auth
  import opened Cors
  import opened Gateway
  import opened Http
  import opened RateLimit
  import opened Text
  import opened Utf8
  import opened Wrappers
  import CacheKey
  import Config
  import Forwarding
  import Retry
  import Router

  /** The generated id goes into the configured header when both can be sent, and nothing else changes. */
  lemma RequestIdMeaning(config: GatewayConfig, incoming: Request, id: seq<Byte>, name: string)
    ensures var req := WithRequestId(config, incoming, id);
            && req == incoming.(headers := req.headers)
            && Get(req.headers, name)
               == if config.requestIdHeader.Some? && IsHeaderName(config.requestIdHeader.value) && IsHeaderValue(id)
                     && name == Lower(config.requestIdHeader.value) then Some(Chars(id))
                  else Get(incoming.headers, name)
  {
    if config.requestIdHeader.Some? {
      GetAfterInsert(incoming.headers, Lower(config.requestIdHeader.value), Chars(id), name);
    }
  }

  /// Authentication

  /** The path is guarded, and no token the request carries is accepted. */
  ghost predicate Refuses(config: GatewayConfig, jwt: Validator, req: Request) {
    && config.auth.Some? && Guards(config.auth.value, req.path)
    && forall t | Carries(req, t) :: jwt(t, req.at).Failure?
  }

  /** The request goes on as `authed`: with the subject of its token where the path is guarded, else as it is. */
  ghost predicate GoesOnAs(config: GatewayConfig, jwt: Validator, req: Request, authed: Request) {
    if config.auth.Some? && Guards(config.auth.value, req.path) then
      exists t, subject ::
        && Carries(req, t) && jwt(t, req.at) == Success(subject)
        && authed == if IsHeaderValue(subject) then req.(headers := Insert(req.headers, "x-user-id", Chars(subject)))
                     else req
    else authed == req
  }

  lemma AuthStageMeaning(config: GatewayConfig, jwt: Validator, req: Request, authed: Request)
    ensures AuthStage(config, jwt, req).Failure? <==> Refuses(config, jwt, req)
    ensures AuthStage(config, jwt, req) == Success(authed) <==> GoesOnAs(config, jwt, req, authed)
  {
    var token := ExtractToken(req);
    if token.Some? { TokenMeaning(req, token.value); }
    forall t | Carries(req, t) ensures token == Some(t) { TokenMeaning(req, t); }
  }

  /** What a refusal says: that there is no token, or why the one carried is not accepted. */
  lemma RefusalMeaning(config: GatewayConfig, jwt: Validator, req: Request, t: string)
    requires Refuses(config, jwt, req)
    ensures AuthStage(config, jwt, req).Failure?
    ensures (forall u :: !Carries(req, u)) ==>
              AuthStage(config, jwt, req).error
              == "{\"error\":\"Unauthorized\",\"message\":\"Missing or invalid token\"}"
    ensures Carries(req, t) ==>
              AuthStage(config, jwt, req).error
              == "{\"error\":\"Unauthorized\",\"message\":\"" + jwt(t, req.at).error + "\"}"
  {
    var token := ExtractToken(req);
    if token.Some? { TokenMeaning(req, token.value); }
    TokenMeaning(req, t);
  }

  /// The stages before the proxy

  /** A preflight: cross-origin rules, the method OPTIONS, and an allowed origin. */
  ghost predicate AsksFirst(config: GatewayConfig, req: Request, origin: string) {
    config.cors.Some? && req.verb == "OPTIONS" && Allows(config.cors.value, origin)
  }

  lemma PreflightMeaning(config: GatewayConfig, req: Request, origin: string)
    requires Names(req.headers, origin)
    ensures IsPreflight(config, req) <==> AsksFirst(config, req, origin)
  {
    OriginMeaning(req.headers, origin);
    if config.cors.Some? { AllowsIsAllowed(config.cors.value, origin); }
  }

  lemma ServedRefusal<L>(config: GatewayConfig, check: Check<L>, limiter: L, jwt: Validator, req: Request,
                         finish: Request -> Handled)
    requires Refuses(config, jwt, req)
    ensures var (after, h) := Serve(config, check, limiter, jwt, req, finish);
            && after == limiter && h.outcome == AuthFailed && h.sends == 0
            && AuthStage(config, jwt, req).Failure?
            && h.response == Response(401, [Header("www-authenticate", "Bearer")], AuthStage(config, jwt, req).error)
  {
    AuthStageMeaning(config, jwt, req, req);
  }

  /** Authentication passed: what the limiter answers for the request's key decides. */
  lemma ServedGoesOn<L>(config: GatewayConfig, check: Check<L>, limiter: L, jwt: Validator, req: Request,
                        authed: Request, finish: Request -> Handled)
    requires GoesOnAs(config, jwt, req, authed)
    ensures var (after, h) := Serve(config, check, limiter, jwt, req, finish);
            var (state, ok) := if config.limit == None then (limiter, true)
                               else check(limiter, LimitKey(config.limit.value, authed.headers), authed.at);
            && after == state && (ok ==> h == finish(authed))
            && (!ok ==>
                  && h.outcome == RateLimited && h.sends == 0
                  && h.response == Response(429, [Header("content-type", "application/json")],
                                            "{\"error\":\"Rate limit exceeded\",\"retry_after\":1}"))
  {
    AuthStageMeaning(config, jwt, req, authed);
    if config.limit.Some? { KeysAgree(config.limit.value, authed.headers); }
  }

  /** A request without a route, and a preflight: the limiter is not asked and nothing is sent. */
  lemma EarlyAnswers<L>(config: GatewayConfig, check: Check<L>, limiter: L, incoming: Request, world: World,
                        origin: string)
    requires Names(WithRequestId(config, incoming, world.requestId).headers, origin)
    ensures var req := WithRequestId(config, incoming, world.requestId);
            var route := Router.Route(config.routes, req, world.discovery);
            var (after, h) := Handle(config, check, limiter, incoming, world);
            && (h.outcome == NotFound <==> route == None)
            && (h.outcome == Preflight <==> route.Some? && AsksFirst(config, req, origin))
            && (h.outcome in {NotFound, Preflight} ==> after == limiter && h.sends == 0)
            && (h.outcome == NotFound ==>
                  h.response == Response(404, [Header("content-type", "application/json")],
                                         "{\"error\":\"Not Found\",\"message\":\"No route matches the request\"}"))
            && (h.outcome == Preflight ==> h.response == PreflightResponse(config.cors.value, origin))
  {
    var req := WithRequestId(config, incoming, world.requestId);
    PreflightMeaning(config, req, origin);
    OriginMeaning(req.headers, origin);
    if ReachesStages(config, incoming, world) { ServedOutcome(config, check, limiter, incoming, world); }
  }

  lemma ServedOutcome<L>(config: GatewayConfig, check: Check<L>, limiter: L, incoming: Request, world: World)
    requires ReachesStages(config, incoming, world)
    ensures Handle(config, check, limiter, incoming, world).1.outcome !in {NotFound, Preflight}
  {
    var req := WithRequestId(config, incoming, world.requestId);
    var route := Router.Route(config.routes, req, world.discovery).value;
    FinisherFinishes(config, route, world);
    ServedIsFinished(config, check, limiter, world.jwt, req, FinisherOf(config, route, world));
  }

  /** A request that is routed and is no preflight. */
  ghost predicate ComesIn(config: GatewayConfig, req: Request, world: World, origin: string) {
    && Names(req.headers, origin)
    && Router.Route(config.routes, req, world.discovery).Some? && !AsksFirst(config, req, origin)
  }

  /**
   Such a request is refused exactly when its path is guarded and no token it carries is accepted;
   the answer says which of the two it was, and the limiter is not asked.
   */
  lemma RefusedExactly<L>(config: GatewayConfig, check: Check<L>, limiter: L, incoming: Request, world: World,
                          origin: string, t: string)
    requires ComesIn(config, WithRequestId(config, incoming, world.requestId), world, origin)
    ensures var req := WithRequestId(config, incoming, world.requestId);
            var (after, h) := Handle(config, check, limiter, incoming, world);
            && (h.outcome == AuthFailed <==> Refuses(config, world.jwt, req))
            && (h.outcome == AuthFailed ==>
                  && after == limiter && h.sends == 0
                  && h.response.status == 401 && h.response.headers == [Header("www-authenticate", "Bearer")]
                  && ((forall u :: !Carries(req, u)) ==>
                        h.response.body == "{\"error\":\"Unauthorized\",\"message\":\"Missing or invalid token\"}")
                  && (Carries(req, t) ==>
                        h.response.body
                        == "{\"error\":\"Unauthorized\",\"message\":\"" + world.jwt(t, req.at).error + "\"}"))
  {
    var req := WithRequestId(config, incoming, world.requestId);
    PreflightMeaning(config, req, origin);
    var finish := FinisherOf(config, Router.Route(config.routes, req, world.discovery).value, world);
    AuthStageMeaning(config, world.jwt, req, req);
    if Refuses(config, world.jwt, req) {
      ServedRefusal(config, check, limiter, world.jwt, req, finish);
      RefusalMeaning(config, world.jwt, req, t);
    } else {
      var authed := AuthStage(config, world.jwt, req).value;
      AuthStageMeaning(config, world.jwt, req, authed);
      ServedGoesOn(config, check, limiter, world.jwt, req, authed, finish);
      FinisherFinishes(config, Router.Route(config.routes, req, world.discovery).value, world);
      assert finish(authed).outcome != AuthFailed;
    }
  }

  /** One that goes on is turned away exactly when the limiter refuses its key. */
  lemma LimitedExactly<L>(config: GatewayConfig, check: Check<L>, limiter: L, incoming: Request, world: World,
                          origin: string, authed: Request)
    requires var req := WithRequestId(config, incoming, world.requestId);
             ComesIn(config, req, world, origin) && GoesOnAs(config, world.jwt, req, authed)
    ensures var (after, h) := Handle(config, check, limiter, incoming, world);
            var (state, ok) := if config.limit == None then (limiter, true)
                               else check(limiter, LimitKey(config.limit.value, authed.headers), authed.at);
            && after == state && (h.outcome == RateLimited <==> !ok)
            && (h.outcome == RateLimited ==>
                  && h.sends == 0
                  && h.response == Response(429, [Header("content-type", "application/json")],
                                            "{\"error\":\"Rate limit exceeded\",\"retry_after\":1}"))
            && (ok ==>
                  h == Finish(config,
                              Router.Route(config.routes, WithRequestId(config, incoming, world.requestId),
                                           world.discovery).value,
                              authed, world))
  {
    var req := WithRequestId(config, incoming, world.requestId);
    PreflightMeaning(config, req, origin);
    var route := Router.Route(config.routes, req, world.discovery).value;
    var finish := FinisherOf(config, route, world);
    ServedGoesOn(config, check, limiter, world.jwt, req, authed, finish);
    FinisherFinishes(config, route, world);
    assert finish(authed).outcome != RateLimited;
    assert finish(authed) == Finish(config, route, authed, world);
  }

  /// Cache and upstream

  /** A GET of a caching route whose key the backend answers. */
  ghost predicate Cached(config: GatewayConfig, route: Router.RouteMatch, req: Request, world: World, r: Response) {
    && config.cache.Some? && route.cacheEnabled && req.verb == "GET"
    && world.cached(CacheKey.Key(config.cache.value.keyStrategy, req)) == Some(r)
  }

  /** A request past the limiter is a hit exactly then, and gets the cached response with one header more. */
  lemma HitExactly(config: GatewayConfig, route: Router.RouteMatch, req: Request, world: World, r: Response)
    ensures var h := Finish(config, route, req, world);
            && (h.outcome == CacheHit <==> exists c :: Cached(config, route, req, world, c))
            && (Cached(config, route, req, world, r) ==>
                  h.sends == 0 && h.response == Response(r.status, r.headers + [Header("x-cache", "HIT")], r.body))
  {
    if c :| Cached(config, route, req, world, c) {
      assert Hit(config, route, world, req) == Some(c);
    } else if Hit(config, route, world, req).Some? {
      assert Cached(config, route, req, world, Hit(config, route, world, req).value);
    }
  }

  lemma ErrorDigits()
    ensures Decimal(500) == "500" && Decimal(502) == "502"
  {
    assert Decimal(5) == "5" && Decimal(50) == "50";
  }

  const TYPED: seq<Header> := [Header("content-type", "application/json")]

  /** An error as it is sent: the status in digits, and a text. */
  function ErrorJson(digits: string, text: string): string {
    "{\"error\":\"" + digits + "\",\"message\":\"" + text + "\"}"
  }

  /** The status and the body of each error (src/error.rs). */
  lemma ErrorMeaning(e: Config.GatewayError)
    ensures ErrorResponse(e)
         == match e
            case ConfigError(m) => Response(500, TYPED, ErrorJson("500", "Configuration error: " + m))
            case DiscoveryError(m) => Response(500, TYPED, ErrorJson("500", "Service discovery error: " + m))
            case ProxyError(m) => Response(500, TYPED, ErrorJson("500", "Proxy error: " + m))
            case UpstreamUnavailable => Response(502, TYPED, ErrorJson("502", "Upstream unavailable"))
  {
    ErrorDigits();
  }

  /** The response of an upstream as the client gets it: two headers skipped, cross-origin ones added. */
  function Passed(config: GatewayConfig, r: Response): Response {
    WithCors(config.cors, Response(r.status, Forwarding.Kept(r.headers), r.body))
  }

  /** What is sent failed for a reason of the proxy. */
  ghost predicate Failed(h: Handled, sends: nat, text: string) {
    h.outcome == ProxiedError && h.sends == sends
    && h.response == Response(500, TYPED, ErrorJson("500", "Proxy error: " + text))
  }

  /**
   A request past the limiter that is no hit: the attempts of its route decide, one without retry
   settings; what ends the loop comes back, or the error that stands for it.
   */
  lemma ProxiedExactly(config: GatewayConfig, route: Router.RouteMatch, req: Request, world: World)
    requires forall c :: !Cached(config, route, req, world, c)
    ensures var h := Finish(config, route, req, world);
            var m := if route.retry.Some? then route.retry.value.maxAttempts else 1;
            var up := world.upstream(Forwarding.OutgoingOf(route, req));
            if world.sendError.Some? then Failed(h, 0, world.sendError.value)
            else if m == 0 then
              && h.outcome == ProxiedError && h.sends == 0
              && h.response == Response(502, TYPED, ErrorJson("502", "Upstream unavailable"))
            else
              && Retry.Ends(up, m, h.sends)
              && match up.outcome(h.sends)
                 case SendFailed(reason) =>
                   Failed(h, h.sends, "Request failed after " + Decimal(m) + " attempts: " + reason)
                 case Responded(r) =>
                   if world.readError.Some? then Failed(h, h.sends, world.readError.value)
                   else h.outcome == ProxiedOk && h.response == Passed(config, r)
  {
    HitExactly(config, route, req, world, NO_ROUTE);
    var m := if route.retry.Some? then route.retry.value.maxAttempts else 1;
    var up := world.upstream(Forwarding.OutgoingOf(route, req));
    if m > 0 { Retry.LastAttemptEnds(up, m, 1); }
    var h := Finish(config, route, req, world);
    assert Hit(config, route, world, req) == None;
    assert h == ProxyResult(config, route, world, req, Sends(route, world, req));
    ErrorMeaning(Config.UpstreamUnavailable);
    if world.sendError.Some? {
      ErrorMeaning(Config.ProxyError(world.sendError.value));
    } else if m > 0 {
      ProxiedOutcome(config, route, req, world, h.sends, m);
    }
  }

  lemma ProxiedOutcome(config: GatewayConfig, route: Router.RouteMatch, req: Request, world: World, sent: nat, m: nat)
    requires world.sendError == None && sent > 0
    requires m == if route.retry.Some? then route.retry.value.maxAttempts else 1
    ensures var h := ProxyResult(config, route, world, req, sent);
            match world.upstream(Forwarding.OutgoingOf(route, req)).outcome(sent)
            case SendFailed(reason) =>
              Failed(h, sent, "Request failed after " + Decimal(m) + " attempts: " + reason)
            case Responded(r) =>
              if world.readError.Some? then Failed(h, sent, world.readError.value)
              else h.outcome == ProxiedOk && h.sends == sent && h.response == Passed(config, r)
  {
    match world.upstream(Forwarding.OutgoingOf(route, req)).outcome(sent)
    case SendFailed(reason) =>
      ErrorMeaning(Config.ProxyError("Request failed after " + Decimal(m) + " attempts: " + reason));
    case Responded(r) =>
      if world.readError.Some? { ErrorMeaning(Config.ProxyError(world.readError.value)); }
  }
}
