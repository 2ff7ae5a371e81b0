# A verified model of a small HTTP gateway

The gateway routes HTTP requests to upstreams, with a JWT check, a rate limit, a response cache,
service discovery, a retry loop and an idle-connection pool. This project models the parts of it
that make decisions or keep state, in Dafny, and proves what they promise: for every input, every
run, and every interleaving of the tasks that share state.

`dafny verify dfyconfig.toml` checks the whole project.

## Reading guide

| file | part of the gateway |
|---|---|
| `RegexSyntax.dfy`, `Router.dfy` | route globs, the regular expressions they compile to, the route table |
| `Pool.dfy` | the idle-connection list |
| `Retry.dfy`, `LoadBalancer.dfy`, `Forwarding.dfy` | the proxy: attempt loop, endpoint choice, target URL and headers |
| `Utf8.dfy`, `EtcdRange.dfy` | the byte range Etcd is asked for |
| `Registry.dfy`, `Discovery.dfy`, `Freshness.dfy` | endpoints taken from an answer; resolvers and watchers on one cache; when it holds the latest answer |
| `CacheKey.dfy`, `KeyDecoding.dfy`, `CacheMiddleware.dfy` | the printed cache key and the caching rule; when a key determines its request; the cache in front of an inner service |
| `Auth.dfy`, `RateLimit.dfy`, `Cors.dfy`, `Gateway.dfy` | the middlewares, and the pipeline that inlines two of them |
| `Answers.dfy` | what a client gets from the pipeline, stage by stage |
| `Serving.dfy` | requests of the pipeline served concurrently |
| `Text.dfy`, `Http.dfy`, `Config.dfy`, `Wrappers.dfy` | strings, requests and header maps, configuration, Option and Result |

Code that works in place is a class whose methods are proved against functions on values; the
theorems are about those functions. Shared state under interleaving is a step function on states,
with one event for each stretch between two awaits, and a run is any sequence of events. Where
such a step system has a class beside it, the class method is shown to be the uninterrupted run.

What the code gets from outside is a parameter: instants, hashes, connect and send outcomes,
registry answers, the JWT check, the limiter (any state and any check on it), the backend of the
cache (it may lose entries and fail at will), and the inner service.

## Results that are not plain confirmations

- A wildcard `b/**` routes `b` and everything under `b/`, while the authentication exclusion with
  the same text also excludes every path that starts with `b`, such as `bx` (`Auth.ExclusionIsWider`).
- Two queries to Etcd are nested when one service name is a prefix of the other, and otherwise disjoint,
  so the query for `user` also returns the endpoints of `user-admin` (`EtcdRange.RangesNestOrAreDisjoint`).
  The range of a key is exact, and a name obeys that law towards the names with exact ranges, exactly when
  the last byte is neither 0x7F nor 0xBF: there the lossy conversion to a string changes the end
  (`EtcdRange.RangeIsPrefixExactly`, `EtcdRange.PrefixLawExactlyWhenUnbroken`).
- Wraps of the round-robin counter cost fairness exactly when the number of endpoints does not
  divide 2^64 (`LoadBalancer.WrapIsFairExactlyForDivisors`). The counter is shared by all lists: among
  calls for other lists only a list of one endpoint keeps its share (`LoadBalancer.SharedIsFairExactlyForOne`).
- The cache is transparent exactly when requests with equal keys have equal answers
  (`CacheMiddleware.TransparentExactlyWhenKeyDecides`). A key with listed headers determines the method,
  the URI and the listed values when every listed header is present as text without a colon
  (`KeyDecoding.ListedTextDecodes`), and each of these conditions is needed. When a listed header may be
  absent, it does exactly when nothing listed can be a header name
  (`KeyDecoding.AbsenceDecodesExactlyWhenNoneListed`). When values may hold colons, or bytes that are not
  UTF-8, it does exactly when nothing is listed, or some listed name cannot be a header name so that no
  request carries them all (`KeyDecoding.ColonsDecodeExactlyWhenNoneListed`,
  `KeyDecoding.IllFormedDecodeExactlyWhenNoneListed`).
- The configuration documents `excluded_paths` of the cache as path exclusions. The middleware asks
  about a blank `GET /`, so only "" and "/" have an effect, and they exclude everything
  (`CacheKey.ExclusionsSeeOnlyTheRoot`). With "/admin/" excluded, `GET /admin/x` is stored
  (`CacheKey.ExcludedPathIsStored`). The rule is honoured for a path exactly when the path is excluded
  just in case the root is, and for all paths exactly when the root is excluded or no excluded path
  starts with a slash (`CacheKey.ExclusionHonouredExactly`, `CacheKey.AllExclusionsHonouredExactly`).
- The discovery cache ends up with the latest answer for a name in every schedule without drops exactly
  when at most one task asks for it, for both providers and for resolvers and watchers alike
  (`Freshness.FreshExactlyWhenAlone`). A resolver is dropped with its request, a watcher never is: so over all
  schedules, exactly when at most one task asks and that is a watcher
  (`Freshness.AlwaysFreshExactlyForOneWatcher`). In a single run without overlap it holds the latest answer
  that was not dropped (`Freshness.CacheIsLastDelivered`).
- For the requests with an absolute path that reach one route, the target URL determines path and query
  exactly when the route strips no prefix that lies strictly below its own base
  (`Forwarding.DecodesExactlyUnlessBelow`).
- Explicit pool cleanup is invisible to every borrower exactly when no return of the run is refused while
  the full list holds an entry that has expired by then; with a zero timeout it always is
  (`Pool.InvisibleExactlyWhenHarmless`).
- The inlined pipeline and the composed middleware differ on exactly one kind of request: a valid
  token whose subject is not a header value, where the middleware panics and the pipeline goes on
  (`Gateway.StagesMatchMiddleware`, `Gateway.BadSubjectGoesOn`); such a request exists for every such subject,
  a line feed for one (`Gateway.BadSubjectHappens`).
- Requests in flight together behave as if they had been served one after the other, in the order in
  which they pass the limiter stage; a request dropped past that stage stays charged
  (`Serving.ServingIsSequential`, `Serving.OutcomesAreConserved`).
- The documentation lists load-balancing strategies per route; the router answers the first endpoint of
  such an upstream, and the configured strategy changes no answer (`Router.StrategiesAreIgnored`).

## Model

| member | source | states |
|---|---|---|
| RegexSyntax.ParseEscaped | src/router.rs:47-52 | escaping any text, metacharacters included, and parsing it in front of any parsable rest gives the text back as literals |
| RegexSyntax.MatchesLiterals | src/router.rs:47-52 | a run of literals matches exactly its own text and then what follows |
| RegexSyntax.MatchesAnyStar | src/router.rs:47-50 | `.*` matches exactly the stretches without a newline |
| Router.SearchAnchored | src/router.rs:82 | unanchored search for `^` and an escaped base succeeds exactly on texts that start with the base and whose rest matches |
| Router.CompiledMeansCovers | src/router.rs:45-56 | for every route path the emitted text is a regular expression, and searching with it accepts a text exactly when the plain reading does: equal to the path, or equal to the base or below it |
| Router.CompiledByForm | src/router.rs:33-49 | a path that ends in no wildcard is matched by itself alone; one that ends in `/*` or `/**` by what stands before, and by that followed by a slash and text without a newline |
| Router.New | src/router.rs:41-68 | building the table never fails, keeps the configured order and compiles every path |
| Router.Router.MatchRoute | src/router.rs:75-106 | over compiled expressions the loop answers what the plain rules answer |
| Router.LowestRouteDecides | src/router.rs:60-126 | the lowest route whose path and method take the request decides: a static URL, the first load-balanced endpoint (none gives no answer), or what discovery answers for the name (no discovery or a failure gives no answer), and every other field is the route's own, false where a flag is absent |
| Router.NoRouteNoAnswer | src/router.rs:105 | when no route takes the request there is no answer |
| Router.ShadowedExactlyUnderBase | src/router.rs:45-53 | a wildcard accepts every path of another route exactly when that route's base is at or under its own |
| Router.ShadowedRouteIsDead | src/router.rs:75-106 | deleting a route under an earlier wildcard without method filter changes no answer, for every request and discovery behaviour |
| Router.StrategiesAreIgnored | src/router.rs:118-124 | two tables that differ only in the strategies of load-balanced upstreams give the same answer to every request |
| Pool.ConnectionPool.Retain | src/pool.rs:36-45 | the list keeps exactly its unexpired entries, in order |
| Pool.ConnectionPool.GetConnection | src/pool.rs:33-80 | the new list and whether a stream is returned, for every outcome of the connect |
| Pool.ConnectionPool.ReturnConnection | src/pool.rs:82-91 | an entry is appended exactly when there is room |
| Pool.ConnectionPool.CleanupExpired | src/pool.rs:93-102 | the list keeps exactly its unexpired entries, in order |
| Pool.ExpiredMeaning | src/pool.rs:39 | an entry lives for less than the timeout after its last use |
| Pool.LiveAppend | src/pool.rs:38-44 | the live entries are an order-preserving selection |
| Pool.ExpiredArePrefix | src/pool.rs:38-45 | in a sorted list the expired entries are a prefix, and that prefix is what `retain` drops |
| Pool.StepKeepsInv | src/pool.rs:33-102 | every operation keeps the capacity bound, the order by last use and the order of the instants |
| Pool.PoolInvariant | src/pool.rs:33-102 | so does every run from the empty pool under a monotone clock, with failed and dropped connects |
| Pool.ReusedExactlyWhenLive | src/pool.rs:46-48 | an entry is reused exactly when some unexpired entry has the address |
| Pool.NewWhenRoom | src/pool.rs:61-79 | when no live entry has the address, a connect that succeeds adds one entry with its own instants exactly when the live entries leave room |
| Pool.ReuseTakesOldest | src/pool.rs:46-48 | reuse removes the least recently used unexpired entry of the address and leaves the other unexpired ones in order |
| Pool.BorrowMovesOneQueue | src/pool.rs:46-77 | a borrow takes the head of its address's unexpired entries, or appends a new entry when there is none, there is room and the connect succeeds; the entries of other addresses only lose what expired |
| Pool.CleanupSimulation | src/pool.rs:93-102 | a run with cleanups and the run without them give every borrower the same branch and pool, from any two lists that agree once filtered, if no return of the plain run is refused for an expired entry |
| Pool.CleanupIsInvisible | src/pool.rs:33-102 | two runs that differ only in cleanups give every borrower the same branch and the same pool, if in the run without any no return is refused for an expired entry |
| Pool.RefusalShowsCleanup | src/pool.rs:82-91 | any run with a return that is refused for an expired entry can be cut after it and given one cleanup so that the next borrower sees the difference |
| Pool.InvisibleExactlyWhenHarmless | src/pool.rs:33-102 | cleanups put into a monotone run are invisible to every borrower if and only if no return of the run is refused over a list with an expired entry, or the timeout is zero |
| Retry.ExecuteWithRetry | src/proxy.rs:133-175 | without retry settings one send, whose response or error comes back; with them the sends end at the first response outside 500..599 or at the last attempt; no attempt allowed, and a request that cannot be cloned; the error texts, the sleeps and the elapsed time |
| Retry.LastAttemptEnds | src/proxy.rs:142-171 | the attempt that ends the loop is unique, and is the one counted for a request |
| Retry.ElapsedBound | src/proxy.rs:146-165 | with a timeout per send the call takes at most m timeouts and backoff * m(m-1)/2 |
| Retry.BackoffOverflowsOnlyAfterAges | src/proxy.rs:154-165 | the delay product can only overflow after sleeps of 2^64 seconds |
| LoadBalancer.ProxyClient.SelectEndpoint | src/proxy.rs:177-213 | the endpoint each strategy takes and the counter it leaves: the ticket for round robin and least connections, the hash for random and known clients, the first endpoint for unknown ones |
| LoadBalancer.CountsAreHits | src/proxy.rs:183-211 | under every interleaving, and over any number of wraps, the choices for the only list that draws are those of consecutive tickets |
| LoadBalancer.RoundRobinFair | src/proxy.rs:183-186 | without a wrap each of n positions is chosen floor(k/n) or ceil(k/n) times in k draws |
| LoadBalancer.GapWithinStretches | src/proxy.rs:183-186 | over any number of wraps two positions differ by at most the number of stretches between wraps |
| LoadBalancer.WrapIsFairExactlyForDivisors | src/proxy.rs:183-211 | every run, of any length, keeps floor or ceil for a list that draws alone exactly when its length divides the range of the counter |
| LoadBalancer.SharedIsFairExactlyForOne | src/proxy.rs:183-211 | with other lists drawing in between, exactly when it has one endpoint |
| Forwarding.StripRecomposes | src/proxy.rs:63-67 | for a wildcard that strips its own base, the path is the base and the target path, which is empty or starts with a slash |
| Forwarding.TargetPathCollision | src/proxy.rs:63-67 | for any configured prefix, exactly which two paths are sent to the same target path |
| Forwarding.TargetUrlMeaning | src/proxy.rs:58-69 | the target URL is the upstream's, the path without the prefix where it has it, and the query after a question mark |
| Forwarding.TargetUrlDecodes | src/proxy.rs:58-69 | for any route, two requests have the same target URL exactly when they have the same target path and query |
| Forwarding.DecodesExactlyUnlessBelow | src/proxy.rs:58-69 | among the requests with an absolute path that reach a route the target URL determines path and query if and only if the route strips nothing, or a prefix that does not lie strictly below the base of its glob |
| Forwarding.CopyRequestHeaders | src/proxy.rs:78-98 | a name is sent exactly when it occurs and is none of the nine filtered ones, with its last value |
| Forwarding.CopyResponseHeaders | src/proxy.rs:116-122 | the returned headers are the upstream's without the skipped ones, in order |
| Forwarding.KeptAppend | src/proxy.rs:116-122 | the returned headers are an order-preserving selection that leaves out the two skipped names |
| Forwarding.KeptValues | src/proxy.rs:116-122 | every name but the two skipped keeps all its values in order |
| Utf8.LossyIdentity | src/discovery/etcd.rs:72 | the lossy conversion is the identity on well-formed text and on nothing else |
| Utf8.ValidMeansEncoded | src/cache/mod.rs:87 | well-formed bytes are exactly the encodings of sequences of scalar values |
| Utf8.LossyMeaning | src/cache/mod.rs:87 | a scalar at the front stays; otherwise the longest bytes that start an encoding, or one byte that starts none, become one U+FFFD |
| EtcdRange.PrefixBytes | src/discovery/etcd.rs:52 | the key starts with the bytes of "/services/" |
| EtcdRange.ComputeRangeEnd | src/discovery/etcd.rs:67-73 | bumping the last byte in place and converting gives the specified end |
| EtcdRange.RangeIsPrefixExactly | src/discovery/etcd.rs:63-73 | the range of a key holds exactly the byte strings it is a prefix of, if and only if its last byte is neither 0x7F nor 0xBF |
| EtcdRange.RangesNestOrAreDisjoint | src/discovery/etcd.rs:97-106 | between names with exact ranges, the range of one service lies in that of another exactly when the other's name is a prefix of its own, and two ranges are disjoint exactly when neither name is a prefix of the other |
| EtcdRange.PrefixLawExactlyWhenUnbroken | src/discovery/etcd.rs:63-73 | of all well-formed names, that law holds for a name if and only if its last byte is neither 0x7F nor 0xBF |
| EtcdRange.AsciiNameExact | src/discovery/etcd.rs:63-73 | for ASCII names range and law are exact unless the name ends in the control character 0x7F |
| Registry.HealthyEndpoints | src/discovery/consul.rs:122-137 | the loop gives the specified list |
| Registry.HealthyMembers | src/discovery/consul.rs:122-137 | an endpoint is listed exactly when it is `http://`, address, colon and decimal port of a service with an address, every check of which says "passing" |
| Registry.HealthyAppend | src/discovery/consul.rs:122-137 | the list keeps the order of the answer and takes each such service once |
| Registry.HealthyHead | src/discovery/consul.rs:93 | its head is the endpoint of the first such service |
| Text.DecimalReads | src/discovery/consul.rs:136 | the printed digits read back as the number, without a leading zero |
| Registry.ListedEndpoints | src/discovery/etcd.rs:128-141 | the loop gives the specified list |
| Registry.ListedMembers | src/discovery/etcd.rs:128-141 | an endpoint is listed exactly when it is a trimmed, non-empty value of the answer |
| Registry.ListedAppend | src/discovery/etcd.rs:128-141 | the list keeps the order of the answer and takes each value that is not blank once, trimmed |
| Registry.ListedHead | src/discovery/etcd.rs:93 | its head is the first value that is not blank |
| Discovery.StepKeepsSound | src/discovery/consul.rs:75-98 | every step of any task keeps each cached list and each result traceable to an answer for its name |
| Discovery.DiscoverySafety | src/discovery/consul.rs:75-160 | in every run every cached list is the filtered result of some answer for that name, and every resolved endpoint heads a non-empty such list |
| Discovery.ConsulResultsAreHealthy | src/discovery/consul.rs:75-137 | a Consul result is the URL, written out, of the first service of some answer for the name that has an address and only "passing" checks |
| Discovery.EtcdResultsAreListed | src/discovery/etcd.rs:78-141 | an Etcd result is the first value of some answer for the name that is not blank, trimmed |
| Discovery.ReplacedListIsNewer | src/discovery/consul.rs:77-95 | a resolver that replaces a non-empty list replaces one written after its own read |
| Freshness.CacheIsLastDelivered | src/discovery/etcd.rs:149-168 | without overlapping queries, and whatever is dropped, the entry (absent counted as empty) equals the latest answer that was not dropped whenever none waits to be written, and so the latest answer if that one was not dropped |
| Freshness.OverlapCanGoStale | src/discovery/consul.rs:75-155 | any two tasks of a name, of any kinds and for both providers, can leave the older of two answers in the cache, whatever other tasks there are |
| Freshness.DropCanGoStale | src/discovery/consul.rs:91-95 | a resolver dropped before its write leaves the cache behind the latest answer, whatever other tasks there are |
| Freshness.FreshExactlyWhenAlone | src/discovery/consul.rs:75-155 | every schedule that drops no held answer ends fresh if and only if at most one task asks for the name |
| Freshness.AlwaysFreshExactlyForOneWatcher | src/discovery/consul.rs:75-164 | every schedule, resolvers being dropped at any await, ends fresh if and only if at most one task asks for the name and no resolver does |
| Discovery.StepKeepsReads | src/discovery/consul.rs:77-95 | every step keeps a cached list newer than the read of any pending resolver of its name |
| Freshness.DeliveredIsLatest | src/discovery/etcd.rs:149-168 | when the latest answer for a name was not dropped, the latest one delivered is the latest one |
| Discovery.ServiceDiscovery.Resolve | src/discovery/consul.rs:75-98 | cache and result of one call, for both providers |
| Discovery.ServiceDiscovery.HealthCheck | src/discovery/etcd.rs:96-155 | the list of an answer; the Etcd form stores it, the Consul form does not |
| Discovery.UninterruptedResolve | src/discovery/etcd.rs:78-94 | the steps of one resolver, taken without interruption, are that call |
| Discovery.WatcherAsks | src/discovery/consul.rs:149-159 | a watcher asks whatever is cached, and a failed query changes nothing |
| Discovery.WatcherHolds | src/discovery/etcd.rs:163-166 | an answer that arrives is held, and the cache stays as it is until it is written |
| Discovery.WatcherWrites | src/discovery/etcd.rs:149-168 | a watcher writes its list whatever it holds: Consul once, Etcd a second time over anything written in between |
| CacheKey.BuildKey | src/cache/mod.rs:75-93 | the loop prints the specified key: `cache:`, the method where the strategy has it, origin, path and query, and the listed headers |
| CacheKey.UriOnlyKeyDecodes | src/cache/mod.rs:80 | two keys of the URI alone are equal exactly when what stands before the query and the query are equal |
| CacheKey.MethodUriKeyDecodes | src/cache/mod.rs:81 | the key determines the method and the URI, and for request targets what stands before the query, and the query |
| CacheKey.HeaderKeyDecodes | src/cache/mod.rs:82-91 | with every listed header present as colon-free well-formed text, the key determines the method, the URI and all the values |
| KeyDecoding.ListedTextDecodes | src/cache/mod.rs:82-91 | the same as a statement about all requests of a list |
| KeyDecoding.AbsenceDecodesExactlyWhenNoneListed | src/cache/mod.rs:84-89 | when listed headers may be absent, equal keys mean equal method, URI and listed values if and only if no listed name can be a header name |
| KeyDecoding.ColonsDecodeExactlyWhenNoneListed | src/cache/mod.rs:84-89 | when values may hold colons, if and only if nothing is listed or no request carries the whole list |
| KeyDecoding.IllFormedDecodeExactlyWhenNoneListed | src/cache/mod.rs:84-89 | when values may be no well-formed text, likewise |
| CacheKey.ShouldCacheMeaning | src/cache/mod.rs:53-73 | caching is on, the method is listed in some letter case, the status is listed, and no excluded path starts the path |
| CacheKey.ExclusionsSeeOnlyTheRoot | src/middleware/cache.rs:88 | given the other conditions, a response is stored exactly when neither "" nor "/" is excluded |
| CacheKey.ExcludedPathIsStored | src/middleware/cache.rs:88 | a response under an excluded path that is stored |
| CacheKey.ExclusionHonouredExactly | src/cache/mod.rs:53-73 | storing agrees with the caching rule for a path if and only if the path is excluded just in case the root is |
| CacheKey.AllExclusionsHonouredExactly | src/cache/mod.rs:53-73 | storing agrees with the rule for every absolute path if and only if the root is excluded or no excluded path starts with a slash |
| CacheMiddleware.Rebuild | src/middleware/cache.rs:76-108 | the rebuilt response is the original with one header appended |
| CacheMiddleware.StoreHoldsAnswers | src/middleware/cache.rs:88-102 | in every run each stored entry is the inner answer to some GET request of its key, with a cacheable status |
| CacheMiddleware.StepKeepsTransparent | src/middleware/cache.rs:55-114 | each step keeps every finished request equal to the inner answer up to the appended header |
| CacheMiddleware.TransparentExactlyWhenKeyDecides | src/middleware/cache.rs:55-114 | every run is transparent if and only if requests with equal keys have equal answers wherever one may be stored |
| CacheMiddleware.TagTellsSource | src/middleware/cache.rs:74-108 | a hit is the stored entry of the key, a miss is the inner answer with a status that may be stored |
| CacheMiddleware.NonGetAvoidsStore | src/middleware/cache.rs:60-64 | a request that is not GET neither writes the store nor depends on it |
| CacheMiddleware.UriKeyDecides | src/cache/mod.rs:80 | an inner service that looks at the URI only is cached transparently under the key of the URI alone |
| CacheMiddleware.MethodUriKeyDecides | src/cache/mod.rs:81 | an inner service that looks at method and URI only is cached transparently under the key of both |
| CacheMiddleware.HeaderKeyDecides | src/cache/mod.rs:82-91 | one that also looks at the listed headers is, on traffic that carries them all as colon-free text |
| CacheMiddleware.CacheMiddlewareService.Call | src/middleware/cache.rs:55-114 | one call is the uninterrupted run of its steps; hit, miss with and without a store, failed read, failed write, and other methods spelled out |
| Auth.ExclusionIsWider | src/middleware/auth.rs:47-59 | what the router's reading of a glob covers is excluded as well, and the two differ exactly on paths that extend a wildcard's base with something other than a slash |
| Auth.FindPrefixed | src/middleware/auth.rs:76-78 | the query token is what follows the prefix in the first piece that has it |
| Auth.TokenMeaning | src/middleware/auth.rs:61-81 | the token is what follows `Bearer ` in the first `Authorization` header that is text, whatever the query says; without such a header, what follows `token=` in the first piece of the query that starts so |
| Auth.AuthCallMeaning | src/middleware/auth.rs:150-197 | the middleware's result for a path that is not guarded, for a request without a token, and for one that carries a given token, by what the check answers for that token |
| Auth.RefusedExactlyWithoutToken | src/middleware/auth.rs:150-197 | it refuses exactly the guarded requests that carry no token the check accepts |
| Http.GetStrIsFirstText | src/middleware/auth.rs:62-64 | a header read as text is the earliest value of its name, when that is visible ASCII, space and tab |
| Http.HeaderValueBytes | src/gateway.rs:292 | a header value holds no control character other than the tab |
| Http.TokenCharacters | src/gateway.rs:244 | a header name is visible ASCII without the delimiters of section 5.6.2 of RFC 9110 |
| Text.SplitJoins | src/middleware/auth.rs:76 | the pieces of a query joined again are the query, and no piece holds the separator |
| Text.TrimMeaning | src/discovery/etcd.rs:136 | trimming takes all the white space off both ends and nothing else |
| Text.SpaceTable | src/discovery/etcd.rs:136 | the white space characters, one by one |
| Text.LowerCharTable | src/router.rs:82 | only the 26 capitals have another lower case |
| Auth.AuthService.Call | src/middleware/auth.rs:150-197 | the response or the request handed on, and the limiter's state, including the panic on a subject that is no header value |
| RateLimit.RateLimitService.Call | src/middleware/rate_limit.rs:95-136 | one check of the chosen key decides, and the request is handed on unchanged |
| RateLimit.LimitKeyMeaning | src/middleware/rate_limit.rs:96-115 | the key by strategy: the text of the first forwarded-for header up to its first comma, trimmed; the first value of the configured header; "unknown" where there is none; the fixed ones |
| Cors.PreflightHeaders | src/middleware/cors.rs:43-68 | status, body and every header of the answer to a preflight |
| Cors.CorsHeadersMeaning | src/gateway.rs:377-391 | what is added to an upstream's response: nothing unless that response names an allowed origin itself, and then the three headers as configured |
| Cors.CommaJoinedAppend | src/middleware/cors.rs:52 | a configured list is sent with a comma and a space between its items |
| Gateway.Gateway.HandleRequest | src/gateway.rs:232-429 | limiter, counters, outcome and response of one request |
| Gateway.KeysAgree | src/gateway.rs:323-341 | the pipeline's own choice of the key gives the middleware's key |
| Gateway.StagesMatchMiddleware | src/gateway.rs:286-353 | for a request that reaches the stages, refusal or forwarded request and limiter state equal those of the middleware if and only if the subject of a valid token is a header value |
| Gateway.BadSubjectGoesOn | src/gateway.rs:290-295 | on a request with such a subject the middleware panics before its limiter, and the pipeline limits it and hands it on as it is |
| Gateway.BadSubjectHappens | src/gateway.rs:290-295 | a request that reaches the stages with any subject that is no header value, and one such subject |
| Gateway.OutcomeTable | src/gateway.rs:252-404 | which requests end how, in terms of the route table, the preflight test, the middleware's result and the cache alone; only proxied requests send |
| Gateway.ResponseTable | src/gateway.rs:355-404 | a hit returns the cached response with the tag, a proxied request the response of the attempt that ends the loop, and an error the status of its kind |
| Answers.RequestIdMeaning | src/gateway.rs:240-249 | the generated id replaces the configured header when name and id can be sent, and nothing else changes |
| Answers.EarlyAnswers | src/gateway.rs:254-284 | exactly the requests without a route get the 404, and exactly the routed OPTIONS requests from an allowed origin the preflight answer; neither asks the limiter |
| Answers.RefusedExactly | src/gateway.rs:286-320 | a routed request that is no preflight is refused with 401 exactly when its path is guarded and no token it carries is accepted; the body says which it was |
| Answers.LimitedExactly | src/gateway.rs:322-353 | one that goes on is turned away with 429 exactly when one check of its key refuses, and the limiter is left as that check leaves it |
| Answers.HitExactly | src/gateway.rs:355-370 | past the limiter exactly a GET of a caching route whose key the backend answers is a hit, with the cached response and one header more |
| Answers.ProxiedExactly | src/gateway.rs:372-404 | any other request ends with what ends its attempts, one attempt without retry settings: that response as it is passed on, or 500 or 502 with the text of the error |
| Answers.ErrorMeaning | src/error.rs:4-60 | status and body of each error |
| Gateway.ForwardedUser | src/gateway.rs:286-299 | in the request handed on, `x-user-id` gives the subject of the token, whatever the client sent, exactly when the check names a user; every other name, and that name otherwise, gives what it gave before |
| Gateway.UpstreamReceives | src/proxy.rs:58-98 | what the upstream receives under any name: nothing under the filtered ones, the token's subject under `x-user-id` when the check names a user, else the last value the client sent; with the method and the target URL of the incoming request |
| Gateway.PipelineRefinesMiddleware | src/gateway.rs:286-353 | over every run with good subjects, stages and middleware give the same refusals, the same forwarded requests and the same limiter state; requests that do not reach the stages count for neither |
| Serving.AdmissionCompletes | src/gateway.rs:252-353 | the stretch up to the cache read, completed by the later stretches, is the whole pipeline |
| Serving.ServingIsSequential | src/gateway.rs:173-229 | every interleaving of requests in flight, some of them dropped at an await, is the sequential run in the order of the limiter stage: same limiter, and each finished request got what it gets there |
| Serving.ServingRefinesMiddleware | src/gateway.rs:286-353 | with good subjects the limiter is as the composed middleware leaves it, in every interleaving |
| Serving.StepShares | src/gateway.rs:300-404 | each step moves the counters by exactly what it adds to the share of its request |
| Serving.OutcomesAreConserved | src/gateway.rs:173-404 | at every point of every interleaving each arrived request is waiting, in service, ended in one of seven ways or dropped; the counters are the counts of the endings, the limiter was charged for exactly the requests that reached it, and sends stay within the allowed attempts |
| Serving.ChargesAreChecks | src/gateway.rs:343 | for every limiter that counts its checks, the charges are the checks made |

## Left out

- Forwarding.DecodesExactlyUnlessBelow: the empty path of an authority-form request target and the `*` of an asterisk-form one are not among the paths it speaks of.
- The regex crate beyond the emitted language: character classes, counted repetition, flags and its size limit are not part of this model; the parser refuses them.
- Sockets, TLS, hyper and tokio plumbing, Prometheus export, logging and configuration loading.
- The insides of the rate limiter, the cache backends, the JWT library, base64 and the HTTP client; in particular no token-bucket rate and no expiry of cached responses (the memory backend ignores it).
- `run`'s connection gauge: it goes up at an accept and down at the end of the spawned task.
- The pool's list says nothing about the number of live streams: a created connection leaves a record behind and nothing ties the two together.
- LoadBalancer.ProxyClient.SelectEndpoint: the choices by time and by address rest on the library's hasher, so only their range follows.
- The `usize` of the round-robin counter is taken as 64 bits wide.
- Retry.ExecuteWithRetry: a `Duration` is unbounded in the model; `BackoffOverflowsOnlyAfterAges` says when the source's product could overflow.
- Router.Router.MatchRoute: one lookup asks discovery at most once, so the answer is a function of the name for that lookup.
- Discovery.DiscoverySafety: `resolve` and `watch` share the cache across awaits, so they are cut into steps on a state value; the sequential form is the class. A direct caller of `health_check` is not a task of the step system.
- CacheMiddleware.TransparentExactlyWhenKeyDecides: the inner service is a function of the request. The source also calls it before the lookup, so an inner service with effects has them on a hit too.
- Per-route `auth_required` and `rate_limit_key`, rate-limit `paths`, `max_body_size` and `refresh_interval_secs` are configured but not consulted on these paths.
- A configured CORS list that is no header value makes the source panic; the model sends it as it is.
- Serving.ServingIsSequential: what discovery, the JWT check, the cache backend and the upstream answer one request is a parameter of that request, so two requests meet only in the limiter and the counters; the response cache they share is the subject of `CacheMiddleware.dfy`.
- Header names a `Connection` header nominates (section 7.6.1 of RFC 9110) are forwarded by the code and therefore by the model.
