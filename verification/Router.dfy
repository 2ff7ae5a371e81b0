/** Route globs, their compilation to regular expressions, and the route table (src/router.rs). */
module Router {
  import opened Config
  import opened Http
  import opened RegexSyntax
  import opened Text
  import opened Wrappers

  /// The plain reading of a glob

  predicate IsWildcard(path: string) {
    EndsWith(path, "/**") || EndsWith(path, "/*")
  }

  /** A wildcard without its stars and the slash before them; any other path as it is. */
  function Base(path: string): string {
    if EndsWith(path, "/**") then path[..|path| - 3]
    else if EndsWith(path, "/*") then path[..|path| - 2]
    else path
  }

  predicate AtOrUnder(base: string, text: string) {
    text == base || base + "/" <= text
  }

  /** The rule a route path stands for; `.` is why text below a base must hold no newline. */
  predicate Covers(path: string, text: string) {
    if IsWildcard(path) then
      AtOrUnder(Base(path), text) && '\n' !in text[|Base(path)|..]
    else text == path
  }

  /// Compilation

  const SUBTREE := "(/.*)?$"

  function Pattern(path: string): string {
    if EndsWith(path, "/**") then "^" + Escape(path[..|path| - 3]) + SUBTREE
    else if EndsWith(path, "/*") then "^" + Escape(path[..|path| - 2]) + SUBTREE
    else "^" + Escape(path) + "$"
  }

  const SUBTREE_REGEX :=
    Concat(Optional(BELOW), Concat(TextEnd, Empty))

  const BELOW := Concat(Literal('/'), Concat(ZeroOrMore(AnyChar), Empty))

  lemma ParseBelow()
    ensures ParseAlternation("/.*)?$") == Parsed(BELOW, ")?$")
  {
    var s: string := "/.*)?$";
    assert s[1..] == ".*)?$";
    assert ParseRepeated(s) == Parsed(Literal('/'), s[1..]) by {
      assert ParseAtom(s) == Parsed(Literal('/'), s[1..]);
    }
    var t: string := s[1..];
    assert t[1..] == "*)?$";
    assert t[1..][1..] == ")?$";
    assert ParseRepeated(t) == Parsed(ZeroOrMore(AnyChar), ")?$") by {
      assert ParseAtom(t) == Parsed(AnyChar, t[1..]);
      assert Postfix(ZeroOrMore(AnyChar), ")?$") == Parsed(ZeroOrMore(AnyChar), ")?$");
    }
    assert ParseSequence(")?$") == Parsed(Empty, ")?$");
  }

  lemma ParseSubtree()
    ensures ParseSequence(SUBTREE) == Parsed(SUBTREE_REGEX, "")
  {
    var s: string := SUBTREE;
    assert s[1..] == "/.*)?$";
    ParseBelow();
    var rest: string := ")?$";
    assert rest[1..] == "?$" && rest[1..][1..] == "$";
    assert ParseAtom(s) == Parsed(BELOW, "?$");
    ParseEnd();
    assert Postfix(BELOW, "?$") == Parsed(Optional(BELOW), "$") by {
      assert Postfix(Optional(BELOW), "$") == Parsed(Optional(BELOW), "$");
    }
  }

  lemma ParseEnd()
    ensures ParseSequence("$") == Parsed(Concat(TextEnd, Empty), "")
  {
  }

  lemma ParseStart(rest: string)
    requires rest != [] && !IsRepetition(rest[0])
    ensures ParseRepeated(['^'] + rest) == Parsed(TextStart, rest)
  {
    assert (['^'] + rest)[1..] == rest;
    assert ParseAtom(['^'] + rest) == Parsed(TextStart, rest);
  }

  lemma ParseFirst(s: string, a: Regex, rest: string, r: Regex)
    requires s != [] && s[0] != '|' && s[0] != ')'
    requires ParseRepeated(s) == Parsed(a, rest) && ParseSequence(rest) == Parsed(r, "")
    ensures Parse(s) == Some(Concat(a, r))
  {
    assert ParseSequence(s) == Parsed(Concat(a, r), "");
  }

  lemma EscapedStart(base: string, ending: string)
    requires ending != [] && !IsRepetition(ending[0])
    ensures Escape(base) + ending != [] && !IsRepetition((Escape(base) + ending)[0])
  {
  }

  lemma ParseAfterStart(rest: string, r: Regex)
    requires rest != [] && !IsRepetition(rest[0]) && ParseSequence(rest) == Parsed(r, "")
    ensures Parse(['^'] + rest) == Some(Concat(TextStart, r))
  {
    ParseStart(rest);
    ParseFirst(['^'] + rest, TextStart, rest, r);
  }

  lemma StartAssociates(escaped: string, ending: string)
    ensures "^" + escaped + ending == ['^'] + (escaped + ending)
  {
  }

  /** `^`, an escaped base and a parsable ending parse to the anchored literal. */
  lemma ParseAnchored(base: string, ending: string, r: Regex)
    requires ending != [] && !IsRepetition(ending[0])
    requires ParseSequence(ending) == Parsed(r, "")
    ensures Parse("^" + Escape(base) + ending) == Some(Concat(TextStart, Literals(base, r)))
  {
    EscapedStart(base, ending);
    ParseEscaped(base, ending, r, "");
    ParseAfterStart(Escape(base) + ending, Literals(base, r));
    StartAssociates(Escape(base), ending);
  }

  predicate MatchesFrom(r: Regex, text: string, i: nat)
    requires i <= |text|
  {
    exists j: nat | i <= j <= |text| :: Matches(r, text, i, j)
  }

  /** Searching for the anchored literal is matching the rest from the end of the base. */
  lemma SearchAnchored(base: string, r: Regex, text: string)
    ensures IsMatch(Concat(TextStart, Literals(base, r)), text)
       <==> base <= text && MatchesFrom(r, text, |base|)
  {
    var whole := Concat(TextStart, Literals(base, r));
    forall i: nat, j: nat | i <= j <= |text|
      ensures Matches(whole, text, i, j)
         <==> i == 0 && |base| <= j && base <= text && Matches(r, text, |base|, j)
    {
      MatchesLiterals(base, r, text, 0, j);
      assert Matches(TextStart, text, 0, 0);
      if |base| <= |text| {
        assert text[0..|base|] == base <==> base <= text;
      }
    }
    if base <= text && MatchesFrom(r, text, |base|) {
      var j: nat :| |base| <= j <= |text| && Matches(r, text, |base|, j);
      assert Matches(whole, text, 0, j);
    }
  }

  lemma MatchesEnd(text: string, i: nat, j: nat)
    requires i <= j <= |text|
    ensures Matches(Concat(TextEnd, Empty), text, i, j) <==> i == j == |text|
  {
    assert Matches(Empty, text, j, j);
  }

  lemma MatchesSubtree(text: string, i: nat, j: nat)
    requires i <= j <= |text|
    ensures Matches(SUBTREE_REGEX, text, i, j)
       <==> j == |text| && (i == |text| || (text[i] == '/' && '\n' !in text[i..]))
  {
    var body := BELOW;
    forall k: nat | i <= k <= j
      ensures Matches(body, text, i, k) <==> i < k && text[i] == '/' && '\n' !in text[i..k]
    {
      forall m: nat | i <= m <= k
        ensures Matches(Concat(ZeroOrMore(AnyChar), Empty), text, m, k) <==> '\n' !in text[m..k]
      {
        MatchesAnyStar(text, m, k);
        assert Matches(Empty, text, k, k);
      }
      if i < k {
        assert Matches(Literal('/'), text, i, i + 1) <==> text[i] == '/';
        assert text[i..k] == [text[i]] + text[i + 1..k];
      }
    }
    forall k: nat | i <= k <= j
      ensures Matches(Concat(TextEnd, Empty), text, k, j) <==> k == j == |text|
    {
      MatchesEnd(text, k, j);
    }
    if j == |text| {
      assert text[i..j] == text[i..];
      assert Matches(Concat(TextEnd, Empty), text, j, j);
      assert Matches(Optional(body), text, i, j) <==> i == j || Matches(body, text, i, j);
    }
  }

  lemma SubtreeFrom(base: string, text: string)
    requires base <= text
    ensures MatchesFrom(SUBTREE_REGEX, text, |base|)
       <==> AtOrUnder(base, text) && '\n' !in text[|base|..]
  {
    forall j: nat | |base| <= j <= |text|
      ensures Matches(SUBTREE_REGEX, text, |base|, j)
         <==> j == |text| && (|base| == |text| || (text[|base|] == '/' && '\n' !in text[|base|..]))
    {
      MatchesSubtree(text, |base|, j);
    }
    assert MatchesFrom(SUBTREE_REGEX, text, |base|) <==> Matches(SUBTREE_REGEX, text, |base|, |text|);
    if |base| < |text| {
      assert base + "/" <= text <==> text[|base|] == '/';
    } else {
      assert text == base;
    }
  }

  lemma EndFrom(base: string, text: string)
    requires base <= text
    ensures MatchesFrom(Concat(TextEnd, Empty), text, |base|) <==> text == base
  {
    forall j: nat | |base| <= j <= |text|
      ensures Matches(Concat(TextEnd, Empty), text, |base|, j) <==> |base| == j == |text|
    {
      MatchesEnd(text, |base|, j);
    }
    assert MatchesFrom(Concat(TextEnd, Empty), text, |base|)
      <==> Matches(Concat(TextEnd, Empty), text, |base|, |text|);
  }

  /**
   Compiler correctness: the emitted text of every route path is a regular expression, and
   searching with it accepts exactly what the plain reading covers.
   */
  lemma CompiledMeansCovers(path: string, text: string)
    ensures Parse(Pattern(path)).Some?
    ensures IsMatch(Parse(Pattern(path)).value, text) <==> Covers(path, text)
  {
    var base := Base(path);
    if IsWildcard(path) {
      ParseSubtree();
      ParseAnchored(base, SUBTREE, SUBTREE_REGEX);
      SearchAnchored(base, SUBTREE_REGEX, text);
      if base <= text { SubtreeFrom(base, text); }
    } else {
      ParseEnd();
      ParseAnchored(base, "$", Concat(TextEnd, Empty));
      SearchAnchored(base, Concat(TextEnd, Empty), text);
      if base <= text { EndFrom(base, text); }
    }
  }

  /** The compiled form of a path accepts a text. */
  ghost predicate CompiledAccepts(path: string, text: string) {
    Parse(Pattern(path)).Some? && IsMatch(Parse(Pattern(path)).value, text)
  }

  /** The same, form by form: the two endings of a wildcard, and any other path. */
  lemma CompiledByForm(base: string, text: string)
    ensures CompiledAccepts(base + "/**", text)
       <==> text == base || (base + "/" <= text && '\n' !in text[|base|..])
    ensures CompiledAccepts(base + "/*", text)
       <==> text == base || (base + "/" <= text && '\n' !in text[|base|..])
    ensures !EndsWith(base, "/**") && !EndsWith(base, "/*") ==> (CompiledAccepts(base, text) <==> text == base)
  {
    WildcardBase(base);
    CompiledWildcard(base + "/**", base, text);
    CompiledWildcard(base + "/*", base, text);
    CompiledMeansCovers(base, text);
  }

  lemma CompiledWildcard(path: string, base: string, text: string)
    requires IsWildcard(path) && Base(path) == base
    ensures CompiledAccepts(path, text) <==> text == base || (base + "/" <= text && '\n' !in text[|base|..])
  {
    CompiledMeansCovers(path, text);
  }

  lemma EndsAppend(base: string, suffix: string)
    ensures EndsWith(base + suffix, suffix) && (base + suffix)[..|base|] == base
  {
  }

  lemma SecondLast(s: string, suffix: string, c: char)
    requires |s| >= 2 && |suffix| >= 2 && s[|s| - 2] == c && suffix[|suffix| - 2] != c
    ensures !EndsWith(s, suffix)
  {
    if |suffix| <= |s| { assert s[|s| - |suffix|..][|suffix| - 2] == c; }
  }

  lemma WildcardBase(base: string)
    ensures IsWildcard(base + "/**") && Base(base + "/**") == base
    ensures IsWildcard(base + "/*") && Base(base + "/*") == base
  {
    EndsAppend(base, "/**");
    EndsAppend(base, "/*");
    SecondLast(base + "/*", "/**", '/');
  }

  /// The route table

  type Discovery = string -> Result<string, GatewayError>

  datatype RouteEntry = RouteEntry(config: RouteConfig, pathRegex: Regex)

  datatype RouteMatch = RouteMatch(
    routeId: string,
    upstreamUrl: string,
    stripPrefix: Option<string>,
    timeoutMs: Option<nat>,
    cacheEnabled: bool,
    authRequired: bool,
    retry: Option<RetryConfig>)

  predicate AllowsMethod(config: RouteConfig, verb: string) {
    match config.methods
    case Some(methods) => exists i | 0 <= i < |methods| :: EqIgnoreAsciiCase(methods[i], verb)
    case None => true
  }

  predicate Accepts(config: RouteConfig, req: Request) {
    Covers(config.path, req.path) && AllowsMethod(config, req.verb)
  }

  /** One lookup asks the discovery service at most once, so its answer is a function here. */
  function ResolveUpstream(upstream: UpstreamConfig, discovery: Option<Discovery>): Result<string, GatewayError> {
    match upstream
    case Static(url) => Success(url)
    case Service(name, _) =>
      (match discovery
       case Some(resolve) => resolve(name)
       case None => Failure(DiscoveryError("Service discovery not configured")))
    case LoadBalance(endpoints, _) =>
      if endpoints == [] then Failure(UpstreamUnavailable) else Success(endpoints[0])
  }

  /** What a selected route answers: nothing when its upstream does not resolve. */
  function Answer(config: RouteConfig, discovery: Option<Discovery>): Option<RouteMatch> {
    match ResolveUpstream(config.upstream, discovery)
    case Failure(_) => None
    case Success(url) => Some(RouteMatch(
      config.id, url, config.stripPrefix, config.timeoutMs,
      config.cacheEnabled == Some(true), config.authRequired == Some(true), config.retry))
  }

  /** The table read with plain rules: the first accepting route answers, whatever it answers. */
  function Route(routes: seq<RouteConfig>, req: Request, discovery: Option<Discovery>): Option<RouteMatch> {
    if routes == [] then None
    else if Accepts(routes[0], req) then Answer(routes[0], discovery)
    else Route(routes[1..], req, discovery)
  }

  /** Two routes that differ at most in the strategy of a load-balanced upstream. */
  predicate SameButStrategy(one: RouteConfig, other: RouteConfig) {
    && one.(upstream := other.upstream) == other
    && (one.upstream == other.upstream
        || (one.upstream.LoadBalance? && other.upstream.LoadBalance?
            && one.upstream.endpoints == other.upstream.endpoints))
  }

  /** The configured strategies change no answer of the router. */
  lemma {:induction false} StrategiesAreIgnored(one: seq<RouteConfig>, other: seq<RouteConfig>, req: Request,
                                                discovery: Option<Discovery>)
    requires |one| == |other| && forall k | 0 <= k < |one| :: SameButStrategy(one[k], other[k])
    ensures Route(one, req, discovery) == Route(other, req, discovery)
  {
    if one != [] {
      assert SameButStrategy(one[0], other[0]);
      forall k | 0 <= k < |one| - 1 ensures SameButStrategy(one[1..][k], other[1..][k]) {
        assert SameButStrategy(one[k + 1], other[k + 1]);
      }
      StrategiesAreIgnored(one[1..], other[1..], req, discovery);
    }
  }

  /** The route at `k` takes the request by path and method, and none before it does. */
  ghost predicate IsLowest(routes: seq<RouteConfig>, req: Request, k: nat) {
    k < |routes| && Takes(routes[k], req) && forall i | 0 <= i < k :: !Takes(routes[i], req)
  }

  /** The path is covered, and the method is in the route's list whatever its letter case, if there is a list. */
  ghost predicate Takes(config: RouteConfig, req: Request) {
    && Covers(config.path, req.path)
    && (config.methods.Some? ==>
          exists i | 0 <= i < |config.methods.value| :: Lower(config.methods.value[i]) == Lower(req.verb))
  }

  lemma TakesIsAccepts(config: RouteConfig, req: Request)
    ensures Accepts(config, req) <==> Takes(config, req)
  {
  }

  lemma {:induction false} LowestAnswers(routes: seq<RouteConfig>, req: Request, discovery: Option<Discovery>, k: nat)
    requires IsLowest(routes, req, k)
    ensures Route(routes, req, discovery) == Answer(routes[k], discovery)
  {
    TakesIsAccepts(routes[0], req);
    if k > 0 {
      assert routes[1..][k - 1] == routes[k];
      forall i | 0 <= i < k - 1 ensures !Takes(routes[1..][i], req) {
        assert routes[1..][i] == routes[i + 1];
      }
      LowestAnswers(routes[1..], req, discovery, k - 1);
    }
  }

  /**
   The lowest route that takes the request decides. A static upstream gives its URL, a load-balanced
   one the first of its endpoints, a service what discovery answers for its name; where that gives
   nothing, there is no answer and no later route is asked. All else in the answer is the route's own.
   */
  lemma LowestRouteDecides(routes: seq<RouteConfig>, req: Request, discovery: Option<Discovery>, k: nat)
    requires IsLowest(routes, req, k)
    ensures var found, config := Route(routes, req, discovery), routes[k];
            && (match config.upstream
                case Static(url) => found.Some? && found.value.upstreamUrl == url
                case LoadBalance(endpoints, _) =>
                  if endpoints == [] then found == None
                  else found.Some? && found.value.upstreamUrl == endpoints[0]
                case Service(name, _) =>
                  if discovery.Some? && discovery.value(name).Success? then
                    found.Some? && found.value.upstreamUrl == discovery.value(name).value
                  else found == None)
            && (found.Some? ==>
                  && found.value.routeId == config.id && found.value.stripPrefix == config.stripPrefix
                  && found.value.timeoutMs == config.timeoutMs && found.value.retry == config.retry
                  && (found.value.cacheEnabled <==> config.cacheEnabled.Some? && config.cacheEnabled.value)
                  && (found.value.authRequired <==> config.authRequired.Some? && config.authRequired.value))
  {
    LowestAnswers(routes, req, discovery, k);
  }

  /** Without such a route there is no answer. */
  lemma {:induction false} NoRouteNoAnswer(routes: seq<RouteConfig>, req: Request, discovery: Option<Discovery>)
    requires forall k | 0 <= k < |routes| :: !Takes(routes[k], req)
    ensures Route(routes, req, discovery) == None
  {
    if routes != [] {
      TakesIsAccepts(routes[0], req);
      forall k | 0 <= k < |routes| - 1 ensures !Takes(routes[1..][k], req) {
        assert routes[1..][k] == routes[k + 1];
      }
      NoRouteNoAnswer(routes[1..], req, discovery);
    }
  }

  datatype Router = Router(routes: seq<RouteEntry>, discovery: Option<Discovery>) {

    /** Every entry's regular expression is the compiled form of its own path. */
    ghost predicate Valid() {
      forall e | e in routes :: Parse(Pattern(e.config.path)) == Some(e.pathRegex)
    }

    function Configs(): (r: seq<RouteConfig>)
      ensures |r| == |routes| && forall i | 0 <= i < |r| :: r[i] == routes[i].config
    {
      seq(|routes|, i requires 0 <= i < |routes| => routes[i].config)
    }

    method MatchRoute(req: Request) returns (found: Option<RouteMatch>)
      requires Valid()
      ensures found == Route(Configs(), req, discovery)
    {
      var configs := Configs();
      for k := 0 to |routes|
        invariant Route(configs, req, discovery) == Route(configs[k..], req, discovery)
      {
        var entry := routes[k];
        assert entry in routes;
        CompiledMeansCovers(entry.config.path, req.path);
        if !IsMatch(entry.pathRegex, req.path) {
          continue;
        }
        if entry.config.methods.Some? {
          var methods := entry.config.methods.value;
          if !exists i | 0 <= i < |methods| :: EqIgnoreAsciiCase(methods[i], req.verb) {
            continue;
          }
        }
        var upstream := ResolveUpstream(entry.config.upstream, discovery);
        if upstream.Failure? {
          return None;
        }
        return Some(RouteMatch(
          entry.config.id, upstream.value, entry.config.stripPrefix, entry.config.timeoutMs,
          entry.config.cacheEnabled == Some(true), entry.config.authRequired == Some(true),
          entry.config.retry));
      }
      return None;
    }
  }

  /** Building the table never fails, keeps the configured order, and compiles every path. */
  method New(routes: seq<RouteConfig>) returns (router: Result<Router, GatewayError>)
    ensures router.Success?
    ensures router.value.Valid() && router.value.Configs() == routes && router.value.discovery == None
  {
    var entries: seq<RouteEntry> := [];
    for k := 0 to |routes|
      invariant |entries| == k
      invariant forall i | 0 <= i < k :: entries[i].config == routes[i]
      invariant forall e | e in entries :: Parse(Pattern(e.config.path)) == Some(e.pathRegex)
    {
      var path := routes[k].path;
      var pattern;
      if EndsWith(path, "/**") {
        pattern := "^" + Escape(path[..|path| - 3]) + SUBTREE;
      } else if EndsWith(path, "/*") {
        pattern := "^" + Escape(path[..|path| - 2]) + SUBTREE;
      } else {
        pattern := "^" + Escape(path) + "$";
      }
      var regex := Parse(pattern);
      CompiledMeansCovers(path, "");
      if regex == None {
        return Failure(ConfigError("Invalid route pattern"));
      }
      entries := entries + [RouteEntry(routes[k], regex.value)];
    }
    return Success(Router(entries, None));
  }

  /// Shadowed routes

  /** A wildcard accepts every path another route accepts exactly when that route's base is at or under its own. */
  lemma ShadowedExactlyUnderBase(earlier: string, later: string)
    requires IsWildcard(earlier) && '\n' !in later
    ensures AtOrUnder(Base(earlier), Base(later))
       <==> forall text | '\n' !in text :: Covers(later, text) ==> Covers(earlier, text)
  {
    var b, c := Base(earlier), Base(later);
    if AtOrUnder(b, c) {
      forall text | '\n' !in text && Covers(later, text) ensures Covers(earlier, text) {
        CoversUnder(earlier, later, text);
      }
    } else {
      assert '\n' !in c && Covers(later, c) && !Covers(earlier, c);
    }
  }

  lemma CoversUnder(earlier: string, later: string, text: string)
    requires IsWildcard(earlier) && AtOrUnder(Base(earlier), Base(later))
    requires '\n' !in text && Covers(later, text)
    ensures Covers(earlier, text)
  {
  }

  /** Deleting a route under an earlier wildcard with no method filter changes no answer. */
  lemma ShadowedRouteIsDead(routes: seq<RouteConfig>, i: nat, j: nat, req: Request, discovery: Option<Discovery>)
    requires i < j < |routes|
    requires IsWildcard(routes[i].path) && routes[i].methods == None
    requires AtOrUnder(Base(routes[i].path), Base(routes[j].path))
    requires IsPath(req.path)
    ensures Route(routes[..j] + routes[j + 1..], req, discovery) == Route(routes, req, discovery)
  {
    if Covers(routes[j].path, req.path) {
      CoversUnder(routes[i].path, routes[j].path, req.path);
    }
    assert Accepts(routes[j], req) ==> Accepts(routes[i], req);
    DropUnselected(routes, j, req, discovery);
  }

  lemma {:induction false} DropUnselected(routes: seq<RouteConfig>, j: nat, req: Request, discovery: Option<Discovery>)
    requires j < |routes|
    requires Accepts(routes[j], req) ==> exists i | 0 <= i < j :: Accepts(routes[i], req)
    ensures Route(routes[..j] + routes[j + 1..], req, discovery) == Route(routes, req, discovery)
  {
    var rest := routes[..j] + routes[j + 1..];
    if j == 0 {
      assert rest == routes[1..];
    } else if !Accepts(routes[0], req) {
      var tail := routes[1..];
      if Accepts(tail[j - 1], req) {
        var i :| 0 <= i < j && Accepts(routes[i], req);
        assert tail[i - 1] == routes[i];
      }
      DropUnselected(tail, j - 1, req, discovery);
      assert rest[1..] == tail[..j - 1] + tail[j..];
    }
  }
}
