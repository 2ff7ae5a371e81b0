/**
 Cache keys and the caching rule (src/cache/mod.rs). A key is held as the bytes it prints, one
 `char` below 256 per byte, as header values are.
 */
module CacheKey {
  import opened Http
  import opened Text
  import opened Utf8
  import opened Wrappers

  datatype KeyStrategy = UriOnly | UriWithMethod | UriWithHeaders(names: seq<string>)

  datatype CacheConfig = CacheConfig(
    enabled: bool,
    cacheableMethods: seq<string>,
    cacheableStatuses: seq<nat>,
    excludedPaths: seq<string>,
    keyStrategy: KeyStrategy)

  /// The key

  /** `String::from_utf8_lossy` of a header value. */
  function LossyText(value: string): string {
    Chars(Lossy(Bytes(value)))
  }

  /** Text the lossy conversion leaves alone. */
  predicate IsUtf8(value: string) {
    (forall i | 0 <= i < |value| :: value[i] as int < 256) && Valid(Bytes(value))
  }

  lemma LossyTextIdentity(value: string)
    requires IsUtf8(value)
    ensures LossyText(value) == value
  {
    LossyIdentity(Bytes(value));
  }

  function HeaderPart(headers: seq<Header>, name: string): string {
    match Get(headers, Lower(name))
    case Some(value) => ":" + LossyText(value)
    case None => ""
  }

  function PartOf(headers: seq<Header>): string -> string {
    name => HeaderPart(headers, name)
  }

  /** What each name adds, in the order of the list. */
  function AppendAll(part: string -> string, names: seq<string>): string {
    if names == [] then "" else AppendAll(part, names[..|names| - 1]) + part(names[|names| - 1])
  }

  function Key(strategy: KeyStrategy, req: Request): string {
    match strategy
    case UriOnly => "cache:" + Uri(req)
    case UriWithMethod => "cache:" + req.verb + ":" + Uri(req)
    case UriWithHeaders(names) => "cache:" + req.verb + ":" + Uri(req) + AppendAll(PartOf(req.headers), names)
  }

  lemma AppendNext(start: string, part: string -> string, names: seq<string>, k: nat)
    requires k < |names|
    ensures start + AppendAll(part, names[..k + 1]) == start + AppendAll(part, names[..k]) + part(names[k])
  {
    assert names[..k + 1][..k] == names[..k];
  }

  method PushHeader(key: string, headers: seq<Header>, name: string) returns (longer: string)
    ensures longer == key + HeaderPart(headers, name)
  {
    longer := key;
    var value := Get(headers, Lower(name));
    if value.Some? {
      longer := longer + [':'];
      longer := longer + LossyText(value.value);
    }
  }

  method PushHeaders(start: string, headers: seq<Header>, names: seq<string>) returns (key: string)
    ensures key == start + AppendAll(PartOf(headers), names)
  {
    key := start;
    ghost var part := PartOf(headers);
    for k := 0 to |names|
      invariant key == start + AppendAll(part, names[..k])
    {
      key := PushHeader(key, headers, names[k]);
      AppendNext(start, part, names, k);
    }
    assert names[..|names|] == names;
  }

  method BuildKey(strategy: KeyStrategy, req: Request) returns (key: string)
    ensures key == Key(strategy, req)
    ensures var uri := req.origin + req.path + (if req.query.Some? then "?" + req.query.value else "");
            && (strategy.UriOnly? ==> key == "cache:" + uri)
            && (strategy.UriWithMethod? ==> key == "cache:" + req.verb + ":" + uri)
            && (strategy.UriWithHeaders? ==> "cache:" + req.verb + ":" + uri <= key)
  {
    match strategy {
      case UriOnly => key := "cache:" + Uri(req);
      case UriWithMethod => key := "cache:" + req.verb + ":" + Uri(req);
      case UriWithHeaders(names) =>
        key := PushHeaders("cache:" + req.verb + ":" + Uri(req), req.headers, names);
    }
  }

  /// Decoding

  /** Text splits in one way at its first colon. */
  lemma FirstColon(p: string, s: string, q: string, t: string)
    requires ':' !in p && ':' !in q && p + ":" + s == q + ":" + t
    ensures p == q && s == t
  {
    var whole := p + ":" + s;
    assert whole[|p|] == ':' && whole[|q|] == ':';
    assert forall i | 0 <= i < |p| :: whole[i] == p[i];
    assert forall i | 0 <= i < |q| :: whole[i] == q[i];
    assert |p| == |q|;
    assert p == whole[..|p|] == q;
    assert s == whole[|p| + 1..] == t;
  }

  /** And in one way at its last. */
  lemma LastColon(p: string, s: string, q: string, t: string)
    requires ':' !in s && ':' !in t && p + ":" + s == q + ":" + t
    ensures p == q && s == t
  {
    var whole := p + ":" + s;
    assert whole[|p|] == ':' && whole[|q|] == ':';
    assert forall i | |p| < i < |whole| :: whole[i] == s[i - |p| - 1];
    assert forall i | |q| < i < |whole| :: whole[i] == t[i - |q| - 1];
    assert |p| == |q|;
    assert p == whole[..|p|] == q;
    assert s == whole[|p| + 1..] == t;
  }

  /** A method is a token (sections 9.1 and 5.6.2 of RFC 9110), so it holds no colon. */
  predicate IsMethod(verb: string) {
    ':' !in verb
  }

  lemma VerbAndUriDecode(a: string, u: string, b: string, v: string)
    requires IsMethod(a) && IsMethod(b)
    requires "cache:" + a + ":" + u == "cache:" + b + ":" + v
    ensures a == b && u == v
  {
    var x, y := a + ":" + u, b + ":" + v;
    assert "cache:" + a + ":" + u == "cache:" + x && "cache:" + b + ":" + v == "cache:" + y;
    assert x == ("cache:" + x)[6..] == ("cache:" + y)[6..] == y;
    FirstColon(a, u, b, v);
  }

  /** The same URI, piece by piece: what stands before the query, and the query. */
  ghost predicate SameUri(one: Request, other: Request) {
    one.origin + one.path == other.origin + other.path && one.query == other.query
  }

  /** The key of the URI alone says which URI it is, and nothing else. */
  lemma UriOnlyKeyDecodes(one: Request, other: Request)
    requires IsTarget(one) && IsTarget(other)
    ensures Key(UriOnly, one) == Key(UriOnly, other) <==> SameUri(one, other)
  {
    UriDecodes(one, other);
    assert Key(UriOnly, one)[6..] == Uri(one) && Key(UriOnly, other)[6..] == Uri(other);
  }

  lemma MethodUriKeyDecodes(one: Request, other: Request)
    requires IsMethod(one.verb) && IsMethod(other.verb)
    requires Key(UriWithMethod, one) == Key(UriWithMethod, other)
    ensures one.verb == other.verb && Uri(one) == Uri(other)
    ensures IsTarget(one) && IsTarget(other) ==> SameUri(one, other)
  {
    VerbAndUriDecode(one.verb, Uri(one), other.verb, Uri(other));
    if IsTarget(one) && IsTarget(other) { UriDecodes(one, other); }
  }

  /** The header is there, and its first value is well-formed text without a colon. */
  predicate Listed(v: Option<string>) {
    v.Some? && ':' !in v.value && IsUtf8(v.value)
  }

  predicate IsListed(headers: seq<Header>, name: string) {
    Listed(Get(headers, Lower(name)))
  }

  predicate AllListed(headers: seq<Header>, names: seq<string>) {
    forall k | 0 <= k < |names| :: IsListed(headers, names[k])
  }

  ghost predicate SameListed(a: seq<Header>, b: seq<Header>, names: seq<string>) {
    forall k | 0 <= k < |names| :: Get(a, Lower(names[k])) == Get(b, Lower(names[k]))
  }

  function Joined(values: seq<string>): string {
    if values == [] then "" else Joined(values[..|values| - 1]) + ":" + values[|values| - 1]
  }

  /** Joined colon-free values are read off from the right, one colon at a time. */
  lemma {:induction false} JoinedDecode(p: string, vs: seq<string>, q: string, ws: seq<string>)
    requires |vs| == |ws| && p + Joined(vs) == q + Joined(ws)
    requires forall k | 0 <= k < |vs| :: ':' !in vs[k] && ':' !in ws[k]
    ensures p == q && vs == ws
    decreases |vs|
  {
    if vs == [] {
      assert p + Joined(vs) == p && q + Joined(ws) == q;
    } else {
      var n := |vs| - 1;
      var x, y := p + Joined(vs[..n]), q + Joined(ws[..n]);
      assert p + Joined(vs) == x + ":" + vs[n] && q + Joined(ws) == y + ":" + ws[n];
      LastColon(x, vs[n], y, ws[n]);
      JoinedDecode(p, vs[..n], q, ws[..n]);
      assert vs == vs[..n] + [vs[n]] && ws == ws[..n] + [ws[n]];
    }
  }

  /** The first value of a header, empty when it is absent. */
  function ValueOf(headers: seq<Header>, name: string): string {
    match Get(headers, Lower(name))
    case Some(value) => value
    case None => ""
  }

  lemma ListedPart(headers: seq<Header>, name: string)
    requires IsListed(headers, name)
    ensures Get(headers, Lower(name)) == Some(ValueOf(headers, name)) && ':' !in ValueOf(headers, name)
    ensures PartOf(headers)(name) == ":" + ValueOf(headers, name)
  {
    LossyTextIdentity(ValueOf(headers, name));
  }

  lemma {:induction false} PartsAreJoined(part: string -> string, names: seq<string>, values: seq<string>)
    requires |names| == |values| && forall k | 0 <= k < |names| :: part(names[k]) == ":" + values[k]
    ensures AppendAll(part, names) == Joined(values)
    decreases |names|
  {
    if names != [] {
      var n := |names| - 1;
      PartsAreJoined(part, names[..n], values[..n]);
      assert AppendAll(part, names) == Joined(values[..n]) + (":" + values[n]);
    }
  }

  /** The values of the listed headers, and that the key ends in them. */
  lemma ListedValues(headers: seq<Header>, names: seq<string>) returns (values: seq<string>)
    requires AllListed(headers, names)
    ensures |values| == |names| && AppendAll(PartOf(headers), names) == Joined(values)
    ensures forall k | 0 <= k < |names| :: Get(headers, Lower(names[k])) == Some(values[k]) && ':' !in values[k]
  {
    values := seq(|names|, k requires 0 <= k < |names| => ValueOf(headers, names[k]));
    forall k | 0 <= k < |names|
      ensures PartOf(headers)(names[k]) == ":" + values[k]
      ensures Get(headers, Lower(names[k])) == Some(values[k]) && ':' !in values[k]
    {
      assert IsListed(headers, names[k]);
      ListedPart(headers, names[k]);
    }
    PartsAreJoined(PartOf(headers), names, values);
  }

  /** With the listed headers present, the key determines the method, the URI and all their values. */
  lemma HeaderKeyDecodes(names: seq<string>, one: Request, other: Request)
    requires IsMethod(one.verb) && IsMethod(other.verb)
    requires AllListed(one.headers, names) && AllListed(other.headers, names)
    requires Key(UriWithHeaders(names), one) == Key(UriWithHeaders(names), other)
    ensures one.verb == other.verb && Uri(one) == Uri(other) && SameListed(one.headers, other.headers, names)
    ensures IsTarget(one) && IsTarget(other) ==> SameUri(one, other)
  {
    var vs := ListedValues(one.headers, names);
    var ws := ListedValues(other.headers, names);
    JoinedDecode("cache:" + one.verb + ":" + Uri(one), vs, "cache:" + other.verb + ":" + Uri(other), ws);
    VerbAndUriDecode(one.verb, Uri(one), other.verb, Uri(other));
    if IsTarget(one) && IsTarget(other) { UriDecodes(one, other); }
  }

  /// The caching rule

  predicate IsExcluded(config: CacheConfig, path: string) {
    exists i | 0 <= i < |config.excludedPaths| :: config.excludedPaths[i] <= path
  }

  predicate ShouldCache(config: CacheConfig, verb: string, path: string, status: nat) {
    && config.enabled
    && (exists i | 0 <= i < |config.cacheableMethods| :: EqIgnoreAsciiCase(config.cacheableMethods[i], verb))
    && status in config.cacheableStatuses
    && !IsExcluded(config, path)
  }

  /** In full: caching is on, method (in any case) and status are listed, and no excluded path starts the path. */
  lemma ShouldCacheMeaning(config: CacheConfig, verb: string, path: string, status: nat)
    ensures ShouldCache(config, verb, path, status)
       <==> && config.enabled
            && (exists m | m in config.cacheableMethods :: Lower(m) == Lower(verb))
            && (exists s | s in config.cacheableStatuses :: s == status)
            && forall p | p in config.excludedPaths :: !(p <= path)
  {
    if m :| m in config.cacheableMethods && Lower(m) == Lower(verb) {
      var i :| 0 <= i < |config.cacheableMethods| && config.cacheableMethods[i] == m;
      assert EqIgnoreAsciiCase(config.cacheableMethods[i], verb);
    }
    if i :| 0 <= i < |config.cacheableMethods| && EqIgnoreAsciiCase(config.cacheableMethods[i], verb) {
      assert config.cacheableMethods[i] in config.cacheableMethods;
    }
    if i :| 0 <= i < |config.excludedPaths| && config.excludedPaths[i] <= path {
      assert config.excludedPaths[i] in config.excludedPaths;
    }
  }

  /** What the middleware asks: it passes a blank `GET /` in place of the request. */
  predicate ShouldStore(config: CacheConfig, status: nat) {
    ShouldCache(config, "GET", "/", status)
  }

  predicate RootExcluded(config: CacheConfig) {
    "" in config.excludedPaths || "/" in config.excludedPaths
  }

  /** So of the excluded paths only "" and "/" have an effect, and they exclude every path. */
  lemma ExclusionsSeeOnlyTheRoot(config: CacheConfig, verb: string, path: string, status: nat)
    requires EqIgnoreAsciiCase(verb, "GET")
    requires ShouldCache(config.(excludedPaths := []), verb, path, status)
    ensures ShouldStore(config, status) <==> !RootExcluded(config)
  {
    forall i | 0 <= i < |config.excludedPaths|
      ensures config.excludedPaths[i] <= "/" <==> config.excludedPaths[i] == "" || config.excludedPaths[i] == "/"
    {
      var p := config.excludedPaths[i];
      if p <= "/" && p != "" { assert |p| == 1 && p[0] == "/"[0]; }
    }
    var k :| 0 <= k < |config.cacheableMethods| && EqIgnoreAsciiCase(config.cacheableMethods[k], verb);
    assert EqIgnoreAsciiCase(config.cacheableMethods[k], "GET");
  }

  /** A response under an excluded path that is stored. */
  lemma ExcludedPathIsStored()
    ensures var config := CacheConfig(true, ["GET"], [200], ["/admin/"], UriOnly);
            ShouldStore(config, 200) && !ShouldCache(config, "GET", "/admin/x", 200)
  {
    var config := CacheConfig(true, ["GET"], [200], ["/admin/"], UriOnly);
    assert config.cacheableMethods[0] == "GET" && config.excludedPaths[0] <= "/admin/x";
    assert ShouldCache(config.(excludedPaths := []), "GET", "/admin/x", 200);
    ExclusionsSeeOnlyTheRoot(config, "GET", "/admin/x", 200);
  }

  /** One response is stored as documented exactly when its path is excluded just in case the root is. */
  lemma ExclusionHonouredExactly(config: CacheConfig, path: string, status: nat)
    requires ShouldCache(config.(excludedPaths := []), "GET", path, status)
    ensures ShouldStore(config, status) == ShouldCache(config, "GET", path, status)
       <==> (IsExcluded(config, path) <==> RootExcluded(config))
  {
    ExclusionsSeeOnlyTheRoot(config, "GET", path, status);
  }

  lemma PrefixOfAbsolute(p: string, path: string)
    requires "/" <= path && p <= path && p != ""
    ensures "/" <= p
  {
  }

  /** And every response is, exactly when the root is excluded or no excluded path starts with a slash. */
  lemma AllExclusionsHonouredExactly(config: CacheConfig, status: nat)
    requires ShouldCache(config.(excludedPaths := []), "GET", "/", status)
    ensures (forall path: string | "/" <= path ::
               ShouldStore(config, status) == ShouldCache(config, "GET", path, status))
       <==> RootExcluded(config) || forall p: string | p in config.excludedPaths :: !("/" <= p)
  {
    var paths := config.excludedPaths;
    forall path: string | "/" <= path
      ensures ShouldStore(config, status) == ShouldCache(config, "GET", path, status)
         <==> (IsExcluded(config, path) <==> RootExcluded(config))
    {
      ExclusionHonouredExactly(config, path, status);
    }
    if RootExcluded(config) {
      forall path: string | "/" <= path ensures IsExcluded(config, path) {
        var k :| 0 <= k < |paths| && (paths[k] == "" || paths[k] == "/");
        assert paths[k] <= path;
      }
    } else if p: string :| p in paths && "/" <= p {
      var k :| 0 <= k < |paths| && paths[k] == p;
      assert paths[k] <= p && IsExcluded(config, p);
    } else {
      forall path: string | "/" <= path ensures !IsExcluded(config, path) {
        forall k | 0 <= k < |paths| ensures !(paths[k] <= path) {
          assert paths[k] in paths;
          if paths[k] <= path { PrefixOfAbsolute(paths[k], path); }
        }
      }
    }
  }
}
