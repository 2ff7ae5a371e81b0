/** The request sent upstream and the response sent back (src/proxy.rs, `proxy`). */
module Forwarding {
  import opened Http
  import opened Text
  import opened Wrappers
  import Router

  /// The target URL

  function TargetPath(stripPrefix: Option<string>, path: string): string {
    match stripPrefix
    case Some(prefix) => if prefix <= path then path[|prefix|..] else path
    case None => path
  }

  function TargetUrl(route: Router.RouteMatch, req: Request): string {
    route.upstreamUrl + TargetPath(route.stripPrefix, req.path) + QuerySuffix(req.query)
  }

  /** Stripping a wildcard's own base loses nothing, and leaves nothing or an absolute path. */
  lemma StripRecomposes(glob: string, path: string)
    requires Router.IsWildcard(glob) && Router.Covers(glob, path)
    ensures var target := TargetPath(Some(Router.Base(glob)), path);
            path == Router.Base(glob) + target && (target == "" || target[0] == '/')
  {
  }

  /**
   Two paths are sent to the same target path exactly when they are equal, or one is the
   prefix put before the other and only that one is stripped.
   */
  lemma TargetPathCollision(prefix: string, p: string, q: string)
    ensures TargetPath(Some(prefix), p) == TargetPath(Some(prefix), q)
       <==> p == q || (!(prefix <= q) && p == prefix + q) || (!(prefix <= p) && q == prefix + p)
  {
  }

  /** What the target URL prints after the upstream's own URL. */
  function AfterUpstream(route: Router.RouteMatch, req: Request): string {
    TargetPath(route.stripPrefix, req.path) + QuerySuffix(req.query)
  }

  lemma TargetUrlSplits(route: Router.RouteMatch, req: Request)
    ensures TargetUrl(route, req)[|route.upstreamUrl|..] == AfterUpstream(route, req)
  {
  }

  /** The target URL, for a path that has the prefix and one that has not, or a route without one. */
  lemma TargetUrlMeaning(route: Router.RouteMatch, req: Request, rest: string)
    ensures var query := if req.query.Some? then "?" + req.query.value else "";
            && (route.stripPrefix.Some? && req.path == route.stripPrefix.value + rest ==>
                  TargetUrl(route, req) == route.upstreamUrl + rest + query)
            && (route.stripPrefix == None || !(route.stripPrefix.value <= req.path) ==>
                  TargetUrl(route, req) == route.upstreamUrl + req.path + query)
  {
  }

  lemma StrippedHoldsNoQuery(prefix: Option<string>, path: string)
    requires IsPath(path)
    ensures '?' !in TargetPath(prefix, path)
  {
  }

  /** Two requests of one route have the same target URL exactly when target path and query are the same. */
  lemma TargetUrlDecodes(route: Router.RouteMatch, one: Request, other: Request)
    requires IsPath(one.path) && IsPath(other.path)
    ensures TargetUrl(route, one) == TargetUrl(route, other)
       <==> && TargetPath(route.stripPrefix, one.path) == TargetPath(route.stripPrefix, other.path)
            && one.query == other.query
  {
    TargetUrlSplits(route, one);
    TargetUrlSplits(route, other);
    StrippedHoldsNoQuery(route.stripPrefix, one.path);
    StrippedHoldsNoQuery(route.stripPrefix, other.path);
    if TargetUrl(route, one) == TargetUrl(route, other) {
      QuerySplits(TargetPath(route.stripPrefix, one.path), one.query,
                  TargetPath(route.stripPrefix, other.path), other.query);
    }
  }

  /** A request path that reaches a route: absolute, and covered by its glob. */
  predicate Reaches(glob: string, path: string) {
    IsPath(path) && "/" <= path && Router.Covers(glob, path)
  }

  /** Among the requests that reach a route, the target URL determines the path and the query. */
  ghost predicate Decodes(glob: string, route: Router.RouteMatch) {
    forall one: Request, other: Request |
      Reaches(glob, one.path) && Reaches(glob, other.path) && TargetUrl(route, one) == TargetUrl(route, other) ::
      one.path == other.path && one.query == other.query
  }

  /** The prefix lies strictly below a wildcard's base, so some paths of the route have it and some have not. */
  predicate StripsBelow(glob: string, prefix: string) {
    Router.IsWildcard(glob) && Router.Base(glob) + "/" <= prefix && "/" < prefix && IsPath(prefix)
  }

  /** It does, exactly when the route strips nothing, or no prefix strictly below its own base. */
  lemma DecodesExactlyUnlessBelow(glob: string, route: Router.RouteMatch)
    ensures Decodes(glob, route) <==> route.stripPrefix == None || !StripsBelow(glob, route.stripPrefix.value)
  {
    if route.stripPrefix.Some? && StripsBelow(glob, route.stripPrefix.value) {
      BelowCollides(glob, route);
    } else {
      forall one: Request, other: Request |
        Reaches(glob, one.path) && Reaches(glob, other.path) && TargetUrl(route, one) == TargetUrl(route, other)
        ensures one.path == other.path && one.query == other.query
      {
        TargetUrlDecodes(route, one, other);
        if route.stripPrefix.Some? { StrippedApart(glob, route.stripPrefix.value, one.path, other.path); }
      }
    }
  }

  lemma StrippedApart(glob: string, prefix: string, p: string, q: string)
    requires Reaches(glob, p) && Reaches(glob, q) && !StripsBelow(glob, prefix)
    requires TargetPath(Some(prefix), p) == TargetPath(Some(prefix), q)
    ensures p == q
  {
    TargetPathCollision(prefix, p, q);
    if p != q {
      if !(prefix <= q) && p == prefix + q {
        OneStripped(glob, prefix, p, q);
      } else {
        OneStripped(glob, prefix, q, p);
      }
    }
  }

  lemma PrefixOfBoth(base: string, prefix: string, p: string, q: string)
    requires base <= p && base <= q && prefix <= p && |prefix| <= |base|
    ensures prefix <= q
  {
    assert prefix == p[..|prefix|] == base[..|prefix|] == q[..|prefix|];
  }

  /** If one path of a route is another with the prefix put before it, the prefix lies below the base. */
  lemma OneStripped(glob: string, prefix: string, p: string, q: string)
    requires Reaches(glob, p) && Reaches(glob, q) && p != q && p == prefix + q && !(prefix <= q)
    ensures StripsBelow(glob, prefix)
  {
    var base := Router.Base(glob);
    if |prefix| <= |base| {
      PrefixOfBoth(base, prefix, p, q);
      assert false;
    }
    assert forall i | 0 <= i < |prefix| :: prefix[i] == p[i];
    assert prefix[..|base| + 1] == p[..|base| + 1] == base + "/";
  }

  /** The base itself, or the root under an empty one, is sent as it is, and so is the prefix put before it. */
  function Unstripped(glob: string): string {
    if Router.Base(glob) == "" then "/" else Router.Base(glob)
  }

  lemma UnstrippedReaches(glob: string, prefix: string)
    requires StripsBelow(glob, prefix)
    ensures Reaches(glob, Unstripped(glob)) && !(prefix <= Unstripped(glob))
  {
    var base := Router.Base(glob);
    assert base == prefix[..|base|];
    assert forall i | 0 <= i < |base| :: base[i] == prefix[i];
  }

  lemma PrefixedReaches(glob: string, prefix: string, q: string)
    requires StripsBelow(glob, prefix) && Reaches(glob, q)
    ensures Reaches(glob, prefix + q)
  {
    var base := Router.Base(glob);
    assert base + "/" == prefix[..|base| + 1] == (prefix + q)[..|base| + 1];
  }

  lemma SamePathCollides(glob: string, route: Router.RouteMatch, p: string, q: string)
    requires Reaches(glob, p) && Reaches(glob, q) && p != q
    requires TargetPath(route.stripPrefix, p) == TargetPath(route.stripPrefix, q)
    ensures !Decodes(glob, route)
  {
    var one, other := Request("GET", "", p, None, [], 0), Request("GET", "", q, None, [], 0);
    TargetUrlDecodes(route, one, other);
    assert one.path != other.path;
  }

  lemma BelowCollides(glob: string, route: Router.RouteMatch)
    requires route.stripPrefix.Some? && StripsBelow(glob, route.stripPrefix.value)
    ensures !Decodes(glob, route)
  {
    var prefix, q := route.stripPrefix.value, Unstripped(glob);
    UnstrippedReaches(glob, prefix);
    PrefixedReaches(glob, prefix, q);
    TargetPathCollision(prefix, prefix + q, q);
    SamePathCollides(glob, route, prefix + q, q);
  }

  /// Request headers

  const FILTERED: set<string> := {"host", "connection", "keep-alive", "proxy-authenticate", "proxy-authorization",
                                  "te", "trailers", "transfer-encoding", "upgrade"}

  /** The names that are not sent on, one by one. */
  ghost predicate IsHopByHop(name: string) {
    || name == "host" || name == "connection" || name == "keep-alive" || name == "proxy-authenticate"
    || name == "proxy-authorization" || name == "te" || name == "trailers" || name == "transfer-encoding"
    || name == "upgrade"
  }

  /** The value of the last entry with this name, whatever its letter case. */
  function LastValue(headers: seq<Header>, name: string): (v: Option<string>)
    ensures v == None ==> forall i | 0 <= i < |headers| :: Lower(headers[i].name) != name
    ensures v.Some? ==> exists i | 0 <= i < |headers| ::
                          && Lower(headers[i].name) == name && headers[i].value == v.value
                          && forall j | i < j < |headers| :: Lower(headers[j].name) != name
  {
    if headers == [] then None
    else
      var last := headers[|headers| - 1];
      if Lower(last.name) == name then Some(last.value) else LastValue(headers[..|headers| - 1], name)
  }

  /** The headers of the outgoing request: `insert` replaces, so of a repeated name only the last value is there. */
  function Copied(headers: seq<Header>): map<string, string> {
    if headers == [] then map[]
    else
      var last := headers[|headers| - 1];
      var front := Copied(headers[..|headers| - 1]);
      if Lower(last.name) in FILTERED then front else front[Lower(last.name) := last.value]
  }

  lemma {:induction false} CopiedLookup(headers: seq<Header>, name: string)
    ensures name in Copied(headers) <==> !IsHopByHop(name) && LastValue(headers, name).Some?
    ensures name in Copied(headers) ==> Some(Copied(headers)[name]) == LastValue(headers, name)
  {
    if headers != [] {
      CopiedLookup(headers[..|headers| - 1], name);
    }
  }

  method CopyRequestHeaders(headers: seq<Header>) returns (forwarded: map<string, string>)
    ensures forwarded == Copied(headers)
    ensures forall name :: name in forwarded <==> !IsHopByHop(name) && LastValue(headers, name).Some?
    ensures forall name | name in forwarded :: Some(forwarded[name]) == LastValue(headers, name)
  {
    forwarded := map[];
    for k := 0 to |headers|
      invariant forwarded == Copied(headers[..k])
    {
      var name := Lower(headers[k].name);
      assert headers[..k + 1][..k] == headers[..k];
      if name in FILTERED {
        continue;
      }
      forwarded := forwarded[name := headers[k].value];
    }
    assert headers[..|headers|] == headers;
    forall name
      ensures name in forwarded <==> !IsHopByHop(name) && LastValue(headers, name).Some?
      ensures name in forwarded ==> Some(forwarded[name]) == LastValue(headers, name)
    {
      CopiedLookup(headers, name);
    }
  }

  lemma LastValueAppend(headers: seq<Header>, h: Header, name: string)
    ensures LastValue(headers + [h], name) == if Lower(h.name) == name then Some(h.value) else LastValue(headers, name)
  {
    assert (headers + [h])[..|headers|] == headers;
  }

  lemma {:induction false} WithoutAppend(headers: seq<Header>, h: Header, name: string)
    ensures Without(headers + [h], name) == Without(headers, name) + if h.name == name then [] else [h]
  {
    if headers == [] {
      assert headers + [h] == [h];
    } else {
      WithoutAppend(headers[1..], h, name);
      assert (headers + [h])[1..] == headers[1..] + [h];
    }
  }

  lemma LastValueSkips(kept: seq<Header>, front: seq<Header>, last: Header, name: string, other: string)
    requires Lower(name) == name && other != name && LastValue(kept, other) == LastValue(front, other)
    ensures LastValue(kept + if last.name == name then [] else [last], other) == LastValue(front + [last], other)
  {
    LastValueAppend(front, last, other);
    LastValueAppend(kept, last, other);
    assert kept + [] == kept;
  }

  lemma {:induction false} LastValueWithout(headers: seq<Header>, name: string, other: string)
    requires Lower(name) == name && other != name
    ensures LastValue(Without(headers, name), other) == LastValue(headers, other)
    decreases |headers|
  {
    if headers != [] {
      var front, last := headers[..|headers| - 1], headers[|headers| - 1];
      assert headers == front + [last];
      LastValueWithout(front, name, other);
      WithoutAppend(front, last, name);
      LastValueSkips(Without(front, name), front, last, name, other);
    }
  }

  /** Inserting under a lower-case name changes the last value of that name alone. */
  lemma LastValueAfterInsert(headers: seq<Header>, name: string, value: string, other: string)
    requires Lower(name) == name
    ensures LastValue(Insert(headers, name, value), other)
         == if other == name then Some(value) else LastValue(headers, other)
  {
    LastValueAppend(Without(headers, name), Header(name, value), other);
    if other != name { LastValueWithout(headers, name, other); }
  }

  /** What is sent to the upstream, but for the body. */
  datatype Outgoing = Outgoing(verb: string, url: string, headers: map<string, string>)

  function OutgoingOf(route: Router.RouteMatch, req: Request): Outgoing {
    Outgoing(req.verb, TargetUrl(route, req), Copied(req.headers))
  }

  /// Response headers

  const SKIPPED: set<string> := {"transfer-encoding", "content-encoding"}

  function Kept(headers: seq<Header>): seq<Header> {
    if headers == [] then []
    else if Lower(headers[0].name) in SKIPPED then Kept(headers[1..])
    else [headers[0]] + Kept(headers[1..])
  }

  lemma {:induction false} KeptAppend(headers: seq<Header>, h: Header)
    ensures Kept(headers + [h])
         == Kept(headers)
            + if Lower(h.name) == "transfer-encoding" || Lower(h.name) == "content-encoding" then [] else [h]
  {
    if headers == [] {
      assert headers + [h] == [h];
    } else {
      KeptAppend(headers[1..], h);
      assert (headers + [h])[1..] == headers[1..] + [h];
    }
  }

  /** `header` appends, so every value of every other name is returned, in order. */
  method CopyResponseHeaders(headers: seq<Header>) returns (returned: seq<Header>)
    ensures returned == Kept(headers)
  {
    returned := [];
    for k := 0 to |headers|
      invariant returned == Kept(headers[..k])
    {
      assert headers[..k + 1] == headers[..k] + [headers[k]];
      KeptAppend(headers[..k], headers[k]);
      if Lower(headers[k].name) in SKIPPED {
        continue;
      }
      returned := returned + [headers[k]];
    }
    assert headers[..|headers|] == headers;
  }

  /** All values of one name, in order. */
  function Values(headers: seq<Header>, name: string): seq<string> {
    if headers == [] then []
    else (if headers[0].name == name then [headers[0].value] else []) + Values(headers[1..], name)
  }

  lemma {:induction false} KeptValues(headers: seq<Header>, name: string)
    ensures Values(Kept(headers), name)
         == if Lower(name) == "transfer-encoding" || Lower(name) == "content-encoding" then []
            else Values(headers, name)
  {
    if headers != [] {
      KeptValues(headers[1..], name);
      if Lower(headers[0].name) !in SKIPPED {
        assert Kept(headers)[1..] == Kept(headers[1..]);
      }
    }
  }
}
