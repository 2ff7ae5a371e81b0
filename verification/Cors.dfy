/** The cross-origin headers (src/middleware/cors.rs). The configured lists are held as they are sent. */
module Cors {
  import opened Http
  import opened Text
  import opened Wrappers

  datatype CorsConfig = CorsConfig(
    allowOrigins: seq<string>,
    allowMethods: seq<string>,
    allowHeaders: seq<string>,
    allowCredentials: bool,
    maxAge: Option<nat>,
    exposeHeaders: seq<string>)

  predicate IsOriginAllowed(cors: CorsConfig, origin: string) {
    exists i | 0 <= i < |cors.allowOrigins| :: cors.allowOrigins[i] == "*" || cors.allowOrigins[i] == origin
  }

  /** The `Origin` header as text, empty when there is none. */
  function OriginOf(headers: seq<Header>): string {
    match GetStr(headers, "origin")
    case Some(value) => value
    case None => ""
  }

  function CommaJoined(items: seq<string>): string {
    if items == [] then ""
    else if |items| == 1 then items[0]
    else items[0] + ", " + CommaJoined(items[1..])
  }

  function PreflightResponse(cors: CorsConfig, origin: string): Response {
    Response(
      204,
      [Header("access-control-allow-origin", origin)]
      + (if cors.allowCredentials then [Header("access-control-allow-credentials", "true")] else [])
      + [Header("access-control-allow-methods", CommaJoined(cors.allowMethods)),
         Header("access-control-allow-headers", CommaJoined(cors.allowHeaders))]
      + (match cors.maxAge
         case Some(age) => [Header("access-control-max-age", Decimal(age))]
         case None => [])
      + (if cors.exposeHeaders == [] then []
         else [Header("access-control-expose-headers", CommaJoined(cors.exposeHeaders))]),
      "")
  }

  function AddCorsHeaders(cors: CorsConfig, response: Response, origin: string): Response {
    var one := Insert(response.headers, "access-control-allow-origin", origin);
    var two := if cors.allowCredentials then Insert(one, "access-control-allow-credentials", "true") else one;
    var three :=
      if cors.exposeHeaders == [] then two
      else Insert(two, "access-control-expose-headers", CommaJoined(cors.exposeHeaders));
    response.(headers := three)
  }

  /** What the pipeline does with an upstream's response: it asks for the origin in the response's own headers. */
  function WithCors(cors: Option<CorsConfig>, response: Response): Response {
    var origin := OriginOf(response.headers);
    if cors.Some? && origin != "" && IsOriginAllowed(cors.value, origin) then
      AddCorsHeaders(cors.value, response, origin)
    else response
  }

  /// What these headers are

  lemma {:induction false} CommaJoinedAppend(items: seq<string>, x: string)
    ensures CommaJoined(items + [x]) == if items == [] then x else CommaJoined(items) + ", " + x
  {
    if items == [] {
      assert items + [x] == [x];
    } else {
      CommaJoinedAppend(items[1..], x);
      assert (items + [x])[1..] == items[1..] + [x];
    }
  }

  /** The origin a set of headers names: its first `Origin` that is text, or nothing. */
  ghost predicate Names(headers: seq<Header>, origin: string) {
    || IsFirstText(headers, "origin", origin)
    || (origin == "" && forall t :: !IsFirstText(headers, "origin", t))
  }

  lemma OriginMeaning(headers: seq<Header>, origin: string)
    requires Names(headers, origin)
    ensures OriginOf(headers) == origin
  {
    TextOrNone(headers, "origin", origin);
  }

  /** The origin is on the list, or the list holds a star. */
  ghost predicate Allows(cors: CorsConfig, origin: string) {
    "*" in cors.allowOrigins || origin in cors.allowOrigins
  }

  lemma AllowsIsAllowed(cors: CorsConfig, origin: string)
    ensures IsOriginAllowed(cors, origin) <==> Allows(cors, origin)
  {
    if IsOriginAllowed(cors, origin) {
      var i :| 0 <= i < |cors.allowOrigins| && (cors.allowOrigins[i] == "*" || cors.allowOrigins[i] == origin);
      assert cors.allowOrigins[i] in cors.allowOrigins;
    }
  }

  /** One header, or none. */
  lemma GetOne(name: string, value: string, other: string)
    ensures Get([Header(name, value)], other) == if name == other then Some(value) else None
    ensures Get([], other) == None
  {
    assert [Header(name, value)][1..] == [];
  }

  lemma GetTwo(one: Header, two: Header, name: string)
    ensures Get([one, two], name)
         == if one.name == name then Some(one.value) else if two.name == name then Some(two.value) else None
  {
    GetConcat([one], [two], name);
    GetOne(one.name, one.value, name);
    GetOne(two.name, two.value, name);
    assert [one] + [two] == [one, two];
  }

  /** What a preflight gets back, header by header. */
  lemma PreflightHeaders(cors: CorsConfig, origin: string, name: string)
    ensures var r := PreflightResponse(cors, origin);
            && r.status == 204 && r.body == ""
            && Get(r.headers, name)
               == if name == "access-control-allow-origin" then Some(origin)
                  else if name == "access-control-allow-credentials" then
                    if cors.allowCredentials then Some("true") else None
                  else if name == "access-control-allow-methods" then Some(CommaJoined(cors.allowMethods))
                  else if name == "access-control-allow-headers" then Some(CommaJoined(cors.allowHeaders))
                  else if name == "access-control-max-age" then
                    if cors.maxAge.Some? then Some(Decimal(cors.maxAge.value)) else None
                  else if name == "access-control-expose-headers" then
                    if cors.exposeHeaders == [] then None else Some(CommaJoined(cors.exposeHeaders))
                  else None
  {
    var a := [Header("access-control-allow-origin", origin)];
    var b := if cors.allowCredentials then [Header("access-control-allow-credentials", "true")] else [];
    var c := [Header("access-control-allow-methods", CommaJoined(cors.allowMethods)),
              Header("access-control-allow-headers", CommaJoined(cors.allowHeaders))];
    var d := match cors.maxAge case Some(age) => [Header("access-control-max-age", Decimal(age))] case None => [];
    var e := if cors.exposeHeaders == [] then []
             else [Header("access-control-expose-headers", CommaJoined(cors.exposeHeaders))];
    GetConcat(a, b, name);
    GetConcat(a + b, c, name);
    GetConcat(a + b + c, d, name);
    GetConcat(a + b + c + d, e, name);
    GetOne("access-control-allow-origin", origin, name);
    GetOne("access-control-allow-credentials", "true", name);
    GetTwo(c[0], c[1], name);
    GetOne("access-control-max-age", if cors.maxAge.Some? then Decimal(cors.maxAge.value) else "", name);
    GetOne("access-control-expose-headers", CommaJoined(cors.exposeHeaders), name);
  }

  /**
   What the pipeline adds to an upstream's response: nothing unless that response itself names an
   allowed origin, and else the three headers as configured; every other name keeps its value.
   */
  lemma CorsHeadersMeaning(cors: Option<CorsConfig>, response: Response, origin: string, name: string)
    requires Names(response.headers, origin)
    ensures var r := WithCors(cors, response);
            && r.status == response.status && r.body == response.body
            && (cors == None || origin == "" || !Allows(cors.value, origin) ==> r == response)
            && (cors.Some? && origin != "" && Allows(cors.value, origin) ==>
                  Get(r.headers, name)
                  == if name == "access-control-allow-origin" then Some(origin)
                     else if name == "access-control-allow-credentials" && cors.value.allowCredentials then Some("true")
                     else if name == "access-control-expose-headers" && cors.value.exposeHeaders != [] then
                       Some(CommaJoined(cors.value.exposeHeaders))
                     else Get(response.headers, name))
  {
    OriginMeaning(response.headers, origin);
    if cors.Some? {
      AllowsIsAllowed(cors.value, origin);
      var one := Insert(response.headers, "access-control-allow-origin", origin);
      var two :=
        if cors.value.allowCredentials then Insert(one, "access-control-allow-credentials", "true") else one;
      GetAfterInsert(response.headers, "access-control-allow-origin", origin, name);
      GetAfterInsert(one, "access-control-allow-credentials", "true", name);
      GetAfterInsert(two, "access-control-expose-headers", CommaJoined(cors.value.exposeHeaders), name);
    }
  }
}
