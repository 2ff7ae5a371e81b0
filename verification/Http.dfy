/** Requests and header maps, as the modelled code sees them. */
module Http {
  import opened Text
  import opened Utf8
  import opened Wrappers

  /** One entry of a header map's iteration; names of a map are already lower case. */
  datatype Header = Header(name: string, value: string)

  /**
   `verb` is the method token; `origin` is what an absolute-form target prints before the path (empty in origin form);
   `at` is the instant at which the checks of this request read the clock.
   */
  datatype Request = Request(
    verb: string,
    origin: string,
    path: string,
    query: Option<string>,
    headers: seq<Header>,
    at: nat)

  /** A response with its headers in the order of the map's iteration. */
  datatype Response = Response(status: nat, headers: seq<Header>, body: string)

  /** Sections 3.3 and 3.4 of RFC 3986: a path ends before `?`, and holds no control character. */
  predicate IsPath(path: string) {
    '?' !in path && '\n' !in path
  }

  /** How a query is printed after a path. */
  function QuerySuffix(query: Option<string>): string {
    match query
    case Some(q) => "?" + q
    case None => ""
  }

  function Uri(req: Request): string {
    req.origin + req.path + QuerySuffix(req.query)
  }

  lemma NotShorter(p: string, s: string, q: string, t: string)
    requires p + s == q + t && '?' !in q
    requires s == [] || s[0] == '?'
    ensures |q| <= |p|
  {
    var whole := p + s;
    assert |p| < |whole| ==> whole[|p|] == '?';
    assert forall i | 0 <= i < |q| :: whole[i] == q[i];
  }

  /** A printed URL splits at its first question mark. */
  lemma QuerySplits(p: string, a: Option<string>, q: string, b: Option<string>)
    requires '?' !in p && '?' !in q
    requires p + QuerySuffix(a) == q + QuerySuffix(b)
    ensures p == q && a == b
  {
    var s, t := QuerySuffix(a), QuerySuffix(b);
    NotShorter(p, s, q, t);
    NotShorter(q, t, p, s);
    assert p == (p + s)[..|p|] == q;
    assert s == (p + s)[|p|..] == t;
    if a.Some? {
      assert b.Some? && a.value == s[1..] == b.value;
    }
  }

  /** A path and an origin as a request target has them: scheme and authority hold no `?` either. */
  predicate IsTarget(req: Request) {
    IsPath(req.path) && '?' !in req.origin
  }

  /** The printed URI determines what stands before the query, and the query. */
  lemma UriDecodes(one: Request, other: Request)
    requires IsTarget(one) && IsTarget(other)
    ensures Uri(one) == Uri(other) <==> one.origin + one.path == other.origin + other.path && one.query == other.query
  {
    if Uri(one) == Uri(other) {
      QuerySplits(one.origin + one.path, one.query, other.origin + other.path, other.query);
    }
  }

  /// Header maps

  /** The first value under a name, as `HeaderMap::get` gives it. */
  function Get(headers: seq<Header>, name: string): (v: Option<string>)
    ensures v.Some? <==> exists i | 0 <= i < |headers| :: headers[i].name == name
  {
    if headers == [] then None
    else if headers[0].name == name then Some(headers[0].value)
    else
      var v := Get(headers[1..], name);
      assert forall i | 1 <= i < |headers| :: headers[i] == headers[1..][i - 1];
      v
  }

  /** The earliest entry with that name has this value. */
  ghost predicate IsFirst(headers: seq<Header>, name: string, value: string) {
    exists i | 0 <= i < |headers| ::
      headers[i].name == name && headers[i].value == value && forall j | 0 <= j < i :: headers[j].name != name
  }

  lemma {:induction false} GetIsFirst(headers: seq<Header>, name: string, value: string)
    ensures Get(headers, name) == Some(value) <==> IsFirst(headers, name, value)
  {
    if headers != [] {
      var rest := headers[1..];
      assert forall i | 0 <= i < |rest| :: rest[i] == headers[i + 1];
      if headers[0].name != name {
        GetIsFirst(rest, name, value);
        if IsFirst(rest, name, value) {
          var i :| 0 <= i < |rest| && rest[i].name == name && rest[i].value == value
                   && forall j | 0 <= j < i :: rest[j].name != name;
          assert headers[i + 1].name == name && headers[i + 1].value == value;
          assert forall j | 0 <= j < i + 1 :: headers[j].name != name;
        }
        if IsFirst(headers, name, value) {
          var i :| 0 <= i < |headers| && headers[i].name == name && headers[i].value == value
                   && forall j | 0 <= j < i :: headers[j].name != name;
          assert rest[i - 1].name == name && rest[i - 1].value == value;
          assert forall j | 0 <= j < i - 1 :: rest[j].name != name;
        }
      } else if headers[0].value == value {
        assert IsFirst(headers, name, value);
      }
    }
  }

  /** A name is looked up in the first of two stretches, then in the second. */
  lemma {:induction false} GetConcat(a: seq<Header>, b: seq<Header>, name: string)
    ensures Get(a + b, name) == if Get(a, name).Some? then Get(a, name) else Get(b, name)
  {
    if a == [] {
      assert a + b == b;
    } else {
      GetConcat(a[1..], b, name);
      assert (a + b)[1..] == a[1..] + b;
    }
  }

  function Without(headers: seq<Header>, name: string): (r: seq<Header>)
    ensures forall h :: h in r <==> h in headers && h.name != name
  {
    if headers == [] then []
    else if headers[0].name == name then Without(headers[1..], name)
    else [headers[0]] + Without(headers[1..], name)
  }

  /** `HeaderMap::insert`: the new value replaces every value of that name. */
  function Insert(headers: seq<Header>, name: string, value: string): seq<Header> {
    Without(headers, name) + [Header(name, value)]
  }

  lemma {:induction false} GetAfterInsert(headers: seq<Header>, name: string, value: string, other: string)
    ensures Get(Insert(headers, name, value), other)
         == if other == name then Some(value) else Get(headers, other)
  {
    if headers == [] {
      assert Insert(headers, name, value) == [Header(name, value)];
    } else {
      GetAfterInsert(headers[1..], name, value, other);
      if headers[0].name != name {
        assert Insert(headers, name, value) == [headers[0]] + Insert(headers[1..], name, value);
      }
    }
  }

  /** `HeaderValue::to_str`: visible ASCII, space and tab only. */
  function ToStr(value: string): Option<string> {
    if forall i | 0 <= i < |value| :: value[i] == '\t' || ' ' <= value[i] < '\U{7F}' then Some(value) else None
  }

  /** A header value is held as its bytes, one `char` below 256 per byte. */
  function Bytes(s: string): (b: seq<Byte>)
    ensures |b| == |s| && forall i | 0 <= i < |s| && s[i] as int < 256 :: b[i] == s[i] as int
  {
    seq(|s|, i requires 0 <= i < |s| => s[i] as int % 256)
  }

  function Chars(b: seq<Byte>): (s: string)
    ensures |s| == |b| && forall i | 0 <= i < |b| :: s[i] as int == b[i]
  {
    seq(|b|, i requires 0 <= i < |b| => b[i] as char)
  }

  /** `HeaderValue::from_str` accepts every byte but the control characters. */
  predicate IsHeaderValue(b: seq<Byte>) {
    forall i | 0 <= i < |b| :: b[i] == 9 || (0x20 <= b[i] && b[i] != 0x7F)
  }

  /** That is: no byte below 0x20 other than the tab, and no 0x7F. */
  lemma HeaderValueBytes(b: seq<Byte>)
    ensures IsHeaderValue(b)
       <==> forall i | 0 <= i < |b| ::
              b[i] !in {0, 1, 2, 3, 4, 5, 6, 7, 8, 10, 11, 12, 13, 14, 15, 16, 17, 18, 19, 20, 21, 22, 23, 24, 25, 26,
                        27, 28, 29, 30, 31, 127}
  {
  }

  /** A header name is a token (section 5.6.2 of RFC 9110). */
  predicate IsHeaderName(s: string) {
    && s != ""
    && forall i | 0 <= i < |s| ::
         'a' <= s[i] <= 'z' || 'A' <= s[i] <= 'Z' || '0' <= s[i] <= '9' || s[i] in "!#$%&'*+-.^_`|~"
  }

  /** Every visible ASCII character but the delimiters of that section. */
  lemma TokenCharacters(s: string)
    ensures IsHeaderName(s) <==> s != "" && forall i | 0 <= i < |s| :: 0x21 <= s[i] as int <= 0x7E && !IsDelimiter(s[i])
  {
    forall i | 0 <= i < |s|
      ensures 'a' <= s[i] <= 'z' || 'A' <= s[i] <= 'Z' || '0' <= s[i] <= '9' || s[i] in "!#$%&'*+-.^_`|~"
         <==> 0x21 <= s[i] as int <= 0x7E && !IsDelimiter(s[i])
    {
      OneTokenCharacter(s[i]);
    }
  }

  predicate IsDelimiter(c: char) {
    c in "\"(),/:;<=>?@[\\]{}"
  }

  lemma OneTokenCharacter(c: char)
    ensures 'a' <= c <= 'z' || 'A' <= c <= 'Z' || '0' <= c <= '9' || c in "!#$%&'*+-.^_`|~"
       <==> 0x21 <= c as int <= 0x7E && !IsDelimiter(c)
  {
  }

  lemma LowerKeepsTokens(s: string)
    ensures IsHeaderName(Lower(s)) <==> IsHeaderName(s)
  {
    var l := Lower(s);
    forall i | 0 <= i < |s|
      ensures 'a' <= l[i] <= 'z' <==> 'a' <= s[i] <= 'z' || 'A' <= s[i] <= 'Z'
      ensures !('A' <= s[i] <= 'Z') ==> l[i] == s[i]
    {
      assert l[i] == LowerChar(s[i]);
    }
  }

  /** The bytes of a header value. */
  predicate IsBytes(value: string) {
    (forall i | 0 <= i < |value| :: value[i] as int < 256) && IsHeaderValue(Bytes(value))
  }

  /** What a header map can hold: lower-case tokens with header values. */
  predicate IsHeader(h: Header) {
    IsHeaderName(h.name) && Lower(h.name) == h.name && IsBytes(h.value)
  }

  predicate IsHeaderMap(headers: seq<Header>) {
    forall i | 0 <= i < |headers| :: IsHeader(headers[i])
  }

  /** The header's first value as text, when there is one and it is text. */
  function GetStr(headers: seq<Header>, name: string): Option<string> {
    match Get(headers, name)
    case Some(value) => ToStr(value)
    case None => None
  }

  /** The earliest entry with that name is this text: ASCII without control characters other than the tab. */
  ghost predicate IsFirstText(headers: seq<Header>, name: string, text: string) {
    IsFirst(headers, name, text) && forall i | 0 <= i < |text| :: text[i] == '\t' || 0x20 <= text[i] as int <= 0x7E
  }

  lemma GetStrIsFirstText(headers: seq<Header>, name: string, text: string)
    ensures GetStr(headers, name) == Some(text) <==> IsFirstText(headers, name, text)
  {
    GetIsFirst(headers, name, text);
  }

  lemma TextOrNone(headers: seq<Header>, name: string, text: string)
    ensures IsFirstText(headers, name, text) ==> GetStr(headers, name) == Some(text)
    ensures (forall t :: !IsFirstText(headers, name, t)) ==> GetStr(headers, name) == None
  {
    GetStrIsFirstText(headers, name, text);
    if GetStr(headers, name).Some? { GetStrIsFirstText(headers, name, GetStr(headers, name).value); }
  }
}
