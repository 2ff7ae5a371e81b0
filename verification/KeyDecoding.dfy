/**
 Exactly when a key with listed headers determines the request it was built from
 (src/cache/mod.rs, `build_key`).
 */
module KeyDecoding {
  import opened CacheKey
  import opened Http
  import opened Text
  import opened Utf8
  import opened Wrappers

  /** A request as the server passes it on. */
  predicate IsRequest(req: Request) {
    IsMethod(req.verb) && IsTarget(req) && IsHeaderMap(req.headers)
  }

  /** Every listed header is there or not, and with a value, as `allows` says. */
  predicate Carries(headers: seq<Header>, names: seq<string>, allows: Option<string> -> bool) {
    forall k | 0 <= k < |names| :: allows(Get(headers, Lower(names[k])))
  }

  predicate Admitted(req: Request, names: seq<string>, allows: Option<string> -> bool) {
    IsRequest(req) && Carries(req.headers, names, allows)
  }

  ghost predicate SameView(one: Request, other: Request, names: seq<string>) {
    one.verb == other.verb && SameUri(one, other) && SameListed(one.headers, other.headers, names)
  }

  /** Among requests whose listed headers are as `allows` says, the key determines what went into it. */
  ghost predicate KeyDecodes(names: seq<string>, allows: Option<string> -> bool) {
    forall one: Request, other: Request |
      && Admitted(one, names, allows) && Admitted(other, names, allows)
      && Key(UriWithHeaders(names), one) == Key(UriWithHeaders(names), other) ::
      SameView(one, other, names)
  }

  predicate MaybeAbsent(v: Option<string>) {
    v == None || Listed(v)
  }

  predicate MaybeColons(v: Option<string>) {
    v.Some? && IsUtf8(v.value)
  }

  predicate MaybeIllFormed(v: Option<string>) {
    v.Some? && ':' !in v.value
  }

  /** With every listed header present as colon-free text, whatever the list. */
  lemma ListedTextDecodes(names: seq<string>)
    ensures KeyDecodes(names, Listed)
  {
    forall one: Request, other: Request |
      && Admitted(one, names, Listed) && Admitted(other, names, Listed)
      && Key(UriWithHeaders(names), one) == Key(UriWithHeaders(names), other)
      ensures SameView(one, other, names)
    {
      ListedPair(names, one, other);
    }
  }

  lemma ListedPair(names: seq<string>, one: Request, other: Request)
    requires Admitted(one, names, Listed) && Admitted(other, names, Listed)
    requires Key(UriWithHeaders(names), one) == Key(UriWithHeaders(names), other)
    ensures SameView(one, other, names)
  {
    CarriesListed(one.headers, names);
    CarriesListed(other.headers, names);
    HeaderKeyDecodes(names, one, other);
  }

  lemma CarriesListed(headers: seq<Header>, names: seq<string>)
    requires Carries(headers, names, Listed)
    ensures AllListed(headers, names)
  {
  }

  /** A GET in origin form, for the collisions below. */
  function Plain(path: string, headers: seq<Header>): Request {
    Request("GET", "", path, None, headers, 0)
  }

  lemma PlainKey(names: seq<string>, path: string, headers: seq<Header>)
    ensures Key(UriWithHeaders(names), Plain(path, headers))
         == "cache:GET:" + (path + AppendAll(PartOf(headers), names))
  {
    assert "" + path + "" == path;
    assert "cache:" + "GET" + ":" + path == "cache:GET:" + path;
  }

  lemma PlainIsRequest(path: string, headers: seq<Header>)
    requires IsPath(path) && IsHeaderMap(headers)
    ensures IsRequest(Plain(path, headers))
  {
  }

  /** Two requests whose printed headers only shift the end of the path, and a listed header that differs. */
  lemma Collides(names: seq<string>, allows: Option<string> -> bool, p: string, a: seq<Header>,
                 q: string, b: seq<Header>, k: nat)
    requires IsPath(p) && IsHeaderMap(a) && Carries(a, names, allows)
    requires IsPath(q) && IsHeaderMap(b) && Carries(b, names, allows)
    requires p + AppendAll(PartOf(a), names) == q + AppendAll(PartOf(b), names)
    requires k < |names| && Get(a, Lower(names[k])) != Get(b, Lower(names[k]))
    ensures !KeyDecodes(names, allows)
  {
    PlainIsRequest(p, a);
    PlainIsRequest(q, b);
    PlainKey(names, p, a);
    PlainKey(names, q, b);
    var one, other := Plain(p, a), Plain(q, b);
    assert Key(UriWithHeaders(names), one) == Key(UriWithHeaders(names), other);
    assert Admitted(one, names, allows) && Admitted(other, names, allows) && !SameView(one, other, names);
  }

  /** Such a difference at the end of a path keeps it a path. */
  lemma LongerPath(s: string)
    requires IsPath(s)
    ensures IsPath("/x" + s)
  {
  }

  predicate AllNames(names: seq<string>) {
    forall k | 0 <= k < |names| :: IsHeaderName(names[k])
  }

  predicate NoNames(names: seq<string>) {
    forall k | 0 <= k < |names| :: !IsHeaderName(names[k])
  }

  lemma NotAName(headers: seq<Header>, name: string)
    requires IsHeaderMap(headers) && !IsHeaderName(name)
    ensures Get(headers, Lower(name)) == None
  {
    LowerKeepsTokens(name);
    forall i | 0 <= i < |headers| ensures headers[i].name != Lower(name) {
      assert IsHeader(headers[i]);
    }
  }

  function Repeat(piece: string, n: nat): string {
    if n == 0 then "" else Repeat(piece, n - 1) + piece
  }

  lemma {:induction false} AppendRepeats(part: string -> string, names: seq<string>, piece: string)
    requires forall k | 0 <= k < |names| :: part(names[k]) == piece
    ensures AppendAll(part, names) == Repeat(piece, |names|)
    decreases |names|
  {
    if names != [] {
      AppendRepeats(part, names[..|names| - 1], piece);
    }
  }

  lemma {:induction false} RepeatTwice(n: nat)
    ensures Repeat(":1:1", n) == Repeat(":1", 2 * n)
  {
    if n > 0 {
      RepeatTwice(n - 1);
      assert Repeat(":1", 2 * n) == Repeat(":1", 2 * n - 2) + ":1" + ":1";
      assert Repeat(":1", 2 * n - 2) + ":1" + ":1" == Repeat(":1", 2 * n - 2) + ":1:1";
    }
  }

  lemma {:induction false} RepeatAdd(piece: string, m: nat, n: nat)
    ensures Repeat(piece, m + n) == Repeat(piece, m) + Repeat(piece, n)
  {
    if n == 0 {
      assert Repeat(piece, m) + "" == Repeat(piece, m);
    } else {
      RepeatAdd(piece, m, n - 1);
      assert Repeat(piece, m) + Repeat(piece, n - 1) + piece == Repeat(piece, m) + (Repeat(piece, n - 1) + piece);
    }
  }

  lemma {:induction false} GetIsMember(headers: seq<Header>, name: string)
    ensures var v := Get(headers, name);
            v.Some? ==> exists i | 0 <= i < |headers| :: headers[i] == Header(name, v.value)
  {
    if headers != [] && headers[0].name != name {
      GetIsMember(headers[1..], name);
      if Get(headers, name).Some? {
        var i :| 0 <= i < |headers| - 1 && headers[1..][i] == Header(name, Get(headers, name).value);
        assert headers[i + 1] == headers[1..][i];
      }
    } else if headers != [] {
      assert headers[0] == Header(name, headers[0].value);
    }
  }

  /** Every listed header, all with the same value. */
  function Uniform(names: seq<string>, value: string): (headers: seq<Header>)
    ensures |headers| == |names| && forall k | 0 <= k < |names| :: headers[k] == Header(Lower(names[k]), value)
  {
    seq(|names|, k requires 0 <= k < |names| => Header(Lower(names[k]), value))
  }

  lemma GetUniform(names: seq<string>, value: string, k: nat)
    requires k < |names|
    ensures Get(Uniform(names, value), Lower(names[k])) == Some(value)
  {
    var headers := Uniform(names, value);
    assert headers[k].name == Lower(names[k]);
    GetIsMember(headers, Lower(names[k]));
  }

  lemma {:induction false} LowerTwice(s: string)
    ensures Lower(Lower(s)) == Lower(s)
  {
    assert forall i | 0 <= i < |s| :: Lower(Lower(s))[i] == LowerChar(Lower(s)[i]) == LowerChar(LowerChar(s[i]));
  }

  /** Every listed header with one value that the lossy conversion prints as `text`. */
  lemma UniformCarries(names: seq<string>, value: string, text: string)
    requires AllNames(names) && LossyText(value) == text
    requires IsBytes(value)
    ensures IsHeaderMap(Uniform(names, value))
    ensures forall k | 0 <= k < |names| :: Get(Uniform(names, value), Lower(names[k])) == Some(value)
    ensures AppendAll(PartOf(Uniform(names, value)), names) == Repeat(":" + text, |names|)
  {
    var headers := Uniform(names, value);
    forall k | 0 <= k < |names|
      ensures IsHeader(headers[k]) && Get(headers, Lower(names[k])) == Some(value)
      ensures PartOf(headers)(names[k]) == ":" + text
    {
      LowerKeepsTokens(names[k]);
      LowerTwice(names[k]);
      GetUniform(names, value, k);
    }
    AppendRepeats(PartOf(headers), names, ":" + text);
  }

  lemma AbsentPart(headers: seq<Header>, name: string)
    requires Get(headers, Lower(name)) == None
    ensures PartOf(headers)(name) == ""
  {
  }

  lemma {:induction false} AppendNothing(part: string -> string, names: seq<string>)
    requires forall k | 0 <= k < |names| :: part(names[k]) == ""
    ensures AppendAll(part, names) == ""
    decreases |names|
  {
    if names != [] {
      AppendNothing(part, names[..|names| - 1]);
    }
  }

  /** Text made of digits one and colons belongs in a path. */
  predicate OnlyOnes(s: string) {
    forall i | 0 <= i < |s| :: s[i] == ':' || s[i] == '1'
  }

  lemma {:induction false} AppendOnes(part: string -> string, names: seq<string>)
    requires forall k | 0 <= k < |names| :: OnlyOnes(part(names[k]))
    ensures OnlyOnes(AppendAll(part, names))
    decreases |names|
  {
    if names != [] {
      AppendOnes(part, names[..|names| - 1]);
    }
  }

  lemma OnesAreText()
    ensures IsUtf8("1") && IsUtf8("1:1")
    ensures IsHeaderValue(Bytes("1")) && IsHeaderValue(Bytes("1:1"))
  {
    assert Bytes("1") == [0x31] && Bytes("1:1") == [0x31, 0x3A, 0x31];
    AsciiValid([0x31]);
    AsciiValid([0x31, 0x3A, 0x31]);
  }

  lemma NoHeaders(names: seq<string>, allows: Option<string> -> bool)
    requires allows(None)
    ensures Carries([], names, allows) && AppendAll(PartOf([]), names) == ""
  {
    forall k | 0 <= k < |names| ensures PartOf([])(names[k]) == "" { AbsentPart([], names[k]); }
    AppendNothing(PartOf([]), names);
  }

  lemma OneHeader(h: Header, names: seq<string>, allows: Option<string> -> bool)
    requires allows(None) && allows(Some(h.value))
    ensures Carries([h], names, allows)
  {
  }

  lemma OneHeaderCollides(names: seq<string>, allows: Option<string> -> bool, h: Header, k: nat, added: string)
    requires k < |names| && h.name == Lower(names[k]) && IsHeader(h)
    requires allows(None) && allows(Some(h.value))
    requires added == AppendAll(PartOf([h]), names) && IsPath(added)
    ensures !KeyDecodes(names, allows)
  {
    NoHeaders(names, allows);
    OneHeader(h, names, allows);
    LongerPath(added);
    assert ("/x" + added) + "" == "/x" + added;
    Collides(names, allows, "/x" + added, [], "/x", [h], k);
  }

  lemma AddsOnes(h: Header, names: seq<string>)
    requires h.value == "1"
    ensures OnlyOnes(AppendAll(PartOf([h]), names))
  {
    OnesAreText();
    LossyTextIdentity("1");
    forall k | 0 <= k < |names| ensures OnlyOnes(PartOf([h])(names[k])) {
      if Lower(names[k]) != h.name { AbsentPart([h], names[k]); }
    }
    AppendOnes(PartOf([h]), names);
  }

  /** The listed header that only one of two requests carries, printed into the path of the other. */
  lemma AbsenceCollides(names: seq<string>, k: nat)
    requires k < |names| && IsHeaderName(names[k])
    ensures !KeyDecodes(names, MaybeAbsent)
  {
    var h := Header(Lower(names[k]), "1");
    OnesAreText();
    LowerKeepsTokens(names[k]);
    LowerTwice(names[k]);
    AddsOnes(h, names);
    OneHeaderCollides(names, MaybeAbsent, h, k, AppendAll(PartOf([h]), names));
  }

  /** With absence allowed, the key decodes exactly when no listed name can be the name of a header. */
  lemma AbsenceDecodesExactlyWhenNoneListed(names: seq<string>)
    ensures KeyDecodes(names, MaybeAbsent) <==> NoNames(names)
  {
    if NoNames(names) {
      NoNamesDecode(names, MaybeAbsent);
    } else {
      var k :| 0 <= k < |names| && IsHeaderName(names[k]);
      AbsenceCollides(names, k);
    }
  }

  lemma NoNamesDecode(names: seq<string>, allows: Option<string> -> bool)
    requires NoNames(names)
    ensures KeyDecodes(names, allows)
  {
    forall one: Request, other: Request |
      && Admitted(one, names, allows) && Admitted(other, names, allows)
      && Key(UriWithHeaders(names), one) == Key(UriWithHeaders(names), other)
      ensures SameView(one, other, names)
    {
      NoneAppended(names, one);
      NoneAppended(names, other);
      VerbAndUriDecode(one.verb, Uri(one), other.verb, Uri(other));
      UriDecodes(one, other);
    }
  }

  lemma NoneAppended(names: seq<string>, req: Request)
    requires NoNames(names) && IsHeaderMap(req.headers)
    ensures forall k | 0 <= k < |names| :: Get(req.headers, Lower(names[k])) == None
    ensures Key(UriWithHeaders(names), req) == "cache:" + req.verb + ":" + Uri(req)
  {
    forall k | 0 <= k < |names|
      ensures Get(req.headers, Lower(names[k])) == None && PartOf(req.headers)(names[k]) == ""
    {
      NotAName(req.headers, names[k]);
      AbsentPart(req.headers, names[k]);
    }
    AppendNothing(PartOf(req.headers), names);
    var front := "cache:" + req.verb + ":" + Uri(req);
    assert front + "" == front;
  }

  /** A list with a name that no header can have: no request carries all of it. */
  lemma NobodyCarries(names: seq<string>, allows: Option<string> -> bool, req: Request)
    requires !AllNames(names) && IsRequest(req) && !allows(None)
    ensures !Carries(req.headers, names, allows)
  {
    var k :| 0 <= k < |names| && !IsHeaderName(names[k]);
    NotAName(req.headers, names[k]);
  }

  lemma UnlistableDecodes(names: seq<string>, allows: Option<string> -> bool)
    requires !AllNames(names) && !allows(None)
    ensures KeyDecodes(names, allows)
  {
    forall req: Request | IsRequest(req) ensures !Admitted(req, names, allows) {
      NobodyCarries(names, allows, req);
    }
  }

  /** Two values for every listed header, printed as `s` and `t`, where the paths make up for the difference. */
  lemma UniformCollides(names: seq<string>, allows: Option<string> -> bool,
                        p: string, a: string, s: string, q: string, b: string, t: string)
    requires names != [] && AllNames(names) && a != b && IsBytes(a) && IsBytes(b)
    requires allows(Some(a)) && allows(Some(b)) && IsPath(p) && IsPath(q)
    requires LossyText(a) == s && LossyText(b) == t
    requires p + Repeat(":" + s, |names|) == q + Repeat(":" + t, |names|)
    ensures !KeyDecodes(names, allows)
  {
    UniformCarries(names, a, s);
    UniformCarries(names, b, t);
    Collides(names, allows, p, Uniform(names, a), q, Uniform(names, b), 0);
  }

  lemma PathsShift(n: nat) returns (longer: string)
    ensures OnlyOnes(longer) && ("/x" + longer) + Repeat(":1", n) == "/x" + Repeat(":1:1", n)
  {
    longer := Repeat(":1", n);
    RepeatTwice(n);
    RepeatAdd(":1", n, n);
    RepeatOnes(n);
    assert ("/x" + longer) + longer == "/x" + (longer + longer);
  }

  lemma TextsCollide(names: seq<string>, p: string, a: string, q: string, b: string)
    requires names != [] && AllNames(names) && a != b && IsBytes(a) && IsBytes(b)
    requires IsUtf8(a) && IsUtf8(b) && IsPath(p) && IsPath(q)
    requires p + Repeat(":" + a, |names|) == q + Repeat(":" + b, |names|)
    ensures !KeyDecodes(names, MaybeColons)
  {
    LossyTextIdentity(a);
    LossyTextIdentity(b);
    UniformCollides(names, MaybeColons, p, a, a, q, b, b);
  }

  lemma ColonsCollide(names: seq<string>)
    requires names != [] && AllNames(names)
    ensures !KeyDecodes(names, MaybeColons)
  {
    var longer := PathsShift(|names|);
    LongerPath(longer);
    OnesAreText();
    assert ":" + "1" == ":1" && ":" + "1:1" == ":1:1";
    TextsCollide(names, "/x" + longer, "1", "/x", "1:1");
  }

  lemma {:induction false} RepeatOnes(n: nat)
    ensures OnlyOnes(Repeat(":1", n))
  {
    if n > 0 {
      RepeatOnes(n - 1);
    }
  }

  /** With colons allowed in the values, exactly when nothing is listed or no request carries the whole list. */
  lemma ColonsDecodeExactlyWhenNoneListed(names: seq<string>)
    ensures KeyDecodes(names, MaybeColons) <==> names == [] || !AllNames(names)
  {
    if !AllNames(names) {
      UnlistableDecodes(names, MaybeColons);
    } else if names == [] {
      NoNamesDecode([], MaybeColons);
    } else {
      ColonsCollide(names);
    }
  }

  lemma LossyByte(b: Byte)
    requires 0xF5 <= b
    ensures LossyText([b as char]) == Chars(REPLACEMENT)
  {
    assert Bytes([b as char]) == [b];
    assert ScalarLength([b]) == 0 && BadLength([b]) == 1 && [b][1..] == [];
    assert Lossy([b]) == REPLACEMENT + [] == REPLACEMENT;
  }

  lemma IllFormedCollide(names: seq<string>)
    requires names != [] && AllNames(names)
    ensures !KeyDecodes(names, MaybeIllFormed)
  {
    var a, b := [0xFE as char], [0xFF as char];
    assert Bytes(a) == [0xFE] && Bytes(b) == [0xFF];
    LossyByte(0xFE);
    LossyByte(0xFF);
    var text := Chars(REPLACEMENT);
    UniformCollides(names, MaybeIllFormed, "/x", a, text, "/x", b, text);
  }

  /** And the same with values that are not well-formed text. */
  lemma IllFormedDecodeExactlyWhenNoneListed(names: seq<string>)
    ensures KeyDecodes(names, MaybeIllFormed) <==> names == [] || !AllNames(names)
  {
    if !AllNames(names) {
      UnlistableDecodes(names, MaybeIllFormed);
    } else if names == [] {
      NoNamesDecode([], MaybeIllFormed);
    } else {
      IllFormedCollide(names);
    }
  }
}
