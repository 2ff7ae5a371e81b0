/**
 The part of the `regex` crate's language that the router emits, with enough
 around it (alternation, `+`, lazy markers, groups) that an unescaped
 metacharacter would be read as an operator and not as itself.
 */
module RegexSyntax {
  import opened Wrappers

  datatype Regex =
    | Empty
    | Literal(c: char)
    | AnyChar
    | TextStart
    | TextEnd
    | Concat(first: Regex, second: Regex)
    | Alternate(left: Regex, right: Regex)
    | ZeroOrMore(body: Regex)
    | Optional(body: Regex)

  /// Meaning

  /** `r` matches exactly the characters of `text` from `i` up to `j`. */
  predicate Matches(r: Regex, text: string, i: nat, j: nat)
    requires i <= j <= |text|
    decreases r, j - i
  {
    match r
    case Empty => i == j
    case Literal(c) => j == i + 1 && text[i] == c
    case AnyChar => j == i + 1 && text[i] != '\n'
    case TextStart => i == j == 0
    case TextEnd => i == j == |text|
    case Concat(a, b) => exists k: nat | i <= k <= j :: Matches(a, text, i, k) && Matches(b, text, k, j)
    case Alternate(a, b) => Matches(a, text, i, j) || Matches(b, text, i, j)
    case ZeroOrMore(a) =>
      i == j || exists k: nat | i < k <= j :: Matches(a, text, i, k) && Matches(r, text, k, j)
    case Optional(a) => i == j || Matches(a, text, i, j)
  }

  /** Unanchored search: some stretch of `text` is matched. */
  predicate IsMatch(r: Regex, text: string) {
    exists i: nat, j: nat | i <= j <= |text| :: Matches(r, text, i, j)
  }

  /// Escaping

  predicate IsMeta(c: char) {
    c in "\\.+*?()|[]{}^$#&-~"
  }

  predicate IsRepetition(c: char) {
    c in "*+?{"
  }

  function EscapeChar(c: char): string {
    if IsMeta(c) then ['\\', c] else [c]
  }

  function Escape(s: string): string {
    if s == [] then [] else EscapeChar(s[0]) + Escape(s[1..])
  }

  /// Parsing

  datatype ParseResult = Fail | Parsed(regex: Regex, rest: string)

  /** The whole text as one regular expression, or a syntax error. */
  function Parse(s: string): Option<Regex> {
    match ParseAlternation(s)
    case Parsed(r, rest) => if rest == [] then Some(r) else None
    case Fail => None
  }

  function ParseAlternation(s: string): (p: ParseResult)
    ensures p.Parsed? ==> |p.rest| <= |s|
    decreases |s|, 3
  {
    match ParseSequence(s)
    case Fail => Fail
    case Parsed(a, rest) =>
      if rest != [] && rest[0] == '|' then
        match ParseAlternation(rest[1..])
        case Fail => Fail
        case Parsed(b, rest') => Parsed(Alternate(a, b), rest')
      else Parsed(a, rest)
  }

  function ParseSequence(s: string): (p: ParseResult)
    ensures p.Parsed? ==> |p.rest| <= |s|
    decreases |s|, 2
  {
    if s == [] || s[0] == '|' || s[0] == ')' then Parsed(Empty, s)
    else
      match ParseRepeated(s)
      case Fail => Fail
      case Parsed(a, rest) =>
        match ParseSequence(rest)
        case Fail => Fail
        case Parsed(b, rest') => Parsed(Concat(a, b), rest')
  }

  function ParseRepeated(s: string): (p: ParseResult)
    requires s != []
    ensures p.Parsed? ==> |p.rest| < |s|
    decreases |s|, 1
  {
    match ParseAtom(s)
    case Fail => Fail
    case Parsed(a, rest) => Postfix(a, rest)
  }

  /** Any number of repetition operators; a `?` right after one only makes it lazy. */
  function Postfix(a: Regex, s: string): (p: ParseResult)
    ensures p.Parsed? ==> |p.rest| <= |s|
    decreases |s|
  {
    if s == [] || !IsRepetition(s[0]) then Parsed(a, s)
    else if s[0] == '{' then Fail // counted repetition is never emitted
    else
      var rest := if |s| > 1 && s[1] == '?' then s[2..] else s[1..];
      Postfix(if s[0] == '*' then ZeroOrMore(a)
              else if s[0] == '?' then Optional(a)
              else Concat(a, ZeroOrMore(a)), rest)
  }

  function ParseAtom(s: string): (p: ParseResult)
    requires s != []
    ensures p.Parsed? ==> |p.rest| < |s|
    decreases |s|, 0
  {
    var c, rest := s[0], s[1..];
    if c == '^' then Parsed(TextStart, rest)
    else if c == '$' then Parsed(TextEnd, rest)
    else if c == '.' then Parsed(AnyChar, rest)
    else if c == '\\' then
      if rest != [] && IsMeta(rest[0]) then Parsed(Literal(rest[0]), rest[1..]) else Fail
    else if c == '(' then
      match ParseAlternation(rest)
      case Fail => Fail
      case Parsed(r, rest') => if rest' != [] && rest'[0] == ')' then Parsed(r, rest'[1..]) else Fail
    else if IsRepetition(c) || c == '[' || c == '|' || c == ')' then Fail
    else Parsed(Literal(c), rest)
  }

  /// Escaping a text and parsing it gives the text back as literals

  function Literals(s: string, then': Regex): Regex {
    if s == [] then then' else Concat(Literal(s[0]), Literals(s[1..], then'))
  }

  lemma ParseEscapedChar(c: char, t: string)
    requires t != [] ==> !IsRepetition(t[0])
    ensures ParseRepeated(EscapeChar(c) + t) == Parsed(Literal(c), t)
    ensures (EscapeChar(c) + t)[0] !in "|)*+?{"
  {
    var s := EscapeChar(c) + t;
    if IsMeta(c) {
      assert s[0] == '\\' && s[1..] == [c] + t;
      assert s[1..][1..] == t;
    } else {
      assert s[0] == c && s[1..] == t;
      assert c !in "^$.\\([|)*+?{";
    }
    assert ParseAtom(s) == Parsed(Literal(c), t);
  }

  lemma {:induction false} ParseEscaped(s: string, t: string, r: Regex, rest: string)
    requires t != [] ==> !IsRepetition(t[0])
    requires ParseSequence(t) == Parsed(r, rest)
    ensures ParseSequence(Escape(s) + t) == Parsed(Literals(s, r), rest)
    ensures s + t != [] ==> !IsRepetition((Escape(s) + t)[0])
  {
    if s == [] {
      assert Escape(s) + t == t;
    } else {
      var tail := Escape(s[1..]) + t;
      assert Escape(s) + t == EscapeChar(s[0]) + tail;
      ParseEscaped(s[1..], t, r, rest);
      ParseEscapedChar(s[0], tail);
    }
  }

  /** A run of literals matches exactly its own text, then whatever follows. */
  lemma {:induction false} MatchesLiterals(s: string, r: Regex, text: string, i: nat, j: nat)
    requires i <= j <= |text|
    ensures Matches(Literals(s, r), text, i, j)
       <==> i + |s| <= j && text[i..i + |s|] == s && Matches(r, text, i + |s|, j)
  {
    if s != [] {
      if i < j && text[i] == s[0] {
        MatchesLiterals(s[1..], r, text, i + 1, j);
        assert Matches(Literal(s[0]), text, i, i + 1);
        if i + |s| <= j {
          assert text[i..i + |s|] == [text[i]] + text[i + 1..i + |s|];
          assert s == [s[0]] + s[1..];
          assert text[i..i + |s|] == s <==> text[i + 1..i + |s|] == s[1..];
        }
        assert Matches(Literals(s, r), text, i, j) <==> Matches(Literals(s[1..], r), text, i + 1, j);
      } else if i + |s| <= j {
        assert text[i..i + |s|][0] == text[i];
      }
    } else {
      assert text[i..i] == [];
    }
  }

  /** `.*` matches every stretch without a newline. */
  lemma {:induction false} MatchesAnyStar(text: string, i: nat, j: nat)
    requires i <= j <= |text|
    ensures Matches(ZeroOrMore(AnyChar), text, i, j) <==> '\n' !in text[i..j]
    decreases j - i
  {
    if i < j {
      assert text[i..j] == [text[i]] + text[i + 1..j];
      MatchesAnyStar(text, i + 1, j);
      if text[i] != '\n' {
        assert Matches(AnyChar, text, i, i + 1);
      }
    }
  }
}
