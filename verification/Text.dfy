/** String operations of the source's standard library. A prefix test is Dafny's own `p <= s`. */
module Text {

  predicate EndsWith(s: string, suffix: string) {
    |suffix| <= |s| && s[|s| - |suffix|..] == suffix
  }

  function LowerChar(c: char): char {
    if 'A' <= c <= 'Z' then (c as int + 32) as char else c
  }

  const UPPER_CASE := "ABCDEFGHIJKLMNOPQRSTUVWXYZ"
  const LOWER_CASE := "abcdefghijklmnopqrstuvwxyz"

  /** Letter by letter: the 26 capitals go to their small letters, and nothing else moves. */
  lemma LowerCharTable(c: char)
    ensures c !in UPPER_CASE ==> LowerChar(c) == c
    ensures forall k | 0 <= k < 26 && UPPER_CASE[k] == c :: LowerChar(c) == LOWER_CASE[k]
  {
    assert forall k | 0 <= k < 26 :: UPPER_CASE[k] as int == 65 + k && LOWER_CASE[k] as int == 97 + k;
    if 'A' <= c <= 'Z' { assert UPPER_CASE[c as int - 65] == c; }
  }

  function Lower(s: string): (r: string)
    ensures |r| == |s|
    ensures forall i | 0 <= i < |s| :: r[i] == LowerChar(s[i])
  {
    if s == [] then [] else [LowerChar(s[0])] + Lower(s[1..])
  }

  predicate EqIgnoreAsciiCase(a: string, b: string) {
    Lower(a) == Lower(b)
  }

  /** Unicode White_Space, which `str::trim` removes at both ends. */
  predicate IsSpace(c: char) {
    var n := c as int;
    9 <= n <= 13 || n == 0x20 || n == 0x85 || n == 0xA0 || n == 0x1680 || 0x2000 <= n <= 0x200A
    || n == 0x2028 || n == 0x2029 || n == 0x202F || n == 0x205F || n == 0x3000
  }

  /** The characters with that property in the Unicode Character Database, one by one. */
  lemma SpaceTable(c: char)
    ensures IsSpace(c) <==>
              c as int in {0x09, 0x0A, 0x0B, 0x0C, 0x0D, 0x20, 0x85, 0xA0, 0x1680, 0x2000, 0x2001, 0x2002, 0x2003,
                           0x2004, 0x2005, 0x2006, 0x2007, 0x2008, 0x2009, 0x200A, 0x2028, 0x2029, 0x202F, 0x205F,
                           0x3000}
  {
  }

  function TrimStart(s: string): string {
    if s != [] && IsSpace(s[0]) then TrimStart(s[1..]) else s
  }

  function TrimEnd(s: string): string {
    if s != [] && IsSpace(s[|s| - 1]) then TrimEnd(s[..|s| - 1]) else s
  }

  function Trim(s: string): string {
    TrimEnd(TrimStart(s))
  }

  /** The pieces between occurrences of a separator; never empty. */
  function Split(s: string, sep: char): (pieces: seq<string>)
    ensures pieces != []
  {
    if s == [] then [[]]
    else
      var rest := Split(s[1..], sep);
      if s[0] == sep then [[]] + rest else [[s[0]] + rest[0]] + rest[1..]
  }

  function Join(pieces: seq<string>, sep: char): string
    requires pieces != []
  {
    if |pieces| == 1 then pieces[0] else pieces[0] + [sep] + Join(pieces[1..], sep)
  }

  /** Splitting loses nothing, and leaves no separator in a piece. */
  lemma {:induction false} SplitJoins(s: string, sep: char)
    ensures Join(Split(s, sep), sep) == s
    ensures forall k | 0 <= k < |Split(s, sep)| :: sep !in Split(s, sep)[k]
  {
    if s != [] {
      SplitJoins(s[1..], sep);
      var rest, pieces := Split(s[1..], sep), Split(s, sep);
      assert s == [s[0]] + s[1..];
      if s[0] == sep {
        assert pieces[1..] == rest;
      } else {
        assert pieces[1..] == rest[1..];
        assert |rest| > 1 ==> Join(pieces, sep) == [s[0]] + (rest[0] + [sep] + Join(rest[1..], sep));
      }
    }
  }

  predicate AllSpace(s: string) {
    forall i | 0 <= i < |s| :: IsSpace(s[i])
  }

  lemma {:induction false} TrimStartMeaning(s: string) returns (front: string)
    ensures s == front + TrimStart(s) && AllSpace(front)
    ensures TrimStart(s) != [] ==> !IsSpace(TrimStart(s)[0])
  {
    front := [];
    if s != [] && IsSpace(s[0]) {
      var f := TrimStartMeaning(s[1..]);
      front := [s[0]] + f;
    }
  }

  lemma {:induction false} TrimEndMeaning(s: string) returns (back: string)
    ensures s == TrimEnd(s) + back && AllSpace(back)
    ensures TrimEnd(s) != [] ==> !IsSpace(TrimEnd(s)[|TrimEnd(s)| - 1])
  {
    back := [];
    if s != [] && IsSpace(s[|s| - 1]) {
      var b := TrimEndMeaning(s[..|s| - 1]);
      back := b + [s[|s| - 1]];
    }
  }

  /** Trimming takes white space off both ends, all of it and nothing else. */
  lemma TrimMeaning(s: string) returns (front: string, back: string)
    ensures s == front + Trim(s) + back && AllSpace(front) && AllSpace(back)
    ensures Trim(s) != [] ==> !IsSpace(Trim(s)[0]) && !IsSpace(Trim(s)[|Trim(s)| - 1])
  {
    front := TrimStartMeaning(s);
    back := TrimEndMeaning(TrimStart(s));
  }

  function Decimal(n: nat): string {
    (if n < 10 then [] else Decimal(n / 10)) + ["0123456789"[n % 10]]
  }

  /** The number a string of digits stands for. */
  function Value(digits: string): int {
    if digits == "" then 0
    else 10 * Value(digits[..|digits| - 1]) + (digits[|digits| - 1] as int - '0' as int)
  }

  lemma ValueAppend(front: string, c: char)
    ensures Value(front + [c]) == 10 * Value(front) + (c as int - '0' as int)
  {
    assert (front + [c])[..|front|] == front;
  }

  /** The last digit, and those before it. */
  lemma DecimalEnds(n: nat) returns (front: string, c: char)
    ensures Decimal(n) == front + [c] && front == if n < 10 then "" else Decimal(n / 10)
    ensures c as int == '0' as int + n % 10
  {
    front, c := if n < 10 then "" else Decimal(n / 10), "0123456789"[n % 10];
  }

  /** The digits read back as the number, and there is no leading zero. */
  lemma {:induction false} DecimalReads(n: nat)
    ensures Value(Decimal(n)) == n
    ensures Decimal(n) != "" && forall i | 0 <= i < |Decimal(n)| :: '0' <= Decimal(n)[i] <= '9'
    ensures n > 0 ==> Decimal(n)[0] != '0'
    ensures n == 0 ==> Decimal(n) == "0"
  {
    var front, c := DecimalEnds(n);
    ValueAppend(front, c);
    if n >= 10 { DecimalReads(n / 10); }
  }

  /** Up to the first separator, a text is its first piece. */
  lemma {:induction false} FirstPiece(front: string, back: string, sep: char)
    requires sep !in front && (back == "" || back[0] == sep)
    ensures Split(front + back, sep)[0] == front
  {
    if front == "" {
      assert front + back == back;
    } else {
      FirstPiece(front[1..], back, sep);
      assert (front + back)[1..] == front[1..] + back;
    }
  }
}
