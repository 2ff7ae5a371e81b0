/**
 UTF-8 as the source's strings use it: well-formedness (Table 3-7 of the Unicode Standard) and
 `String::from_utf8_lossy`, which puts U+FFFD for every maximal part of an ill-formed scalar.
 */
module Utf8 {
  type Byte = b: int | 0 <= b < 256

  predicate IsContinuation(b: Byte) {
    0x80 <= b <= 0xBF
  }

  /** Bytes in the scalar a lead byte opens; zero for a byte that opens none. */
  function Needed(lead: Byte): (n: nat)
    ensures n <= 4
  {
    if lead < 0x80 then 1
    else if 0xC2 <= lead <= 0xDF then 2
    else if 0xE0 <= lead <= 0xEF then 3
    else if 0xF0 <= lead <= 0xF4 then 4
    else 0
  }

  /** The second byte is narrower for four leads: no overlong form, no surrogate, nothing above U+10FFFF. */
  predicate SecondFits(lead: Byte, b: Byte) {
    && IsContinuation(b)
    && (lead == 0xE0 ==> 0xA0 <= b)
    && (lead == 0xED ==> b <= 0x9F)
    && (lead == 0xF0 ==> 0x90 <= b)
    && (lead == 0xF4 ==> b <= 0x8F)
  }

  /** Length of the well-formed scalar at the start, or zero. */
  function ScalarLength(s: seq<Byte>): (n: nat)
    requires s != []
    ensures n <= |s|
  {
    var n := Needed(s[0]);
    if n == 0 || |s| < n then 0
    else if n >= 2 && !SecondFits(s[0], s[1]) then 0
    else if n >= 3 && !IsContinuation(s[2]) then 0
    else if n == 4 && !IsContinuation(s[3]) then 0
    else n
  }

  /** Length of the maximal part one replacement stands for, where no scalar starts. */
  function BadLength(s: seq<Byte>): (n: nat)
    requires s != [] && ScalarLength(s) == 0
    ensures 1 <= n <= |s|
  {
    if Needed(s[0]) < 2 || |s| < 2 || !SecondFits(s[0], s[1]) then 1
    else if |s| < 3 || !IsContinuation(s[2]) then 2
    else 3
  }

  predicate Valid(s: seq<Byte>) {
    s == [] || (ScalarLength(s) > 0 && Valid(s[ScalarLength(s)..]))
  }

  const REPLACEMENT: seq<Byte> := [0xEF, 0xBF, 0xBD]

  function Lossy(s: seq<Byte>): seq<Byte> {
    if s == [] then []
    else if ScalarLength(s) > 0 then s[..ScalarLength(s)] + Lossy(s[ScalarLength(s)..])
    else REPLACEMENT + Lossy(s[BadLength(s)..])
  }

  lemma ScalarIsValid(s: seq<Byte>)
    requires s != [] && ScalarLength(s) > 0
    ensures Valid(s[..ScalarLength(s)])
  {
  }

  lemma {:induction false} AsciiValid(s: seq<Byte>)
    requires forall i | 0 <= i < |s| :: s[i] < 0x80
    ensures Valid(s)
  {
    if s != [] {
      AsciiValid(s[1..]);
    }
  }

  lemma CutConcat(s: seq<Byte>, t: seq<Byte>, n: nat)
    requires n <= |s|
    ensures (s + t)[n..] == s[n..] + t && (s + t)[..n] == s[..n] && s[..n] + (s[n..] + t) == s + t
  {
  }

  lemma {:induction false} ValidConcat(s: seq<Byte>, t: seq<Byte>)
    requires Valid(s)
    ensures Valid(s + t) <==> Valid(t)
    ensures Lossy(s + t) == s + Lossy(t)
  {
    if s == [] {
      assert s + t == t;
    } else {
      var n := ScalarLength(s);
      assert ScalarLength(s + t) == n;
      CutConcat(s, t, n);
      CutConcat(s, Lossy(t), n);
      ValidConcat(s[n..], t);
    }
  }

  lemma {:induction false} LossyIsValid(s: seq<Byte>)
    ensures Valid(Lossy(s))
  {
    if s != [] {
      var n := ScalarLength(s);
      if n > 0 {
        LossyIsValid(s[n..]);
        ScalarIsValid(s);
        ValidConcat(s[..n], Lossy(s[n..]));
      } else {
        LossyIsValid(s[BadLength(s)..]);
        assert ScalarLength(REPLACEMENT) == 3 && REPLACEMENT[3..] == [];
        ValidConcat(REPLACEMENT, Lossy(s[BadLength(s)..]));
      }
    }
  }

  /** The lossy conversion is the identity on well-formed text and on nothing else. */
  lemma LossyIdentity(s: seq<Byte>)
    ensures Lossy(s) == s <==> Valid(s)
  {
    LossyIsValid(s);
    if Valid(s) {
      ValidConcat(s, []);
      assert s + [] == s;
    }
  }

  /** Non-empty well-formed text ends in one scalar after well-formed text. */
  lemma {:induction false} LastScalar(s: seq<Byte>) returns (front: seq<Byte>, last: seq<Byte>)
    requires Valid(s) && s != []
    ensures s == front + last && Valid(front)
    ensures last != [] && ScalarLength(last) == |last|
  {
    var n := ScalarLength(s);
    if n == |s| {
      front, last := [], s;
    } else {
      var f, l := LastScalar(s[n..]);
      front, last := s[..n] + f, l;
      ScalarIsValid(s);
      ValidConcat(s[..n], f);
    }
  }

  /// The encoding these bytes come from (section 3 of RFC 3629)

  /** A Unicode scalar value: no surrogate. */
  type Scalar = c: int | 0 <= c < 0xD800 || 0xE000 <= c < 0x11_0000

  function Encode(c: Scalar): (s: seq<Byte>)
    ensures 1 <= |s| <= 4
  {
    if c < 0x80 then [c]
    else if c < 0x800 then [0xC0 + c / 64, 0x80 + c % 64]
    else if c < 0x1_0000 then [0xE0 + c / 4096, 0x80 + c / 64 % 64, 0x80 + c % 64]
    else [0xF0 + c / 26_2144, 0x80 + c / 4096 % 64, 0x80 + c / 64 % 64, 0x80 + c % 64]
  }

  lemma EncodedIsScalar(c: Scalar)
    ensures ScalarLength(Encode(c)) == |Encode(c)|
  {
  }

  lemma ThreeBytes(a: int, b: int, d: int) returns (c: int)
    requires 0 <= a < 16 && 0 <= b < 64 && 0 <= d < 64
    ensures c == (a * 64 + b) * 64 + d && c / 4096 == a && c / 64 % 64 == b && c % 64 == d
  {
    c := (a * 64 + b) * 64 + d;
    assert c / 64 == a * 64 + b;
  }

  lemma FourBytes(a: int, b: int, d: int, e: int) returns (c: int)
    requires 0 <= a < 8 && 0 <= b < 64 && 0 <= d < 64 && 0 <= e < 64
    ensures c == ((a * 64 + b) * 64 + d) * 64 + e
    ensures c / 26_2144 == a && c / 4096 % 64 == b && c / 64 % 64 == d && c % 64 == e
  {
    c := ((a * 64 + b) * 64 + d) * 64 + e;
    assert c / 64 == (a * 64 + b) * 64 + d;
    assert c / 4096 == a * 64 + b;
  }

  /** The scalar value that well-formed bytes stand for. */
  lemma ScalarIsEncoded(s: seq<Byte>) returns (c: Scalar)
    requires s != [] && ScalarLength(s) == |s|
    ensures Encode(c) == s
  {
    if |s| == 1 {
      c := s[0];
    } else if |s| == 2 {
      c := (s[0] as int - 0xC0) * 64 + (s[1] as int - 0x80);
    } else if |s| == 3 {
      var x := ThreeBytes(s[0] as int - 0xE0, s[1] as int - 0x80, s[2] as int - 0x80);
      c := x;
    } else {
      var x := FourBytes(s[0] as int - 0xF0, s[1] as int - 0x80, s[2] as int - 0x80, s[3] as int - 0x80);
      c := x;
    }
  }

  function EncodeAll(cs: seq<Scalar>): seq<Byte> {
    if cs == [] then [] else Encode(cs[0]) + EncodeAll(cs[1..])
  }

  lemma {:induction false} EncodedIsValid(cs: seq<Scalar>)
    ensures Valid(EncodeAll(cs))
  {
    if cs != [] {
      EncodedIsValid(cs[1..]);
      EncodedIsScalar(cs[0]);
      var s := Encode(cs[0]);
      assert s[|s|..] == [];
      ValidConcat(s, EncodeAll(cs[1..]));
    }
  }

  lemma {:induction false} ValidIsEncoded(s: seq<Byte>) returns (cs: seq<Scalar>)
    requires Valid(s)
    ensures EncodeAll(cs) == s
  {
    cs := [];
    if s != [] {
      var n := ScalarLength(s);
      var rest := ValidIsEncoded(s[n..]);
      assert ScalarLength(s[..n]) == n;
      var c := ScalarIsEncoded(s[..n]);
      cs := [c] + rest;
      assert cs[1..] == rest && s == s[..n] + s[n..];
    }
  }

  /** Well-formed is what an encoder writes. */
  lemma ValidMeansEncoded(s: seq<Byte>)
    ensures Valid(s) <==> exists cs :: EncodeAll(cs) == s
  {
    if Valid(s) {
      var cs := ValidIsEncoded(s);
    }
    if cs :| EncodeAll(cs) == s {
      EncodedIsValid(cs);
    }
  }

  /** These bytes start the encoding of some scalar value. */
  ghost predicate Starts(s: seq<Byte>) {
    exists c :: s <= Encode(c)
  }

  lemma StartsWithScalar(s: seq<Byte>, t: seq<Byte>)
    requires s + t != [] && ScalarLength(s + t) == |s + t|
    ensures Starts(s)
  {
    var c := ScalarIsEncoded(s + t);
    assert s <= Encode(c);
  }

  lemma LongestStart(s: seq<Byte>, m: nat)
    requires s != [] && ScalarLength(s) == 0 && BadLength(s) < m <= |s|
    ensures !Starts(s[..m])
  {
    forall c ensures !(s[..m] <= Encode(c)) {
      EncodedIsScalar(c);
      var e := Encode(c);
      if s[..m] <= e {
        assert forall i | 0 <= i < m :: s[i] == s[..m][i] == e[i];
        assert false;
      }
    }
  }

  /** A replacement character stands for the longest bytes that start an encoding, or for one byte that starts none. */
  lemma BadLengthIsMaximal(s: seq<Byte>)
    requires s != [] && ScalarLength(s) == 0
    ensures BadLength(s) == 1 || Starts(s[..BadLength(s)])
    ensures forall m | BadLength(s) < m <= |s| :: !Starts(s[..m])
    ensures REPLACEMENT == Encode(0xFFFD)
  {
    var n := BadLength(s);
    if n == 2 {
      var t: seq<Byte> := if Needed(s[0]) == 3 then [0x80] else [0x80, 0x80];
      StartsWithScalar(s[..2], t);
    } else if n == 3 {
      StartsWithScalar(s[..3], [0x80]);
    }
    forall m | n < m <= |s| ensures !Starts(s[..m]) {
      LongestStart(s, m);
    }
  }

  lemma ScalarKept(c: Scalar, rest: seq<Byte>)
    ensures Lossy(Encode(c) + rest) == Encode(c) + Lossy(rest)
  {
    EncodedIsScalar(c);
    var s := Encode(c);
    assert Valid(s[|s|..]);
    ValidConcat(s, rest);
  }

  lemma StartsWithEncoding(s: seq<Byte>) returns (c: Scalar)
    requires s != [] && ScalarLength(s) > 0
    ensures Encode(c) <= s
  {
    assert ScalarLength(s[..ScalarLength(s)]) == ScalarLength(s);
    c := ScalarIsEncoded(s[..ScalarLength(s)]);
  }

  /** The conversion, by what stands first: a scalar stays, and ill-formed bytes give U+FFFD once for `s[..n]`. */
  lemma LossyMeaning(s: seq<Byte>, n: nat)
    ensures Lossy([]) == []
    ensures forall c, rest :: Lossy(Encode(c) + rest) == Encode(c) + Lossy(rest)
    ensures s != [] && (forall c :: !(Encode(c) <= s)) && 1 <= n <= |s| && (n == 1 || Starts(s[..n]))
            && (forall m | n < m <= |s| :: !Starts(s[..m])) ==>
              Lossy(s) == Encode(0xFFFD) + Lossy(s[n..])
  {
    forall c, rest ensures Lossy(Encode(c) + rest) == Encode(c) + Lossy(rest) {
      ScalarKept(c, rest);
    }
    if s != [] && (forall c :: !(Encode(c) <= s)) && 1 <= n <= |s| && (n == 1 || Starts(s[..n]))
       && forall m | n < m <= |s| :: !Starts(s[..m]) {
      if ScalarLength(s) > 0 {
        var c := StartsWithEncoding(s);
        assert false;
      }
      BadLengthIsMaximal(s);
      assert n == BadLength(s);
    }
  }
}
