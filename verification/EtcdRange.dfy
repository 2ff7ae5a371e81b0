/**
 "All keys with this prefix" as a half-open range of byte strings (src/discovery/etcd.rs,
 `service_key` and `range_end`).
 */
module EtcdRange {
  import opened Utf8

  /** Lexicographic order, the order of the store's keys. */
  predicate Less(a: seq<Byte>, b: seq<Byte>) {
    b != [] && (a == [] || a[0] < b[0] || (a[0] == b[0] && Less(a[1..], b[1..])))
  }

  /** The bytes of "/services/". */
  const PREFIX: seq<Byte> := [0x2F, 0x73, 0x65, 0x72, 0x76, 0x69, 0x63, 0x65, 0x73, 0x2F]

  lemma PrefixBytes()
    ensures |PREFIX| == |"/services/"| && forall i | 0 <= i < |PREFIX| :: PREFIX[i] == "/services/"[i] as int
  {
  }

  function ServiceKey(name: seq<Byte>): seq<Byte> {
    PREFIX + name
  }

  function WrappingSuccessor(b: Byte): Byte {
    (b as int + 1) % 256
  }

  function Bumped(key: seq<Byte>): seq<Byte> {
    if key == [] then [] else key[|key| - 1 := WrappingSuccessor(key[|key| - 1])]
  }

  function RangeEnd(key: seq<Byte>): seq<Byte> {
    Lossy(Bumped(key))
  }

  method ComputeRangeEnd(key: seq<Byte>) returns (end: seq<Byte>)
    ensures end == RangeEnd(key)
    ensures key != [] ==>
              var front, last := key[..|key| - 1], key[|key| - 1];
              end == Lossy(front + [if last == 0xFF then 0 else last + 1])
  {
    var bytes := new Byte[|key|](i requires 0 <= i < |key| => key[i]);
    assert bytes[..] == key;
    if bytes.Length > 0 {
      bytes[bytes.Length - 1] := WrappingSuccessor(bytes[bytes.Length - 1]);
    }
    assert bytes[..] == Bumped(key);
    assert key != [] ==> bytes[..] == key[..|key| - 1] + [WrappingSuccessor(key[|key| - 1])];
    end := Lossy(bytes[..]);
  }

  predicate InRange(key: seq<Byte>, x: seq<Byte>) {
    !Less(x, key) && Less(x, RangeEnd(key))
  }

  ghost predicate Exact(key: seq<Byte>) {
    forall x: seq<Byte> :: InRange(key, x) <==> key <= x
  }

  lemma {:induction false} LessAfterPrefix(p: seq<Byte>, a: seq<Byte>, b: seq<Byte>)
    ensures Less(p + a, p + b) <==> Less(a, b)
  {
    if p == [] {
      assert p + a == a && p + b == b;
    } else {
      LessAfterPrefix(p[1..], a, b);
      assert (p + a)[1..] == p[1..] + a && (p + b)[1..] == p[1..] + b;
    }
  }

  /** Between `p + [c]` and `p + [c + 1]` lie exactly the extensions of `p + [c]`. */
  lemma {:induction false} BetweenSuccessors(p: seq<Byte>, c: Byte, x: seq<Byte>)
    requires c < 255
    ensures !Less(x, p + [c]) && Less(x, p + [c + 1]) <==> p + [c] <= x
  {
    if p == [] {
      assert p + [c] == [c] && p + [c + 1] == [c + 1];
      if x != [] {
        assert [c] <= x <==> x[0] == c;
      }
    } else if x != [] {
      BetweenSuccessors(p[1..], c, x[1..]);
      assert (p + [c])[1..] == p[1..] + [c] && (p + [c + 1])[1..] == p[1..] + [c + 1];
      assert p + [c] <= x <==> p[0] == x[0] && p[1..] + [c] <= x[1..];
    }
  }

  /** The last bytes after which the successor is no well-formed text. */
  predicate BreaksUtf8(b: Byte) {
    b == 0x7F || b == 0xBF
  }

  predicate Unbroken(name: seq<Byte>) {
    name == [] || !BreaksUtf8(name[|name| - 1])
  }

  predicate IsScalar(c: seq<Byte>) {
    c != [] && ScalarLength(c) == |c|
  }

  /** The bumped scalar's end comes before the scalar itself. */
  predicate EndsBefore(c: seq<Byte>) {
    |c| == 4 || (|c| == 3 && c[0] == 0xEF && c[1] == 0xBF)
  }

  lemma BumpedScalar(c: seq<Byte>)
    requires IsScalar(c)
    ensures !BreaksUtf8(c[|c| - 1]) ==> Valid(Bumped(c))
    ensures c[|c| - 1] == 0x7F ==> |c| == 1 && Lossy(Bumped(c)) == REPLACEMENT
    ensures c[|c| - 1] == 0xBF ==> |c| > 1 && Lossy(Bumped(c)) == REPLACEMENT + REPLACEMENT
  {
    var b := Bumped(c);
    if BreaksUtf8(c[|c| - 1]) {
      assert ScalarLength(b) == 0;
      assert Lossy([]) == [];
      if c[|c| - 1] == 0xBF {
        assert BadLength(b) == |c| - 1 && b[|c| - 1..] == [0xC0];
        assert ScalarLength([0xC0]) == 0 && [0xC0][1..] == [];
        assert Lossy([0xC0]) == REPLACEMENT + [] == REPLACEMENT;
      } else {
        assert b == [0x80] && b[1..] == [];
        assert Lossy(b) == REPLACEMENT + [] == REPLACEMENT;
      }
    } else {
      assert ScalarLength(b) == |c| && b[|c|..] == [];
    }
  }

  lemma BumpedConcat(p: seq<Byte>, c: seq<Byte>)
    requires c != []
    ensures Bumped(p + c) == p + Bumped(c)
  {
  }

  lemma BumpedEnd(p: seq<Byte>, c: seq<Byte>)
    requires Valid(p) && IsScalar(c)
    ensures var end := Lossy(Bumped(c)); RangeEnd(p + c) == p + end
  {
    BumpedConcat(p, c);
    ValidConcat(p, Bumped(c));
  }

  lemma BumpedKeyValid(key: seq<Byte>)
    requires Valid(key) && key != [] && !BreaksUtf8(key[|key| - 1])
    ensures key[|key| - 1] < 0xBF && RangeEnd(key) == Bumped(key)
  {
    var p, c := LastScalar(key);
    assert c[|c| - 1] == key[|key| - 1];
    BumpedScalar(c);
    LossyIdentity(Bumped(c));
    BumpedEnd(p, c);
    BumpedConcat(p, c);
  }

  lemma SuccessorBounds(key: seq<Byte>, x: seq<Byte>)
    requires key != [] && key[|key| - 1] < 255
    ensures !Less(x, key) && Less(x, Bumped(key)) <==> key <= x
  {
    var front, last := key[..|key| - 1], key[|key| - 1];
    assert key == front + [last] && Bumped(key) == front + [last + 1];
    BetweenSuccessors(front, last, x);
  }

  lemma ExactWhenWellFormed(key: seq<Byte>)
    requires Valid(key) && key != [] && !BreaksUtf8(key[|key| - 1])
    ensures Exact(key)
  {
    BumpedKeyValid(key);
    forall x: seq<Byte> ensures InRange(key, x) <==> key <= x {
      SuccessorBounds(key, x);
    }
  }

  lemma SamePrefix(p: seq<Byte>, a: seq<Byte>, b: seq<Byte>)
    ensures p + a <= p + b <==> a <= b
  {
    assert (p + b)[|p|..] == b && (p + a)[|p|..] == a;
    if a <= b { assert p + b == (p + a) + b[|a|..]; }
  }

  /** Membership of a range that shares all but the end with its key. */
  lemma InRangeByTail(key: seq<Byte>, p: seq<Byte>, c: seq<Byte>, end: seq<Byte>, y: seq<Byte>)
    requires key == p + c && RangeEnd(key) == p + end
    ensures InRange(key, p + y) <==> !Less(y, c) && Less(y, end)
  {
    LessAfterPrefix(p, y, c);
    LessAfterPrefix(p, y, end);
  }

  /** A key that is in its own range without being a prefix, or the reverse. */
  lemma InexactWhenBroken(key: seq<Byte>) returns (x: seq<Byte>)
    requires Valid(key) && key != [] && BreaksUtf8(key[|key| - 1])
    ensures InRange(key, x) != (key <= x)
  {
    var p, c := LastScalar(key);
    assert c[|c| - 1] == key[|key| - 1];
    BumpedEnd(p, c);
    x := InexactAfter(key, p, c, Lossy(Bumped(c)));
  }

  lemma InexactAfter(key: seq<Byte>, p: seq<Byte>, c: seq<Byte>, end: seq<Byte>) returns (x: seq<Byte>)
    requires IsScalar(c) && BreaksUtf8(c[|c| - 1]) && end == Lossy(Bumped(c))
    requires key == p + c && RangeEnd(key) == p + end
    ensures InRange(key, x) != (key <= x)
  {
    var y := if EndsBefore(c) then c else Bumped(c);
    x := p + y;
    InRangeByTail(key, p, c, end, y);
    SamePrefix(p, c, y);
    InexactTail(c, y, end);
  }

  lemma InexactTail(c: seq<Byte>, y: seq<Byte>, end: seq<Byte>)
    requires IsScalar(c) && BreaksUtf8(c[|c| - 1])
    requires end == Lossy(Bumped(c)) && y == if EndsBefore(c) then c else Bumped(c)
    ensures (!Less(y, c) && Less(y, end)) != (c <= y)
  {
    BumpedScalar(c);
    assert end[0] == 0xEF && end[1..][0] == 0xBF && end[1..][1..][0] == 0xBD;
    if y == c {
      LessAfterPrefix(c, [], []);
      assert c + [] == c;
    } else {
      NotLessBumped(c);
      NotPrefixOfBumped(c);
    }
    if |c| == 3 {
      assert Less(y, end) <==> y[0] < 0xEF || (y[0] == 0xEF && Less(y[1..], end[1..]));
      assert Less(y[1..], end[1..]) <==> y[1] < 0xBF || (y[1] == 0xBF && Less(y[1..][1..], end[1..][1..]));
    }
  }

  lemma NotLessBumped(c: seq<Byte>)
    requires c != [] && c[|c| - 1] < 255
    ensures !Less(Bumped(c), c)
  {
    var b := Bumped(c);
    SuccessorBounds(c, c);
    LessAsymmetric(c, b);
  }

  lemma NotPrefixOfBumped(c: seq<Byte>)
    requires c != [] && c[|c| - 1] < 255
    ensures !(c <= Bumped(c))
  {
    assert Bumped(c)[|c| - 1] != c[|c| - 1];
  }

  lemma {:induction false} LessAsymmetric(a: seq<Byte>, b: seq<Byte>)
    requires Less(a, b)
    ensures !Less(b, a)
  {
    if a != [] && a[0] == b[0] {
      LessAsymmetric(a[1..], b[1..]);
    }
  }

  /** The range of a key holds exactly the keys it is a prefix of, unless its last byte breaks the encoding. */
  lemma RangeIsPrefixExactly(key: seq<Byte>)
    requires Valid(key) && key != []
    ensures Exact(key) <==> !BreaksUtf8(key[|key| - 1])
  {
    if BreaksUtf8(key[|key| - 1]) {
      var x := InexactWhenBroken(key);
    } else {
      ExactWhenWellFormed(key);
    }
  }

  lemma ExtensionExact(p: seq<Byte>, name: seq<Byte>)
    requires Valid(p) && p != [] && !BreaksUtf8(p[|p| - 1])
    requires Valid(name) && Unbroken(name)
    ensures Exact(p + name)
  {
    ValidConcat(p, name);
    ExactWhenWellFormed(p + name);
  }

  lemma PrefixIsText()
    ensures Valid(PREFIX)
  {
  }

  lemma ServiceKeyExact(name: seq<Byte>)
    requires Valid(name) && Unbroken(name)
    ensures Exact(ServiceKey(name))
  {
    PrefixIsText();
    ExtensionExact(PREFIX, name);
  }

  /** Two services' queries overlap exactly when one name is a prefix of the other, and then one holds the other. */
  lemma RangesNestOrAreDisjoint(a: seq<Byte>, b: seq<Byte>)
    requires Valid(a) && Unbroken(a)
    requires Valid(b) && Unbroken(b)
    ensures a <= b <==> forall x :: InRange(ServiceKey(b), x) ==> InRange(ServiceKey(a), x)
    ensures !(a <= b) && !(b <= a)
       <==> forall x :: !(InRange(ServiceKey(a), x) && InRange(ServiceKey(b), x))
  {
    ServiceKeyExact(a);
    ServiceKeyExact(b);
    NestOrDisjoint(ServiceKey(a), ServiceKey(b));
    SamePrefix(PREFIX, a, b);
    SamePrefix(PREFIX, b, a);
  }

  lemma NestOrDisjoint(k: seq<Byte>, l: seq<Byte>)
    requires Exact(k) && Exact(l)
    ensures k <= l <==> forall x :: InRange(l, x) ==> InRange(k, x)
    ensures !(k <= l) && !(l <= k) <==> forall x :: !(InRange(k, x) && InRange(l, x))
  {
    assert InRange(k, k) && InRange(l, l);
  }

  /// Exactly which names obey that law

  /** The law above, between one name and every name whose own range is exact. */
  ghost predicate PrefixLaw(a: seq<Byte>) {
    forall b: seq<Byte> | Valid(b) && Unbroken(b) ::
      && (a <= b <==> forall x :: InRange(ServiceKey(b), x) ==> InRange(ServiceKey(a), x))
      && (!(a <= b) && !(b <= a) <==> forall x :: !(InRange(ServiceKey(a), x) && InRange(ServiceKey(b), x)))
  }

  /** A scalar between a broken one and its end, that is no extension of it. */
  function Between(c: seq<Byte>): seq<Byte> {
    if |c| == 1 then [0xC2, 0x80]
    else if |c| == 2 then [0xE0, 0xA0, 0x80]
    else if |c| == 3 && c[0] != 0xEF then [0xEF, 0x80, 0x80]
    else [0xEF, 0xBF, 0x80]
  }

  lemma BetweenIsScalar(c: seq<Byte>)
    ensures IsScalar(Between(c)) && Valid(Between(c)) && Unbroken(Between(c))
  {
    assert Between(c)[|Between(c)|..] == [];
  }

  lemma BetweenOrder(c: seq<Byte>)
    requires IsScalar(c) && BreaksUtf8(c[|c| - 1]) && !EndsBefore(c)
    ensures Less(c, Between(c)) && !(c <= Between(c)) && !(Between(c) <= c)
  {
    var y := Between(c);
    if c[0] == y[0] {
      assert c[1..][0] < y[1..][0];
    }
  }

  lemma BetweenEnd(c: seq<Byte>)
    requires IsScalar(c) && BreaksUtf8(c[|c| - 1]) && !EndsBefore(c)
    ensures Less(Between(c), Lossy(Bumped(c)))
  {
    BumpedScalar(c);
    var y, end := Between(c), Lossy(Bumped(c));
    assert end[0] == 0xEF && end[1..][0] == 0xBF && end[1..][1..][0] == 0xBD;
    if y[0] == 0xEF {
      assert Less(y[1..], end[1..]) <==> y[1..][0] < 0xBF || (y[1..][0] == 0xBF && Less(y[1..][1..], end[1..][1..]));
    }
  }

  lemma ExtensionPastEnd(c: seq<Byte>, t: seq<Byte>)
    requires IsScalar(c) && BreaksUtf8(c[|c| - 1]) && EndsBefore(c)
    ensures !Less(c + t, Lossy(Bumped(c)))
  {
    BumpedScalar(c);
    var x, end := c + t, Lossy(Bumped(c));
    assert end[0] == 0xEF && end[1..][0] == 0xBF && end[1..][1..][0] == 0xBD;
    if |c| == 3 {
      assert c[2] == 0xBF;
      assert x[1..][0] == 0xBF && x[1..][1..][0] == 0xBF;
      assert !Less(x[1..][1..], end[1..][1..]);
      assert !Less(x[1..], end[1..]);
    }
  }

  lemma KeyInOwnRange(name: seq<Byte>)
    requires Valid(name) && Unbroken(name)
    ensures InRange(ServiceKey(name), ServiceKey(name))
  {
    ServiceKeyExact(name);
  }

  lemma MeetsWithoutPrefix(a: seq<Byte>, b: seq<Byte>)
    requires Valid(b) && Unbroken(b) && !(a <= b) && !(b <= a) && InRange(ServiceKey(a), ServiceKey(b))
    ensures !PrefixLaw(a)
  {
    KeyInOwnRange(b);
  }

  lemma EscapesWithPrefix(a: seq<Byte>, b: seq<Byte>)
    requires Valid(b) && Unbroken(b) && a <= b && !InRange(ServiceKey(a), ServiceKey(b))
    ensures !PrefixLaw(a)
  {
    KeyInOwnRange(b);
  }

  lemma TextConcat(p: seq<Byte>, t: seq<Byte>)
    requires Valid(p) && Valid(t)
    ensures Valid(p + t)
  {
    ValidConcat(p, t);
  }

  lemma Reassociate(p: seq<Byte>, front: seq<Byte>, c: seq<Byte>)
    ensures p + (front + c) == (p + front) + c
  {
  }

  lemma BrokenEnd(a: seq<Byte>) returns (front: seq<Byte>, c: seq<Byte>)
    requires Valid(a) && !Unbroken(a)
    ensures a == front + c && Valid(front) && IsScalar(c) && BreaksUtf8(c[|c| - 1])
    ensures Valid(PREFIX + front)
  {
    front, c := LastScalar(a);
    assert c[|c| - 1] == a[|a| - 1];
    PrefixIsText();
    TextConcat(PREFIX, front);
  }

  lemma KeyEnd(front: seq<Byte>, c: seq<Byte>, p: seq<Byte>, end: seq<Byte>)
    requires p == PREFIX + front && Valid(p) && IsScalar(c) && end == Lossy(Bumped(c))
    ensures RangeEnd(ServiceKey(front + c)) == p + end
  {
    Reassociate(PREFIX, front, c);
    BumpedEnd(p, c);
  }

  lemma TailInRange(a: seq<Byte>, front: seq<Byte>, c: seq<Byte>, end: seq<Byte>, y: seq<Byte>)
    requires a == front + c && RangeEnd(ServiceKey(a)) == (PREFIX + front) + end
    ensures InRange(ServiceKey(a), ServiceKey(front + y)) <==> !Less(y, c) && Less(y, end)
  {
    assert ServiceKey(a) == (PREFIX + front) + c && ServiceKey(front + y) == (PREFIX + front) + y;
    InRangeByTail(ServiceKey(a), PREFIX + front, c, end, y);
  }

  lemma ValidName(front: seq<Byte>, y: seq<Byte>)
    requires Valid(front) && Valid(y) && y != [] && Unbroken(y)
    ensures Valid(front + y) && Unbroken(front + y)
  {
    ValidConcat(front, y);
  }

  lemma BrokenEscapes(a: seq<Byte>, front: seq<Byte>, c: seq<Byte>, end: seq<Byte>)
    requires Valid(a) && a == front + c && IsScalar(c) && BreaksUtf8(c[|c| - 1]) && EndsBefore(c)
    requires end == Lossy(Bumped(c)) && RangeEnd(ServiceKey(a)) == (PREFIX + front) + end
    ensures !PrefixLaw(a)
  {
    AsciiValid([0x61]);
    ValidName(a, [0x61]);
    Reassociate(front, c, [0x61]);
    TailInRange(a, front, c, end, c + [0x61]);
    ExtensionPastEnd(c, [0x61]);
    EscapesWithPrefix(a, a + [0x61]);
  }

  lemma BrokenMeets(a: seq<Byte>, front: seq<Byte>, c: seq<Byte>, end: seq<Byte>, y: seq<Byte>)
    requires Valid(front) && a == front + c && IsScalar(c) && BreaksUtf8(c[|c| - 1]) && !EndsBefore(c)
    requires end == Lossy(Bumped(c)) && RangeEnd(ServiceKey(a)) == (PREFIX + front) + end && y == Between(c)
    ensures !PrefixLaw(a)
  {
    BetweenIsScalar(c);
    ValidName(front, y);
    BetweenOrder(c);
    LessAsymmetric(c, y);
    BetweenEnd(c);
    TailInRange(a, front, c, end, y);
    SamePrefix(front, c, y);
    SamePrefix(front, y, c);
    MeetsWithoutPrefix(a, front + y);
  }

  /** A name with a broken end: some other name's range meets its own without a prefix, or escapes it with one. */
  lemma BrokenLaw(a: seq<Byte>)
    requires Valid(a) && !Unbroken(a)
    ensures !PrefixLaw(a)
  {
    var front, c := BrokenEnd(a);
    KeyEnd(front, c, PREFIX + front, Lossy(Bumped(c)));
    if EndsBefore(c) {
      BrokenEscapes(a, front, c, Lossy(Bumped(c)));
    } else {
      BrokenMeets(a, front, c, Lossy(Bumped(c)), Between(c));
    }
  }

  /** The law holds for a name exactly when its range is exact. */
  lemma PrefixLawExactlyWhenUnbroken(a: seq<Byte>)
    requires Valid(a)
    ensures PrefixLaw(a) <==> Unbroken(a)
  {
    if Unbroken(a) {
      forall b: seq<Byte> | Valid(b) && Unbroken(b)
        ensures a <= b <==> forall x :: InRange(ServiceKey(b), x) ==> InRange(ServiceKey(a), x)
        ensures !(a <= b) && !(b <= a)
           <==> forall x :: !(InRange(ServiceKey(a), x) && InRange(ServiceKey(b), x))
      {
        RangesNestOrAreDisjoint(a, b);
      }
    } else {
      BrokenLaw(a);
    }
  }

  /** For a name in ASCII that only shuts out the control character at the end. */
  lemma AsciiNameExact(name: seq<Byte>)
    requires forall i | 0 <= i < |name| :: name[i] < 0x80
    ensures Exact(ServiceKey(name)) <==> name == [] || name[|name| - 1] != 0x7F
    ensures PrefixLaw(name) <==> name == [] || name[|name| - 1] != 0x7F
  {
    AsciiValid(name);
    PrefixIsText();
    ValidConcat(PREFIX, name);
    RangeIsPrefixExactly(ServiceKey(name));
    PrefixLawExactlyWhenUnbroken(name);
  }
}
