/** Session tokens: 32 bytes in unpadded base64url, section 5 of RFC 4648. */
module Token {
  import opened Common

  type Byte = b: int | 0 <= b < 256
  type Sextet = n: int | 0 <= n < 64

  const TOKEN_BYTE_LENGTH := 32
  const TOKEN_TRANSPORT_LENGTH := 43

  // ---------- the alphabet ----------

  function Letter(n: Sextet): char {
    if n < 26 then 'A' + n as char
    else if n < 52 then 'a' + (n - 26) as char
    else if n < 62 then '0' + (n - 52) as char
    else if n == 62 then '-'
    else '_'
  }

  predicate InAlphabet(c: char) {
    'A' <= c <= 'Z' || 'a' <= c <= 'z' || '0' <= c <= '9' || c == '-' || c == '_'
  }

  function Index(c: char): Sextet
    requires InAlphabet(c)
  {
    if 'A' <= c <= 'Z' then c as int - 'A' as int
    else if 'a' <= c <= 'z' then c as int - 'a' as int + 26
    else if '0' <= c <= '9' then c as int - '0' as int + 52
    else if c == '-' then 62
    else 63
  }

  lemma LetterIndex(n: Sextet, c: char)
    ensures InAlphabet(Letter(n)) && Index(Letter(n)) == n
    ensures InAlphabet(c) ==> Letter(Index(c)) == c
  {
  }

  predicate Spelled(s: string) {
    forall i | 0 <= i < |s| :: InAlphabet(s[i])
  }

  function Letters(sextets: seq<Sextet>): (s: string)
    ensures |s| == |sextets|
  {
    seq(|sextets|, i requires 0 <= i < |sextets| => Letter(sextets[i]))
  }

  function Indexes(s: string): (sextets: seq<Sextet>)
    requires Spelled(s)
    ensures |sextets| == |s|
  {
    seq(|s|, i requires 0 <= i < |s| => Index(s[i]))
  }

  // ---------- groups ----------

  // Three bytes a, b, c are four sextets p, q, r, s.

  function P(a: Byte): Sextet {
    a / 4
  }

  function Q(a: Byte, b: Byte): Sextet {
    a % 4 * 16 + b / 16
  }

  function R(b: Byte, c: Byte): Sextet {
    b % 16 * 4 + c / 64
  }

  function S(c: Byte): Sextet {
    c % 64
  }

  function A(p: Sextet, q: Sextet): Byte {
    p * 4 + q / 16
  }

  function B(q: Sextet, r: Sextet): Byte {
    q % 16 * 16 + r / 4
  }

  function C(r: Sextet, s: Sextet): Byte {
    r % 4 * 64 + s
  }

  function Pack(b: seq<Byte>): seq<Sextet> {
    if |b| == 0 then []
    else if |b| == 1 then [P(b[0]), Q(b[0], 0)]
    else if |b| == 2 then [P(b[0]), Q(b[0], b[1]), R(b[1], 0)]
    else [P(b[0]), Q(b[0], b[1]), R(b[1], b[2]), S(b[2])] + Pack(b[3..])
  }

  /** Drops the bits that complete no byte, as a lenient decoder does. */
  function Unpack(x: seq<Sextet>): seq<Byte> {
    if |x| <= 1 then []
    else if |x| == 2 then [A(x[0], x[1])]
    else if |x| == 3 then [A(x[0], x[1]), B(x[1], x[2])]
    else [A(x[0], x[1]), B(x[1], x[2]), C(x[2], x[3])] + Unpack(x[4..])
  }

  /** No lone sextet, and the last bits that complete no byte are zero: section 3.5 of RFC 4648. */
  predicate ZeroPadded(x: seq<Sextet>) {
    match |x| % 4
    case 0 => true
    case 1 => false
    case 2 => x[|x| - 1] % 16 == 0
    case _ => x[|x| - 1] % 4 == 0
  }

  lemma BytesBack(a: Byte, b: Byte, c: Byte)
    ensures A(P(a), Q(a, b)) == a && B(Q(a, b), R(b, c)) == b && C(R(b, c), S(c)) == c
    ensures Q(a, 0) % 16 == 0 && R(b, 0) % 4 == 0
  {
  }

  lemma SextetsBack(p: Sextet, q: Sextet, r: Sextet, s: Sextet)
    ensures P(A(p, q)) == p && Q(A(p, q), B(q, r)) == q && R(B(q, r), C(r, s)) == r && S(C(r, s)) == s
    ensures Q(A(p, q), 0) == q <==> q % 16 == 0
    ensures R(B(q, r), 0) == r <==> r % 4 == 0
  {
    assert A(p, q) == p * 4 + q / 16 && B(q, r) == q % 16 * 16 + r / 4 && C(r, s) == r % 4 * 64 + s;
    assert A(p, q) / 4 == p && A(p, q) % 4 == q / 16;
    assert B(q, r) / 16 == q % 16 && B(q, r) % 16 == r / 4;
    assert C(r, s) / 64 == r % 4 && C(r, s) % 64 == s;
  }

  lemma UnpackOfGroup(p: Sextet, q: Sextet, r: Sextet, s: Sextet, tail: seq<Sextet>)
    ensures Unpack([p, q, r, s] + tail) == [A(p, q), B(q, r), C(r, s)] + Unpack(tail)
  {
    assert ([p, q, r, s] + tail)[4..] == tail;
  }

  lemma UnpackGroupInverts(a: Byte, b: Byte, c: Byte, tail: seq<Byte>)
    requires Unpack(Pack(tail)) == tail
    ensures Unpack(Pack([a, b, c] + tail)) == [a, b, c] + tail
  {
    PackOfGroup(a, b, c, tail);
    UnpackOfGroup(P(a), Q(a, b), R(b, c), S(c), Pack(tail));
    BytesBack(a, b, c);
  }

  lemma {:induction false} UnpackInverts(b: seq<Byte>)
    ensures Unpack(Pack(b)) == b
  {
    if |b| == 1 {
      UnpackFew(b[0], 0);
      assert b == [b[0]];
    } else if |b| == 2 {
      UnpackFew(b[0], b[1]);
      assert b == [b[0], b[1]];
    } else if |b| >= 3 {
      UnpackInverts(b[3..]);
      UnpackGroupInverts(b[0], b[1], b[2], b[3..]);
      assert b == [b[0], b[1], b[2]] + b[3..];
    }
  }

  lemma PackFew(a: Byte, b: Byte)
    ensures Pack([a]) == [P(a), Q(a, 0)] && Pack([a, b]) == [P(a), Q(a, b), R(b, 0)]
  {
  }

  lemma UnpackSome(p: Sextet, q: Sextet, r: Sextet)
    ensures Unpack([p, q]) == [A(p, q)] && Unpack([p, q, r]) == [A(p, q), B(q, r)]
  {
  }

  lemma UnpackFew(a: Byte, b: Byte)
    ensures Unpack(Pack([a])) == [a] && Unpack(Pack([a, b])) == [a, b]
  {
    PackFew(a, b);
    UnpackSome(P(a), Q(a, 0), 0);
    UnpackSome(P(a), Q(a, b), R(b, 0));
    BytesBack(a, b, 0);
    BytesBack(a, 0, 0);
  }

  lemma {:induction false} PackedShape(b: seq<Byte>)
    ensures |Pack(b)| == (4 * |b| + 2) / 3
  {
    if |b| >= 3 {
      PackedShape(b[3..]);
    }
  }

  lemma {:induction false} UnpackedLength(x: seq<Sextet>)
    ensures |Unpack(x)| == 3 * |x| / 4
  {
    if |x| >= 4 {
      UnpackedLength(x[4..]);
    }
  }

  lemma {:induction false} PackInverts(x: seq<Sextet>)
    ensures Pack(Unpack(x)) == x <==> ZeroPadded(x)
  {
    if |x| == 2 {
      PackTwo(x[0], x[1]);
      assert x == [x[0], x[1]];
    } else if |x| == 3 {
      PackThree(x[0], x[1], x[2]);
      assert x == [x[0], x[1], x[2]];
    } else if |x| >= 4 {
      PackInverts(x[4..]);
      PaddedTail(x);
      PackGroup(x[0], x[1], x[2], x[3], x[4..]);
      assert x == [x[0], x[1], x[2], x[3]] + x[4..];
    }
  }

  lemma PackTwo(p: Sextet, q: Sextet)
    ensures Pack(Unpack([p, q])) == [p, q] <==> q % 16 == 0
  {
    UnpackSome(p, q, 0);
    PackFew(A(p, q), 0);
    SextetsBack(p, q, 0, 0);
  }

  lemma PackThree(p: Sextet, q: Sextet, r: Sextet)
    ensures Pack(Unpack([p, q, r])) == [p, q, r] <==> r % 4 == 0
  {
    UnpackSome(p, q, r);
    PackFew(A(p, q), B(q, r));
    SextetsBack(p, q, r, 0);
  }

  lemma PackGroup(p: Sextet, q: Sextet, r: Sextet, s: Sextet, tail: seq<Sextet>)
    ensures Pack(Unpack([p, q, r, s] + tail)) == [p, q, r, s] + tail <==> Pack(Unpack(tail)) == tail
  {
    UnpackOfGroup(p, q, r, s, tail);
    PackOfGroup(A(p, q), B(q, r), C(r, s), Unpack(tail));
    SextetsBack(p, q, r, s);
    SameTail([p, q, r, s], Pack(Unpack(tail)), tail);
  }

  lemma PaddedTail(x: seq<Sextet>)
    requires |x| >= 4
    ensures ZeroPadded(x) <==> ZeroPadded(x[4..])
  {
    assert |x| % 4 == |x[4..]| % 4;
    assert |x| > 4 ==> x[|x| - 1] == x[4..][|x[4..]| - 1];
  }

  lemma PackOfGroup(a: Byte, b: Byte, c: Byte, tail: seq<Byte>)
    ensures Pack([a, b, c] + tail) == [P(a), Q(a, b), R(b, c), S(c)] + Pack(tail)
  {
    assert ([a, b, c] + tail)[3..] == tail;
  }

  lemma SameTail(head: seq<Sextet>, a: seq<Sextet>, b: seq<Sextet>)
    ensures head + a == head + b <==> a == b
  {
    assert (head + a)[|head|..] == a && (head + b)[|head|..] == b;
  }

  // ---------- the bits ----------

  function PowerOf2(n: nat): (p: nat)
    ensures p > 0
  {
    if n == 0 then 1 else 2 * PowerOf2(n - 1)
  }

  /** The low bits of a number, the highest of them first. */
  function Bits(n: nat, width: nat): seq<bool> {
    if width == 0 then [] else Bits(n / 2, width - 1) + [n % 2 == 1]
  }

  lemma {:induction false} BitsJoin(high: nat, low: nat, width: nat, lowWidth: nat)
    requires low < PowerOf2(lowWidth)
    ensures Bits(high * PowerOf2(lowWidth) + low, width + lowWidth) == Bits(high, width) + Bits(low, lowWidth)
  {
    if lowWidth == 0 {
      assert high * PowerOf2(lowWidth) + low == high;
    } else {
      var half := high * PowerOf2(lowWidth - 1);
      assert high * PowerOf2(lowWidth) == 2 * half;
      assert (2 * half + low) / 2 == half + low / 2 && (2 * half + low) % 2 == low % 2;
      BitsJoin(high, low / 2, width, lowWidth - 1);
    }
  }

  lemma Join2(high: nat, low: nat, width: nat)
    requires low < 4
    ensures Bits(high * 4 + low, width + 2) == Bits(high, width) + Bits(low, 2)
  {
    assert PowerOf2(2) == 4;
    BitsJoin(high, low, width, 2);
  }

  lemma Join4(high: nat, low: nat, width: nat)
    requires low < 16
    ensures Bits(high * 16 + low, width + 4) == Bits(high, width) + Bits(low, 4)
  {
    assert PowerOf2(4) == 16;
    BitsJoin(high, low, width, 4);
  }

  lemma Join6(high: nat, low: nat, width: nat)
    requires low < 64
    ensures Bits(high * 64 + low, width + 6) == Bits(high, width) + Bits(low, 6)
  {
    assert PowerOf2(4) == 16 && PowerOf2(6) == 64;
    BitsJoin(high, low, width, 6);
  }

  lemma Cut2(b: Byte)
    ensures Bits(b, 8) == Bits(b / 4, 6) + Bits(b % 4, 2)
  {
    Join2(b / 4, b % 4, 6);
  }

  lemma Cut4(b: Byte)
    ensures Bits(b, 8) == Bits(b / 16, 4) + Bits(b % 16, 4)
  {
    Join4(b / 16, b % 16, 4);
  }

  lemma Cut6(b: Byte)
    ensures Bits(b, 8) == Bits(b / 64, 2) + Bits(b % 64, 6)
  {
    Join6(b / 64, b % 64, 2);
  }

  lemma QBits(a: Byte, b: Byte)
    ensures Bits(Q(a, b), 6) == Bits(a % 4, 2) + Bits(b / 16, 4)
  {
    Join4(a % 4, b / 16, 2);
  }

  lemma RBits(a: Byte, b: Byte)
    ensures Bits(R(a, b), 6) == Bits(a % 16, 4) + Bits(b / 64, 2)
  {
    Join2(a % 16, b / 64, 4);
  }

  lemma Regroup<T>(a: seq<T>, a': seq<T>, b: seq<T>, b': seq<T>, c: seq<T>, c': seq<T>)
    ensures a + (a' + b) + (b' + c) + c' == (a + a') + (b + b') + (c + c')
    ensures a + (a' + b) + (b' + c) == (a + a') + (b + b') + c
  {
  }

  lemma ThreeBytesBits(a: Byte, b: Byte, c: Byte)
    ensures Bits(P(a), 6) + Bits(Q(a, b), 6) + Bits(R(b, c), 6) + Bits(S(c), 6) == Bits(a, 8) + Bits(b, 8) + Bits(c, 8)
  {
    Cut2(a);
    Cut4(b);
    Cut6(c);
    QBits(a, b);
    RBits(b, c);
    Regroup(Bits(a / 4, 6), Bits(a % 4, 2), Bits(b / 16, 4), Bits(b % 16, 4), Bits(c / 64, 2), Bits(c % 64, 6));
  }

  lemma TwoBytesBits(a: Byte, b: Byte)
    ensures Bits(P(a), 6) + Bits(Q(a, b), 6) + Bits(R(b, 0), 6) == Bits(a, 8) + Bits(b, 8) + Bits(0, 2)
  {
    Cut2(a);
    Cut4(b);
    QBits(a, b);
    RBits(b, 0);
    Regroup(Bits(a / 4, 6), Bits(a % 4, 2), Bits(b / 16, 4), Bits(b % 16, 4), Bits(0, 2), []);
  }

  lemma OneByteBits(a: Byte, b: Byte)
    ensures Bits(P(a), 6) + Bits(Q(a, b), 6) == Bits(a, 8) + Bits(b / 16, 4)
  {
    Cut2(a);
    QBits(a, b);
    Associate(Bits(a / 4, 6), Bits(a % 4, 2), Bits(b / 16, 4));
  }

  /** The images of some numbers, one after the other. */
  function Flatten<T>(x: seq<nat>, f: nat -> seq<T>): seq<T> {
    if x == [] then [] else Flatten(x[..|x| - 1], f) + f(x[|x| - 1])
  }

  function SixBits(n: nat): seq<bool> {
    Bits(n, 6)
  }

  function EightBits(n: nat): seq<bool> {
    Bits(n, 8)
  }

  function SextetBits(x: seq<Sextet>): seq<bool> {
    Flatten(x, SixBits)
  }

  function ByteBits(b: seq<Byte>): seq<bool> {
    Flatten(b, EightBits)
  }

  lemma {:induction false} FlattenJoin<T>(x: seq<nat>, y: seq<nat>, f: nat -> seq<T>)
    ensures Flatten(x + y, f) == Flatten(x, f) + Flatten(y, f)
  {
    if y == [] {
      assert x + y == x;
    } else {
      var z, front, last := x + y, y[..|y| - 1], y[|y| - 1];
      assert z[..|z| - 1] == x + front && z[|z| - 1] == last;
      FlattenJoin(x, front, f);
      Associate(Flatten(x, f), Flatten(front, f), f(last));
    }
  }

  lemma FlattenFour<T>(a: nat, b: nat, c: nat, d: nat, f: nat -> seq<T>)
    ensures Flatten([a], f) == f(a)
    ensures Flatten([a, b], f) == f(a) + f(b)
    ensures Flatten([a, b, c], f) == f(a) + f(b) + f(c)
    ensures Flatten([a, b, c, d], f) == f(a) + f(b) + f(c) + f(d)
  {
    FlattenLast([], a, f);
    FlattenLast([a], b, f);
    FlattenLast([a, b], c, f);
    FlattenLast([a, b, c], d, f);
    assert [] + [a] == [a] && [a] + [b] == [a, b] && [a, b] + [c] == [a, b, c] && [a, b, c] + [d] == [a, b, c, d];
    assert [] + f(a) == f(a);
  }

  lemma FlattenLast<T>(x: seq<nat>, n: nat, f: nat -> seq<T>)
    ensures Flatten(x + [n], f) == Flatten(x, f) + f(n)
  {
    assert (x + [n])[..|x|] == x;
  }

  /** The zero bits past a byte string of some length, up to a whole number of sextets. */
  function Padding(length: nat): seq<bool> {
    match length % 3 case 0 => [] case 1 => Bits(0, 4) case _ => Bits(0, 2)
  }

  /** The sextets carry the bytes' bits in order, then zero bits up to a whole sextet. */
  lemma {:induction false} PackKeepsBits(b: seq<Byte>)
    ensures SextetBits(Pack(b)) == ByteBits(b) + Padding(|b|)
  {
    if |b| == 1 {
      PackOneBits(b[0]);
      assert b == [b[0]];
    } else if |b| == 2 {
      PackTwoBits(b[0], b[1]);
      assert b == [b[0], b[1]];
    } else if |b| >= 3 {
      PackKeepsBits(b[3..]);
      PackGroupBits(b[0], b[1], b[2], b[3..]);
      assert b == [b[0], b[1], b[2]] + b[3..];
    }
  }

  lemma PackOneBits(a: Byte)
    ensures SextetBits(Pack([a])) == ByteBits([a]) + Padding(1)
  {
    PackFew(a, 0);
    OneByteBits(a, 0);
    FlattenFour(P(a), Q(a, 0), 0, 0, SixBits);
    FlattenFour(a, 0, 0, 0, EightBits);
  }

  lemma PackTwoBits(a: Byte, b: Byte)
    ensures SextetBits(Pack([a, b])) == ByteBits([a, b]) + Padding(2)
  {
    PackFew(a, b);
    TwoBytesBits(a, b);
    FlattenFour(P(a), Q(a, b), R(b, 0), 0, SixBits);
    FlattenFour(a, b, 0, 0, EightBits);
  }

  lemma PackGroupBits(a: Byte, b: Byte, c: Byte, tail: seq<Byte>)
    requires SextetBits(Pack(tail)) == ByteBits(tail) + Padding(|tail|)
    ensures SextetBits(Pack([a, b, c] + tail)) == ByteBits([a, b, c] + tail) + Padding(|[a, b, c] + tail|)
  {
    var group := [P(a), Q(a, b), R(b, c), S(c)];
    PackOfGroup(a, b, c, tail);
    GroupBits(a, b, c);
    JoinBits(group, Pack(tail), [a, b, c], tail, Padding(|tail|));
    PaddingStep(|tail|);
  }

  lemma PaddingStep(length: nat)
    ensures Padding(3 + length) == Padding(length)
  {
    assert (3 + length) % 3 == length % 3;
  }

  lemma GroupBits(a: Byte, b: Byte, c: Byte)
    ensures SextetBits([P(a), Q(a, b), R(b, c), S(c)]) == ByteBits([a, b, c])
  {
    FlattenFour(P(a), Q(a, b), R(b, c), S(c), SixBits);
    FlattenFour(a, b, c, 0, EightBits);
    ThreeBytesBits(a, b, c);
  }

  lemma JoinBits(x: seq<Sextet>, y: seq<Sextet>, b: seq<Byte>, c: seq<Byte>, pad: seq<bool>)
    requires SextetBits(x) == ByteBits(b) && SextetBits(y) == ByteBits(c) + pad
    ensures SextetBits(x + y) == ByteBits(b + c) + pad
  {
    FlattenJoin(x, y, SixBits);
    FlattenJoin(b, c, EightBits);
    Associate(ByteBits(b), ByteBits(c), pad);
  }

  // ---------- base64url ----------

  function Encode(b: seq<Byte>): string {
    Letters(Pack(b))
  }

  function Decode(s: string): seq<Byte>
    requires Spelled(s)
  {
    Unpack(Indexes(s))
  }

  lemma LettersInvert(x: seq<Sextet>)
    ensures Spelled(Letters(x)) && Indexes(Letters(x)) == x
  {
    forall i | 0 <= i < |x| ensures InAlphabet(Letters(x)[i]) && Index(Letters(x)[i]) == x[i] {
      LetterIndex(x[i], 'A');
    }
  }

  lemma IndexesInvert(s: string)
    requires Spelled(s)
    ensures Letters(Indexes(s)) == s
  {
    forall i | 0 <= i < |s| ensures Letters(Indexes(s))[i] == s[i] {
      LetterIndex(0, s[i]);
    }
  }

  /** Decoding inverts encoding, for byte strings of every length. */
  lemma DecodeInverts(b: seq<Byte>)
    ensures Spelled(Encode(b)) && Decode(Encode(b)) == b
    ensures |Encode(b)| == (4 * |b| + 2) / 3
  {
    LettersInvert(Pack(b));
    UnpackInverts(b);
    PackedShape(b);
  }

  /** A text over the alphabet is an encoding exactly when its length and its last bits allow it. */
  lemma EncodeInverts(s: string)
    requires Spelled(s)
    ensures Encode(Decode(s)) == s <==> ZeroPadded(Indexes(s))
    ensures |Decode(s)| == 3 * |s| / 4
  {
    PackInverts(Indexes(s));
    UnpackedLength(Indexes(s));
    IndexesInvert(s);
    LettersInvert(Pack(Decode(s)));
    if Encode(Decode(s)) == s {
      assert Indexes(s) == Pack(Decode(s));
    }
  }

  /** The characters carry the bytes' bits in order, padded with zero bits: section 5 of RFC 4648. */
  lemma EncodingKeepsBits(b: seq<Byte>)
    ensures Spelled(Encode(b)) && SextetBits(Indexes(Encode(b))) == ByteBits(b) + Padding(|b|)
  {
    LettersInvert(Pack(b));
    PackKeepsBits(b);
  }

  // ---------- tokens ----------

  function ParseRawToken(rawToken: string): Option<seq<Byte>> {
    if |rawToken| != TOKEN_TRANSPORT_LENGTH || !Spelled(rawToken) then None
    else
      var bytes := Decode(rawToken);
      if |bytes| != TOKEN_BYTE_LENGTH then None
      else if Encode(bytes) != rawToken then None
      else Some(bytes)
  }

  /** Tokens are in bijection with 32-byte strings: a parse is the one string encoded as the token. */
  lemma TokenBijection(rawToken: string, b: seq<Byte>)
    ensures ParseRawToken(rawToken) == Some(b) <==> |b| == TOKEN_BYTE_LENGTH && Encode(b) == rawToken
  {
    DecodeInverts(b);
  }

  /**
   The accepted tokens are the 43-character texts over the alphabet whose last character leaves
   two zero bits.
  */
  lemma AcceptedTokens(rawToken: string)
    ensures ParseRawToken(rawToken).Some? <==>
              |rawToken| == TOKEN_TRANSPORT_LENGTH && Spelled(rawToken) && Index(rawToken[|rawToken| - 1]) % 4 == 0
  {
    if |rawToken| == TOKEN_TRANSPORT_LENGTH && Spelled(rawToken) {
      EncodeInverts(rawToken);
      var x := Indexes(rawToken);
      assert x[|x| - 1] == Index(rawToken[|rawToken| - 1]);
    }
  }

  function HashRawToken<Hash>(hash: seq<Byte> -> Hash, rawToken: string): Option<Hash> {
    var bytes := ParseRawToken(rawToken);
    if bytes.None? then None else Some(hash(bytes.value))
  }

  datatype Session<Hash> = Session(rawToken: string, tokenHash: Hash)

  function GenerateSessionToken<Hash>(hash: seq<Byte> -> Hash, random: seq<Byte>): Option<Session<Hash>> {
    if |random| != TOKEN_BYTE_LENGTH then None else Some(Session(Encode(random), hash(random)))
  }

  /** A generated token is accepted and hashes to the stored hash; different bytes give different tokens. */
  lemma GeneratedIsAccepted<Hash>(hash: seq<Byte> -> Hash, random: seq<Byte>, random': seq<Byte>)
    requires |random| == TOKEN_BYTE_LENGTH && |random'| == TOKEN_BYTE_LENGTH
    ensures var s := GenerateSessionToken(hash, random);
            s.Some? && HashRawToken(hash, s.value.rawToken) == Some(s.value.tokenHash)
    ensures Encode(random) == Encode(random') ==> random == random'
  {
    TokenBijection(Encode(random), random);
    DecodeInverts(random);
    DecodeInverts(random');
  }

  // ---------- the alphabet, by value ----------

  /** The URL-safe alphabet of section 5 of RFC 4648: upper case, lower case, digits, minus, underscore. */
  lemma AlphabetIs(c: char)
    ensures 'A' <= c <= 'Z' ==> Letter((c as int - 65) as Sextet) == c
    ensures 'a' <= c <= 'z' ==> Letter((c as int - 97 + 26) as Sextet) == c
    ensures '0' <= c <= '9' ==> Letter((c as int - 48 + 52) as Sextet) == c
    ensures Letter(62) == '-' && Letter(63) == '_'
  {
  }
}
