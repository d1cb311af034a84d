/** Bytes, the 8-bit additive checksum shared by every frame in both
    directions, and the signed-`char` reinterpretation the decoder applies
    when it widens a byte. */
module Bytes {

  /** One byte on the wire, as its unsigned value. */
  type byte = b: int | 0 <= b < 256

  datatype Option<+T> = None | Some(value: T)

  /** Sum of all bytes of `s` without truncation, folded from the front as the
      source's `for (i = 0; ...) crc += packet.at(i)` loops do. */
  function Sum(s: seq<byte>): nat
  {
    if s == [] then 0 else Sum(s[..|s| - 1]) + s[|s| - 1]
  }

  /** The 8-bit additive checksum: the sum truncated to one byte, which is what
      a `char` accumulator holds after the loop. */
  function Checksum(s: seq<byte>): byte
  {
    Sum(s) % 256
  }

  /** A frame whose last byte is the checksum of all the bytes before it. */
  predicate ChecksumOk(frame: seq<byte>)
  {
    |frame| >= 1 && frame[|frame| - 1] == Checksum(frame[..|frame| - 1])
  }

  lemma SumSnoc(s: seq<byte>, x: byte)
    ensures Sum(s + [x]) == Sum(s) + x
  {
    assert (s + [x])[..|s|] == s;
  }

  /** The running checksum: adding one byte adds it modulo 256. */
  lemma ChecksumSnoc(s: seq<byte>, x: byte)
    ensures Checksum(s + [x]) == (Checksum(s) + x) % 256
  {
    SumSnoc(s, x);
    var q, m := Sum(s) / 256, Sum(s) % 256;
    DivModUnique(Sum(s) + x, 256, q + (m + x) / 256, (m + x) % 256);
  }

  /** The checksum of a prefix one byte longer. */
  lemma ChecksumStep(s: seq<byte>, i: nat)
    requires i < |s|
    ensures Checksum(s[..i + 1]) == (Checksum(s[..i]) + s[i]) % 256
  {
    var before := s[..i];
    assert s[..i + 1] == before + [s[i]];
    ChecksumSnoc(before, s[i]);
  }

  lemma {:induction false} SumAppend(a: seq<byte>, b: seq<byte>)
    ensures Sum(a + b) == Sum(a) + Sum(b)
    decreases |b|
  {
    if b == [] {
      assert a + b == a;
    } else {
      var b', last := b[..|b| - 1], b[|b| - 1];
      assert b == b' + [last];
      assert a + b == (a + b') + [last];
      SumSnoc(a + b', last);
      SumSnoc(b', last);
      SumAppend(a, b');
    }
  }

  /** Replacing one byte moves the sum by exactly the difference of the two values. */
  lemma SumUpdate(s: seq<byte>, i: nat, x: byte)
    requires i < |s|
    ensures Sum(s[i := x]) == Sum(s) - s[i] + x
  {
    assert s == s[..i] + [s[i]] + s[i + 1..];
    assert s[i := x] == s[..i] + [x] + s[i + 1..];
    SumAppend(s[..i] + [s[i]], s[i + 1..]);
    SumAppend(s[..i] + [x], s[i + 1..]);
    SumSnoc(s[..i], s[i]);
    SumSnoc(s[..i], x);
  }

  /** The additive checksum detects every single-byte corruption: changing any
      one byte of a frame whose checksum holds makes it fail. */
  lemma SingleByteCorruptionDetected(frame: seq<byte>, i: nat, x: byte)
    requires ChecksumOk(frame) && i < |frame| && x != frame[i]
    ensures !ChecksumOk(frame[i := x])
  {
    var n := |frame| - 1;
    if i < n {
      assert frame[i := x][..n] == frame[..n][i := x];
      SumUpdate(frame[..n], i, x);
    } else {
      assert frame[i := x][..n] == frame[..n];
    }
  }

  /** The value C++ sees when it reads `packet.at(i)`: a signed `char`. */
  function SignedChar(b: byte): (v: int)
    ensures -128 <= v < 128
    ensures v % 256 == b
    ensures v < 0 <==> b >= 0x80
  {
    if b >= 0x80 then b - 256 else b
  }

  /** The byte a `static_cast<char>(x)` leaves in a `QByteArray`: the low eight
      bits of `x`, whatever its sign. */
  function ToByte(x: int): (b: byte)
    ensures (b - x) % 256 == 0
    ensures 0 <= x < 256 ==> b == x
  {
    x % 256
  }

  /** A byte holding an ASCII character. */
  function AsciiByte(c: char): (b: byte)
    requires c as int < 0x80
    ensures b == c as int
  {
    c as int
  }

  /** The bytes of an ASCII string. */
  function AsciiBytes(s: string): (r: seq<byte>)
    requires forall i :: 0 <= i < |s| ==> s[i] as int < 0x80
    ensures |r| == |s| && forall i :: 0 <= i < |s| ==> r[i] == s[i] as int
  {
    if s == [] then [] else [AsciiByte(s[0])] + AsciiBytes(s[1..])
  }

  /** Value of bit `k` of `x`. */
  function BitOf(x: nat, k: nat): (b: nat)
    ensures b < 2
  {
    if k == 0 then x % 2 else BitOf(x / 2, k - 1)
  }

  /** Bitwise exclusive or, defined bit by bit. */
  function Xor(a: nat, b: nat): nat
    decreases a + b
  {
    if a == 0 && b == 0 then 0
    else (if a % 2 != b % 2 then 1 else 0) + 2 * Xor(a / 2, b / 2)
  }

  lemma {:induction false} ZeroBits(k: nat)
    ensures BitOf(0, k) == 0
  {
    if k > 0 { ZeroBits(k - 1); }
  }

  /** Bit `k` of `a ^ b` is set exactly when bit `k` of `a` and of `b` differ. */
  lemma {:induction false} XorBit(a: nat, b: nat, k: nat)
    ensures BitOf(Xor(a, b), k) == 1 <==> BitOf(a, k) != BitOf(b, k)
    decreases k
  {
    if a == 0 && b == 0 {
      ZeroBits(k);
    } else if k > 0 {
      XorBit(a / 2, b / 2, k - 1);
    }
  }

  /** Number of one bits among bits `0..n-1` of `x`. */
  function PopcountBelow(x: nat, n: nat): nat
  {
    if n == 0 then 0 else PopcountBelow(x, n - 1) + BitOf(x, n - 1)
  }

  /** Number of one bits of a byte. */
  function Popcount(x: byte): nat
  {
    PopcountBelow(x, 8)
  }

  lemma MulMono(a: int, m: int)
    requires a >= 1 && m > 0
    ensures a * m >= m
  {
  }

  /** Euclidean quotient and remainder are the only pair with the remainder
      in range. */
  lemma DivModUnique(x: int, m: int, q: int, r: int)
    requires m > 0 && 0 <= r < m && x == q * m + r
    ensures x / m == q && x % m == r
  {
    var q', r' := x / m, x % m;
    assert x == q' * m + r';
    assert (q - q') * m == r' - r;
    if q > q' {
      MulMono(q - q', m);
    } else if q < q' {
      MulMono(q' - q, m);
    }
  }

  function Pow2(n: nat): (p: nat)
    ensures p >= 1
  {
    if n == 0 then 1 else 2 * Pow2(n - 1)
  }

  /** Bit `k` is the parity of the quotient by `2^k`: the test `x & (1 << k)`. */
  lemma {:induction false} BitOfShift(x: nat, k: nat)
    ensures BitOf(x, k) == (x / Pow2(k)) % 2
  {
    if k > 0 {
      BitOfShift(x / 2, k - 1);
      HalveQuotient(x, Pow2(k - 1));
    }
  }

  lemma HalveQuotient(x: nat, p: nat)
    requires p >= 1
    ensures x / (2 * p) == (x / 2) / p
  {
    var q, r := (x / 2) / p, (x / 2) % p;
    DivModUnique(x, 2 * p, q, 2 * r + x % 2);
  }
}
