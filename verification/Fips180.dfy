/** SHA-256 as FIPS 180-4 defines it, on messages that are whole numbers of bytes. */
module Fips180 {
  import opened Words

  // ---------------------------------------------------------------- functions, section 4.1.2

  function Ch(x: Word, y: Word, z: Word): Word { XorW(AndW(x, y), AndW(Not(x), z)) }

  function Maj(x: Word, y: Word, z: Word): Word { XorW(XorW(AndW(x, y), AndW(x, z)), AndW(y, z)) }

  function BigSigma0(x: Word): Word { XorW(XorW(Rotr(2, x), Rotr(13, x)), Rotr(22, x)) }

  function BigSigma1(x: Word): Word { XorW(XorW(Rotr(6, x), Rotr(11, x)), Rotr(25, x)) }

  function SmallSigma0(x: Word): Word { XorW(XorW(Rotr(7, x), Rotr(18, x)), Shr(3, x)) }

  function SmallSigma1(x: Word): Word { XorW(XorW(Rotr(17, x), Rotr(19, x)), Shr(10, x)) }

  // ---------------------------------------------------------------- constants, sections 4.2.2 and 5.3.3

  /** The first sixty-four prime numbers. */
  const PRIMES0: seq<nat> := [2, 3, 5, 7, 11, 13, 17, 19]
  const PRIMES1: seq<nat> := [23, 29, 31, 37, 41, 43, 47, 53]
  const PRIMES2: seq<nat> := [59, 61, 67, 71, 73, 79, 83, 89]
  const PRIMES3: seq<nat> := [97, 101, 103, 107, 109, 113, 127, 131]
  const PRIMES4: seq<nat> := [137, 139, 149, 151, 157, 163, 167, 173]
  const PRIMES5: seq<nat> := [179, 181, 191, 193, 197, 199, 211, 223]
  const PRIMES6: seq<nat> := [227, 229, 233, 239, 241, 251, 257, 263]
  const PRIMES7: seq<nat> := [269, 271, 277, 281, 283, 293, 307, 311]

  const PRIMES: seq<nat> :=
    PRIMES0 + PRIMES1 + PRIMES2 + PRIMES3 + PRIMES4 + PRIMES5 + PRIMES6 + PRIMES7

  function Cube(x: nat): nat {
    x * x * x
  }

  function Square(x: nat): nat {
    x * x
  }

  ghost predicate CubeRootWith(k: Word, p: nat, whole: nat) {
    var root := whole * TWO32 + k;
    Cube(root) <= p * TWO32 * TWO32 * TWO32 < Cube(root + 1)
  }

  /** k is the first 32 bits of the fractional part of the cube root of p. */
  ghost predicate IsCubeRootFraction(k: Word, p: nat) {
    exists whole: nat :: CubeRootWith(k, p, whole)
  }

  ghost predicate SquareRootWith(h: Word, p: nat, whole: nat) {
    var root := whole * TWO32 + h;
    Square(root) <= p * TWO32 * TWO32 < Square(root + 1)
  }

  /** h is the first 32 bits of the fractional part of the square root of p. */
  ghost predicate IsSquareRootFraction(h: Word, p: nat) {
    exists whole: nat :: SquareRootWith(h, p, whole)
  }

  ghost predicate CubeRoots(k: seq<Word>, p: seq<nat>) {
    |k| == |p| && forall t :: 0 <= t < |k| ==> IsCubeRootFraction(k[t], p[t])
  }

  /** The constants the two sections prescribe, named by what they are. */
  ghost predicate RoundConstants(k: seq<Word>) {
    |k| == 64 && CubeRoots(k, PRIMES)
  }

  ghost predicate InitialHash(h: seq<Word>) {
    |h| == 8 && forall t :: 0 <= t < 8 ==> IsSquareRootFraction(h[t], PRIMES0[t])
  }

  // ---------------------------------------------------------------- padding, section 5.1.1

  /** Zero bytes after 0x80: the least number that leaves room for the length at the end of a block. */
  function ZeroBytes(n: nat): nat {
    (55 - n) % 64
  }

  /** v as `width` bytes, most significant first. */
  function BigEndian(v: nat, width: nat): (b: seq<Byte>)
    ensures |b| == width
  {
    if width == 0 then [] else BigEndian(v / 256, width - 1) + [v % 256]
  }

  function Zeros(n: nat): (z: seq<Byte>)
    ensures |z| == n
  {
    seq(n, _ => 0)
  }

  /** The number N of 64-byte blocks that a message of n bytes is padded to. */
  function PadBlocks(n: nat): (blocks: nat)
    ensures 64 * blocks == n + 1 + ZeroBytes(n) + 8
  {
    (n + 9 + ZeroBytes(n)) / 64
  }

  function Pad(message: seq<Byte>): (padded: seq<Byte>)
    ensures |padded| == 64 * PadBlocks(|message|)
  {
    message + [0x80] + Zeros(ZeroBytes(|message|)) + BigEndian(8 * |message|, 8)
  }

  // ---------------------------------------------------------------- hash computation, section 6.2.2

  function WordAt(bytes: seq<Byte>, i: nat): Word
    requires i + 4 <= |bytes|
  {
    bytes[i] as int * 0x100_0000 + bytes[i + 1] as int * 0x1_0000 + bytes[i + 2] as int * 0x100 + bytes[i + 3] as int
  }

  /** Message schedule word t of the 64-byte block that starts at `offset`. */
  function W(padded: seq<Byte>, offset: nat, t: nat): Word
    requires offset + 64 <= |padded|
  {
    if t < 16 then WordAt(padded, offset + 4 * t)
    else Plus(Plus(Plus(SmallSigma1(W(padded, offset, t - 2)), W(padded, offset, t - 7)),
                   SmallSigma0(W(padded, offset, t - 15))), W(padded, offset, t - 16))
  }

  datatype Working = Working(a: Word, b: Word, c: Word, d: Word, e: Word, f: Word, g: Word, h: Word)

  /** Step 1: the 64 schedule words of a block. */
  function Schedule(padded: seq<Byte>, offset: nat): (w: seq<Word>)
    requires offset + 64 <= |padded|
    ensures |w| == 64
  {
    seq(64, t requires 0 <= t < 64 => W(padded, offset, t))
  }

  function T1(v: Working, k: Word, w: Word): Word {
    Plus(Plus(Plus(Plus(v.h, BigSigma1(v.e)), Ch(v.e, v.f, v.g)), k), w)
  }

  function T2(v: Working): Word {
    Plus(BigSigma0(v.a), Maj(v.a, v.b, v.c))
  }

  /** The assignments of one iteration of step 3, from T1 and T2. */
  function Advance(v: Working, t1: Word, t2: Word): Working {
    Working(Plus(t1, t2), v.a, v.b, v.c, Plus(v.d, t1), v.e, v.f, v.g)
  }

  /** Step 3: the working variables after t iterations over the schedule w. */
  function Rounds(k: seq<Word>, hash: Working, w: seq<Word>, t: nat): Working
    requires |k| == 64 && |w| == 64 && t <= 64
  {
    if t == 0 then hash
    else
      var v := Rounds(k, hash, w, t - 1);
      Advance(v, T1(v, k[t - 1], w[t - 1]), T2(v))
  }

  /** Step 4: the working variables are added to the previous hash value. */
  function AddHash(hash: Working, v: Working): Working {
    Working(Plus(hash.a, v.a), Plus(hash.b, v.b), Plus(hash.c, v.c), Plus(hash.d, v.d),
            Plus(hash.e, v.e), Plus(hash.f, v.f), Plus(hash.g, v.g), Plus(hash.h, v.h))
  }

  function NextHash(k: seq<Word>, hash: Working, w: seq<Word>): Working
    requires |k| == 64 && |w| == 64
  {
    AddHash(hash, Rounds(k, hash, w, 64))
  }

  /** The hash value after the first n blocks. */
  function HashBlocks(k: seq<Word>, initial: Working, padded: seq<Byte>, n: nat): Working
    requires |k| == 64 && 64 * n <= |padded|
  {
    if n == 0 then initial
    else NextHash(k, HashBlocks(k, initial, padded, n - 1), Schedule(padded, 64 * (n - 1)))
  }

  function FromWords(h: seq<Word>): Working
    requires |h| == 8
  {
    Working(h[0], h[1], h[2], h[3], h[4], h[5], h[6], h[7])
  }

  /** The message digest H0 .. H7 for the given constants. */
  function Digest(k: seq<Word>, initial: seq<Word>, message: seq<Byte>): Working
    requires |k| == 64 && |initial| == 8
  {
    HashBlocks(k, FromWords(initial), Pad(message), PadBlocks(|message|))
  }

  /** d is the SHA-256 digest of the message: computed with constants that are the
      fractional root bits which sections 4.2.2 and 5.3.3 name. */
  ghost predicate IsSha256(message: seq<Byte>, d: Working) {
    exists k, initial :: RoundConstants(k) && InitialHash(initial) && d == Digest(k, initial, message)
  }

  // ---------------------------------------------------------------- the constants are determined

  lemma MultiplyMonotone(a: nat, b: nat, c: nat, d: nat)
    requires a <= b && c <= d
    ensures a * c <= b * d
  {
    assert (b - a) * c >= 0 && b * (d - c) >= 0;
  }

  lemma CubeMonotone(x: nat, y: nat)
    requires x <= y
    ensures Cube(x) <= Cube(y)
  {
    MultiplyMonotone(x, y, x, y);
    MultiplyMonotone(x * x, y * y, x, y);
  }

  lemma SquareMonotone(x: nat, y: nat)
    requires x <= y
    ensures Square(x) <= Square(y)
  {
    MultiplyMonotone(x, y, x, y);
  }

  /** A number has one integral cube root, rounded down, and one square root. */
  lemma RootsUnique(n: nat, x: nat, y: nat)
    ensures Cube(x) <= n < Cube(x + 1) && Cube(y) <= n < Cube(y + 1) ==> x == y
    ensures Square(x) <= n < Square(x + 1) && Square(y) <= n < Square(y + 1) ==> x == y
  {
    hide Cube, Square;
    if x < y {
      CubeMonotone(x + 1, y);
      SquareMonotone(x + 1, y);
    } else if y < x {
      CubeMonotone(y + 1, x);
      SquareMonotone(y + 1, x);
    }
  }

  lemma LowWordUnique(k1: Word, k2: Word, w1: nat, w2: nat)
    requires w1 * TWO32 + k1 == w2 * TWO32 + k2
    ensures k1 == k2
  {
  }

  lemma CubeRootUnique(k1: Word, k2: Word, p: nat, w1: nat, w2: nat)
    requires CubeRootWith(k1, p, w1) && CubeRootWith(k2, p, w2)
    ensures k1 == k2
  {
    RootsUnique(p * TWO32 * TWO32 * TWO32, w1 * TWO32 + k1, w2 * TWO32 + k2);
    LowWordUnique(k1, k2, w1, w2);
  }

  lemma SquareRootUnique(h1: Word, h2: Word, p: nat, w1: nat, w2: nat)
    requires SquareRootWith(h1, p, w1) && SquareRootWith(h2, p, w2)
    ensures h1 == h2
  {
    RootsUnique(p * TWO32 * TWO32, w1 * TWO32 + h1, w2 * TWO32 + h2);
    LowWordUnique(h1, h2, w1, w2);
  }

  lemma {:induction false} ConstantsUnique(k1: seq<Word>, h1: seq<Word>, k2: seq<Word>, h2: seq<Word>)
    requires RoundConstants(k1) && RoundConstants(k2)
    requires InitialHash(h1) && InitialHash(h2)
    ensures k1 == k2 && h1 == h2
  {
    forall t | 0 <= t < 64 ensures k1[t] == k2[t] {
      assert IsCubeRootFraction(k1[t], PRIMES[t]) && IsCubeRootFraction(k2[t], PRIMES[t]);
      var w1: nat :| CubeRootWith(k1[t], PRIMES[t], w1);
      var w2: nat :| CubeRootWith(k2[t], PRIMES[t], w2);
      CubeRootUnique(k1[t], k2[t], PRIMES[t], w1, w2);
    }
    forall t | 0 <= t < 8 ensures h1[t] == h2[t] {
      assert IsSquareRootFraction(h1[t], PRIMES0[t]) && IsSquareRootFraction(h2[t], PRIMES0[t]);
      var w1: nat :| SquareRootWith(h1[t], PRIMES0[t], w1);
      var w2: nat :| SquareRootWith(h2[t], PRIMES0[t], w2);
      SquareRootUnique(h1[t], h2[t], PRIMES0[t], w1, w2);
    }
  }

  /** The digest is a function of the message: the root descriptions leave no freedom
      in the constants. */
  lemma {:induction false} Sha256Unique(message: seq<Byte>, d1: Working, d2: Working)
    requires IsSha256(message, d1) && IsSha256(message, d2)
    ensures d1 == d2
  {
    var k1, h1 :| RoundConstants(k1) && InitialHash(h1) && d1 == Digest(k1, h1, message);
    var k2, h2 :| RoundConstants(k2) && InitialHash(h2) && d2 == Digest(k2, h2, message);
    ConstantsUnique(k1, h1, k2, h2);
  }

  // ---------------------------------------------------------------- padding is what 5.1.1 says, and invertible

  /** With l = 8n message bits, the 7 zero bits that follow the 1 bit inside 0x80 together with
      the zero bytes are the least k >= 0 with l + 1 + k = 448 modulo 512. */
  lemma ZeroBitsAreLeast(n: nat, k: nat)
    ensures (8 * n + 1 + (7 + 8 * ZeroBytes(n))) % 512 == 448
    ensures (8 * n + 1 + k) % 512 == 448 ==> 7 + 8 * ZeroBytes(n) <= k
  {
    var least := 7 + 8 * ZeroBytes(n);
    var q := (55 - n - ZeroBytes(n)) / 64;
    assert 8 * n + 1 + least == 448 - 512 * q;
    if (8 * n + 1 + k) % 512 == 448 {
      var m := (8 * n + 1 + k) / 512;
      assert k - least == 512 * (m + q);
    }
  }

  function FromBigEndian(b: seq<Byte>): (v: nat)
  {
    if b == [] then 0 else 256 * FromBigEndian(b[..|b| - 1]) + b[|b| - 1]
  }

  function Pow256(n: nat): nat {
    if n == 0 then 1 else 256 * Pow256(n - 1)
  }

  lemma {:induction false} BigEndianInverse(v: nat, width: nat)
    requires v < Pow256(width)
    ensures FromBigEndian(BigEndian(v, width)) == v
  {
    if width > 0 {
      BigEndianInverse(v / 256, width - 1);
      var b := BigEndian(v, width);
      assert b[..|b| - 1] == BigEndian(v / 256, width - 1);
    }
  }

  /** Recover a message from its padded form: the last eight bytes say how long it is. */
  function Unpad(padded: seq<Byte>): seq<Byte>
    requires |padded| >= 8
  {
    var n := FromBigEndian(padded[|padded| - 8..]) / 8;
    if n <= |padded| then padded[..n] else []
  }

  lemma PadInverse(message: seq<Byte>)
    requires 8 * |message| < Pow256(8) // 2^64, the limit of section 1 for SHA-256
    ensures Unpad(Pad(message)) == message
  {
    var padded := Pad(message);
    assert padded[|padded| - 8..] == BigEndian(8 * |message|, 8);
    BigEndianInverse(8 * |message|, 8);
    assert padded[..|message|] == message;
  }

  lemma PadInjective(m1: seq<Byte>, m2: seq<Byte>)
    requires 8 * |m1| < Pow256(8) && 8 * |m2| < Pow256(8)
    requires Pad(m1) == Pad(m2)
    ensures m1 == m2
  {
    PadInverse(m1);
    PadInverse(m2);
  }
}
