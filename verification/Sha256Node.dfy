/** The hashing function of the memory-ingest "Validate and Filter" node: loops over
    JavaScript Numbers that are combined with signed 32-bit operators. */
module Sha256Node {
  import opened Options
  import opened Words
  import opened JsNumber
  import opened Fips180
  import opened Sha256Constants

  // ---------------------------------------------------------------- expressions of the node

  function RightRotate(word: int, bits: nat): (r: int)
    requires 0 < bits < 32
    ensures ToWord(r) == Rotr(bits, ToWord(word))
  {
    WordOfOperators(word, word, bits);
    WordOfOperators(word, word, 32 - bits);
    WordOfOperators(ShiftRightUnsigned(word, bits), ShiftLeft(word, 32 - bits), 0);
    BitOr(ShiftRightUnsigned(word, bits), ShiftLeft(word, 32 - bits))
  }

  function Xor3(x: int, y: int, z: int): (r: int)
    ensures ToWord(r) == XorW(XorW(ToWord(x), ToWord(y)), ToWord(z))
    ensures -0x8000_0000 <= r < 0x8000_0000
  {
    WordOfOperators(x, y, 0);
    WordOfOperators(BitXor(x, y), z, 0);
    BitXor(BitXor(x, y), z)
  }

  function ScheduleS0(x: int): (r: int)
    ensures ToWord(r) == SmallSigma0(ToWord(x)) && -0x8000_0000 <= r < 0x8000_0000
  {
    WordOfOperators(x, x, 3);
    Xor3(RightRotate(x, 7), RightRotate(x, 18), ShiftRightUnsigned(x, 3))
  }

  function ScheduleS1(x: int): (r: int)
    ensures ToWord(r) == SmallSigma1(ToWord(x)) && -0x8000_0000 <= r < 0x8000_0000
  {
    WordOfOperators(x, x, 10);
    Xor3(RightRotate(x, 17), RightRotate(x, 19), ShiftRightUnsigned(x, 10))
  }

  function RoundS1(e: int): (r: int)
    ensures ToWord(r) == BigSigma1(ToWord(e)) && -0x8000_0000 <= r < 0x8000_0000
  {
    Xor3(RightRotate(e, 6), RightRotate(e, 11), RightRotate(e, 25))
  }

  function RoundS0(a: int): (r: int)
    ensures ToWord(r) == BigSigma0(ToWord(a)) && -0x8000_0000 <= r < 0x8000_0000
  {
    Xor3(RightRotate(a, 2), RightRotate(a, 13), RightRotate(a, 22))
  }

  function Choice(e: int, f: int, g: int): (r: int)
    ensures ToWord(r) == Ch(ToWord(e), ToWord(f), ToWord(g)) && -0x8000_0000 <= r < 0x8000_0000
  {
    WordOfOperators(e, f, 0);
    WordOfOperators(BitNot(e), g, 0);
    WordOfOperators(BitAnd(e, f), BitAnd(BitNot(e), g), 0);
    BitXor(BitAnd(e, f), BitAnd(BitNot(e), g))
  }

  function Majority(a: int, b: int, c: int): (r: int)
    ensures ToWord(r) == Maj(ToWord(a), ToWord(b), ToWord(c)) && -0x8000_0000 <= r < 0x8000_0000
  {
    WordOfOperators(a, b, 0);
    WordOfOperators(a, c, 0);
    WordOfOperators(b, c, 0);
    Xor3(BitAnd(a, b), BitAnd(a, c), BitAnd(b, c))
  }

  lemma {:induction false} AndLowMask(x: nat, n: nat)
    ensures And(x, Pow2(n) - 1) == x % Pow2(n)
  {
    if n > 0 {
      AndLowMask(x / 2, n - 1);
      HalfThenDivide(x, Pow2(n - 1));
      HalfAndLast(Pow2(n) - 1, Pow2(n - 1) - 1, 1);
    }
  }

  /** x & 0xff */
  function LowByte(x: int): (b: Byte)
    ensures b == ToWord(x) % 256
  {
    Pow2At32();
    AndLowMask(ToWord(x), 8);
    BitAnd(x, 0xff)
  }

  lemma ThreeOrs(s0: int, s1: int, s2: int, s3: Word, w0: Word, w1: Word, w2: Word)
    requires s0 == Signed(w0) && s1 == Signed(w1) && s2 == Signed(w2)
    ensures Unsigned(BitOr(BitOr(BitOr(s0, s1), s2), s3)) == OrW(OrW(OrW(w0, w1), w2), s3)
  {
    WordOfSigned(w0);
    WordOfSigned(w1);
    WordOfSigned(w2);
    WordOfOperators(s0, s1, 0);
    WordOfOperators(BitOr(s0, s1), s2, 0);
    WordOfOperators(BitOr(BitOr(s0, s1), s2), s3, 0);
  }

  lemma DisjointBytes(b0: Byte, b1: Byte, b2: Byte, b3: Byte)
    ensures Or(Or(Or(b0 as int * 0x100_0000, b1 as int * 0x1_0000), b2 as int * 0x100), b3)
         == b0 as int * 0x100_0000 + b1 as int * 0x1_0000 + b2 as int * 0x100 + b3 as int
  {
    Pow2At32();
    OrOfDisjoint(b0, b1 as int * 0x1_0000, 24);
    OrOfDisjoint(b0 as int * 256 + b1 as int, b2 as int * 0x100, 16);
    OrOfDisjoint(b0 as int * 0x1_0000 + b1 as int * 256 + b2 as int, b3, 8);
  }

  lemma JoinedWord(b0: Byte, b1: Byte, b2: Byte, b3: Byte)
    ensures Unsigned(BitOr(BitOr(BitOr(ShiftLeft(b0, 24), ShiftLeft(b1, 16)), ShiftLeft(b2, 8)), b3))
         == b0 as int * 0x100_0000 + b1 as int * 0x1_0000 + b2 as int * 0x100 + b3 as int
  {
    Pow2At32();
    ShlMultiplies(24, b0);
    ShlMultiplies(16, b1);
    ShlMultiplies(8, b2);
    var w0, w1, w2 := Shl(24, b0), Shl(16, b1), Shl(8, b2);
    ThreeOrs(ShiftLeft(b0, 24), ShiftLeft(b1, 16), ShiftLeft(b2, 8), b3, w0, w1, w2);
    DisjointBytes(b0, b1, b2, b3);
  }

  /** Four bytes joined by shifts and ors are the big-endian word they spell. */
  function JoinBytes(b0: Byte, b1: Byte, b2: Byte, b3: Byte): (r: int)
    ensures r == b0 as int * 0x100_0000 + b1 as int * 0x1_0000 + b2 as int * 0x100 + b3 as int
  {
    JoinedWord(b0, b1, b2, b3);
    Unsigned(BitOr(BitOr(BitOr(ShiftLeft(b0, 24), ShiftLeft(b1, 16)), ShiftLeft(b2, 8)), b3))
  }

  // ---------------------------------------------------------------- padding

  lemma DropMultiple(q: nat, r: nat)
    ensures (q * 256 + r) % 256 == r % 256
  {
  }

  lemma HighAndLow(high: Word, low: Word)
    ensures high / TWO32 == 0 && (high * TWO32 + low) / TWO32 == high
    ensures (high * TWO32 + low) / 0x100_0000 % 256 == low / 0x100_0000 % 256
    ensures (high * TWO32 + low) / 0x1_0000 % 256 == low / 0x1_0000 % 256
    ensures (high * TWO32 + low) / 256 % 256 == low / 256 % 256
    ensures (high * TWO32 + low) % 256 == low % 256
  {
    var v := high * TWO32 + low;
    DivisionIsUnique(v, TWO32, high, low);
    DivisionIsUnique(v, 0x100_0000, high * 256 + low / 0x100_0000, low % 0x100_0000);
    DivisionIsUnique(v, 0x1_0000, high * 0x1_0000 + low / 0x1_0000, low % 0x1_0000);
    DivisionIsUnique(v, 256, high * 0x100_0000 + low / 256, low % 256);
    DropMultiple(high, low / 0x100_0000);
    DropMultiple(high * 256, low / 0x1_0000);
    DropMultiple(high * 0x1_0000, low / 256);
  }

  lemma FourMoreBytes(v: nat, width: nat)
    ensures BigEndian(v, width + 4) ==
      BigEndian(v / TWO32, width) + [v / 0x100_0000 % 256, v / 0x1_0000 % 256, v / 256 % 256, v % 256]
  {
    assert v / 256 / 256 == v / 0x1_0000;
    assert v / 0x1_0000 / 256 == v / 0x100_0000;
    assert v / 0x100_0000 / 256 == v / TWO32;
    assert BigEndian(v / 0x100_0000, width + 1) == BigEndian(v / TWO32, width) + [v / 0x100_0000 % 256];
    assert BigEndian(v / 0x1_0000, width + 2) == BigEndian(v / 0x100_0000, width + 1) + [v / 0x1_0000 % 256];
    assert BigEndian(v / 256, width + 3) == BigEndian(v / 0x1_0000, width + 2) + [v / 256 % 256];
  }

  lemma EightBytes(high: Word, low: Word)
    ensures BigEndian(high * TWO32 + low, 8) ==
      [high / 0x100_0000 % 256, high / 0x1_0000 % 256, high / 256 % 256, high % 256,
       low / 0x100_0000 % 256, low / 0x1_0000 % 256, low / 256 % 256, low % 256]
  {
    FourMoreBytes(high * TWO32 + low, 4);
    FourMoreBytes(high, 0);
    HighAndLow(high, low);
  }

  lemma ShiftedBytes(x: Word)
    ensures LowByte(ShiftRightUnsigned(x, 24)) == x / 0x100_0000 % 256
    ensures LowByte(ShiftRightUnsigned(x, 16)) == x / 0x1_0000 % 256
    ensures LowByte(ShiftRightUnsigned(x, 8)) == x / 256 % 256
    ensures LowByte(x) == x % 256
  {
    Pow2At32();
    ShrDivides(24, x);
    ShrDivides(16, x);
    ShrDivides(8, x);
  }

  /** The eight length bytes of 5.1.1, taken from the halves of the bit length. */
  lemma {:induction false} LengthBytes(high: Word, low: Word)
    ensures BigEndian(high * TWO32 + low, 8) ==
      [LowByte(ShiftRightUnsigned(high, 24)), LowByte(ShiftRightUnsigned(high, 16)),
       LowByte(ShiftRightUnsigned(high, 8)), LowByte(high),
       LowByte(ShiftRightUnsigned(low, 24)), LowByte(ShiftRightUnsigned(low, 16)),
       LowByte(ShiftRightUnsigned(low, 8)), LowByte(low)]
  {
    ShiftedBytes(high);
    ShiftedBytes(low);
    EightBytes(high, low);
  }

  lemma SplitLength(bitLength: nat)
    requires bitLength < SAFE
    ensures bitLength / TWO32 < TWO32 && bitLength == (bitLength / TWO32) * TWO32 + ToWord(bitLength)
  {
    ToWordIsModulo(bitLength);
  }

  function HighThenLow(highBits: Word, lowBits: Word): seq<Byte> {
    [LowByte(ShiftRightUnsigned(highBits, 24)), LowByte(ShiftRightUnsigned(highBits, 16)),
     LowByte(ShiftRightUnsigned(highBits, 8)), LowByte(highBits),
     LowByte(ShiftRightUnsigned(lowBits, 24)), LowByte(ShiftRightUnsigned(lowBits, 16)),
     LowByte(ShiftRightUnsigned(lowBits, 8)), LowByte(lowBits)]
  }

  /** The eight bytes pushed last. */
  function LengthField(bitLength: nat): seq<Byte>
    requires bitLength < SAFE
  {
    var highBits := bitLength / 0x1_0000_0000;
    var lowBits := Unsigned(bitLength);
    SplitLength(bitLength);
    HighThenLow(highBits, lowBits)
  }

  lemma LengthFieldIsBigEndian(bitLength: nat)
    requires bitLength < SAFE
    ensures LengthField(bitLength) == BigEndian(bitLength, 8)
  {
    SplitLength(bitLength);
    LengthBytes(bitLength / 0x1_0000_0000, Unsigned(bitLength));
  }

  /** The padding loop and the length bytes append exactly what section 5.1.1 appends. */
  method PadBytes(encoded: seq<Byte>) returns (bytes: seq<Byte>)
    requires 8 * |encoded| < SAFE
    ensures bytes == Pad(encoded)
  {
    bytes := encoded;
    var bitLength := |bytes| * 8;
    bytes := bytes + [0x80];
    ghost var zeros := 0;
    while |bytes| % 64 != 56
      invariant zeros <= ZeroBytes(|encoded|)
      invariant bytes == encoded + [0x80] + Zeros(zeros)
      decreases ZeroBytes(|encoded|) - zeros
    {
      bytes := bytes + [0];
      zeros := zeros + 1;
      assert Zeros(zeros - 1) + [0] == Zeros(zeros);
    }
    assert zeros == ZeroBytes(|encoded|);
    LengthFieldIsBigEndian(bitLength);
    bytes := bytes + LengthField(bitLength);
  }

  // ---------------------------------------------------------------- one block

  lemma ScheduleSum(w16: Word, s0: int, w7: Word, s1: int)
    ensures ToWord(w16 + s0 + w7 + s1) == Plus(Plus(Plus(ToWord(s1), w7), ToWord(s0)), w16)
  {
    calc {
      ToWord(w16 + s0 + w7 + s1);
      { WordOfSum(w16 + s0 + w7, s1); }
      Plus(ToWord(w16 + s0 + w7), ToWord(s1));
      { WordOfSum(w16 + s0, w7); }
      Plus(Plus(ToWord(w16 + s0), w7), ToWord(s1));
      { WordOfSum(w16, s0); }
      Plus(Plus(Plus(w16, ToWord(s0)), w7), ToWord(s1));
      Plus(Plus(Plus(ToWord(s1), w7), ToWord(s0)), w16);
    }
  }

  /** The sum that extends the schedule, from the words 16, 15, 7 and 2 places back. */
  method ScheduleWord(w16: Word, w15: Word, w7: Word, w2: Word) returns (w: Word)
    ensures w == Plus(Plus(Plus(SmallSigma1(w2), w7), SmallSigma0(w15)), w16)
  {
    var s0 := ScheduleS0(w15);
    var s1 := ScheduleS1(w2);
    ScheduleSum(w16, s0, w7, s1);
    w := Unsigned(Add(Add(Add(w16, s0), w7), s1));
  }

  lemma ScheduleEquation(bytes: seq<Byte>, offset: nat, t: nat)
    requires offset + 64 <= |bytes| && t < 64
    ensures W(bytes, offset, t) ==
      if t < 16 then WordAt(bytes, offset + 4 * t)
      else Plus(Plus(Plus(SmallSigma1(W(bytes, offset, t - 2)), W(bytes, offset, t - 7)),
                     SmallSigma0(W(bytes, offset, t - 15))), W(bytes, offset, t - 16))
  {
  }

  /** Fills the reused 64-element schedule for the block at `offset`. */
  method FillSchedule(bytes: seq<Byte>, offset: nat, schedule: array<Word>)
    requires schedule.Length == 64 && offset + 64 <= |bytes|
    modifies schedule
    ensures schedule[..] == Schedule(bytes, offset)
  {
    hide W, SmallSigma0, SmallSigma1, Plus;
    for index := 0 to 16
      invariant forall t :: 0 <= t < index ==> schedule[t] == W(bytes, offset, t)
    {
      ScheduleEquation(bytes, offset, index);
      var byteOffset := offset + index * 4;
      schedule[index] := JoinBytes(bytes[byteOffset], bytes[byteOffset + 1], bytes[byteOffset + 2],
                                   bytes[byteOffset + 3]);
    }
    for index := 16 to 64
      invariant forall t :: 0 <= t < index ==> schedule[t] == W(bytes, offset, t)
    {
      ScheduleEquation(bytes, offset, index);
      schedule[index] := ScheduleWord(schedule[index - 16], schedule[index - 15], schedule[index - 7],
                                      schedule[index - 2]);
    }
  }

  lemma RoundSums(h: Word, s1: int, choice: int, k: Word, w: Word, s0: int, majority: int)
    ensures ToWord(h + s1 + choice + k + w) == Plus(Plus(Plus(Plus(h, ToWord(s1)), ToWord(choice)), k), w)
    ensures ToWord(s0 + majority) == Plus(ToWord(s0), ToWord(majority))
  {
    WordOfSum(h, s1);
    WordOfSum(h + s1, choice);
    WordOfSum(h + s1 + choice, k);
    WordOfSum(h + s1 + choice + k, w);
    WordOfSum(s0, majority);
  }

  /** temp1 and temp2 of a round. */
  method Temporaries(a: Word, b: Word, c: Word, d: Word, e: Word, f: Word, g: Word, h: Word, k: Word, w: Word)
    returns (temp1: Word, temp2: Word)
    ensures temp1 == T1(Working(a, b, c, d, e, f, g, h), k, w)
    ensures temp2 == T2(Working(a, b, c, d, e, f, g, h))
  {
    var s1 := RoundS1(e);
    var choice := Choice(e, f, g);
    temp1 := Unsigned(Add(Add(Add(Add(h, s1), choice), k), w));
    var s0 := RoundS0(a);
    var majority := Majority(a, b, c);
    temp2 := Unsigned(Add(s0, majority));
    RoundSums(h, s1, choice, k, w, s0, majority);
  }

  function UnsignedSum(x: Word, y: Word): (r: Word)
    ensures r == Plus(x, y)
  {
    WordOfSum(x, y);
    Unsigned(Add(x, y))
  }

  lemma OneMoreRound(k: seq<Word>, start: Working, w: seq<Word>, t: nat, v: Working, t1: Word, t2: Word)
    requires |k| == 64 && |w| == 64 && t < 64
    requires v == Rounds(k, start, w, t) && t1 == T1(v, k[t], w[t]) && t2 == T2(v)
    ensures Rounds(k, start, w, t + 1) == Advance(v, t1, t2)
  {
  }

  method AddInto(hash: array<Word>, a: Word, b: Word, c: Word, d: Word, e: Word, f: Word, g: Word, h: Word)
    requires hash.Length == 8
    modifies hash
    ensures FromWords(hash[..]) == AddHash(old(FromWords(hash[..])), Working(a, b, c, d, e, f, g, h))
  {
    hash[0] := UnsignedSum(hash[0], a);
    hash[1] := UnsignedSum(hash[1], b);
    hash[2] := UnsignedSum(hash[2], c);
    hash[3] := UnsignedSum(hash[3], d);
    hash[4] := UnsignedSum(hash[4], e);
    hash[5] := UnsignedSum(hash[5], f);
    hash[6] := UnsignedSum(hash[6], g);
    hash[7] := UnsignedSum(hash[7], h);
  }

  /** The 64 rounds on one block and the addition into `hash`; k is the constant table K. */
  method CompressBlock(k: seq<Word>, hash: array<Word>, schedule: array<Word>)
    requires |k| == 64 && hash.Length == 8 && schedule.Length == 64 && hash != schedule
    modifies hash
    ensures FromWords(hash[..]) == NextHash(k, old(FromWords(hash[..])), schedule[..])
  {
    var a, b, c, d, e, f, g, h := hash[0], hash[1], hash[2], hash[3], hash[4], hash[5], hash[6], hash[7];
    ghost var start, w := FromWords(hash[..]), schedule[..];
    for index := 0 to 64
      invariant hash[..] == old(hash[..])
      invariant Working(a, b, c, d, e, f, g, h) == Rounds(k, start, w, index)
    {
      var temp1, temp2 := Temporaries(a, b, c, d, e, f, g, h, k[index], schedule[index]);
      OneMoreRound(k, start, w, index, Working(a, b, c, d, e, f, g, h), temp1, temp2);
      h := g;
      g := f;
      f := e;
      e := UnsignedSum(d, temp1);
      d := c;
      c := b;
      b := a;
      a := UnsignedSum(temp1, temp2);
    }
    AddInto(hash, a, b, c, d, e, f, g, h);
  }

  // ---------------------------------------------------------------- hexadecimal

  const HEX := "0123456789abcdef"

  /** part.toString(16) */
  function ToHex(n: nat): (s: string)
    ensures |s| >= 1
  {
    if n < 16 then [HEX[n]] else ToHex(n / 16) + [HEX[n % 16]]
  }

  /** s.padStart(width, '0') */
  function PadStart(s: string, width: nat): string {
    if |s| >= width then s else seq(width - |s|, _ => '0') + s
  }

  /** n as exactly `width` hexadecimal digits. */
  function HexDigits(n: nat, width: nat): (s: string)
    ensures |s| == width
  {
    if width == 0 then "" else HexDigits(n / 16, width - 1) + [HEX[n % 16]]
  }

  function Pow16(n: nat): nat {
    if n == 0 then 1 else 16 * Pow16(n - 1)
  }

  lemma {:induction false} ZeroHex(width: nat)
    ensures HexDigits(0, width) == seq(width, _ => '0')
  {
    if width > 0 { ZeroHex(width - 1); }
  }

  lemma OneDigit(n: nat, width: nat)
    requires n < 16 && width > 0
    ensures PadStart(ToHex(n), width) == HexDigits(n, width)
  {
    assert n / 16 == 0 && n % 16 == n;
    ZeroHex(width - 1);
  }

  lemma AppendPadded(s: string, c: char, width: nat)
    requires width > 0
    ensures PadStart(s + [c], width) == PadStart(s, width - 1) + [c]
  {
  }

  lemma {:induction false} PaddedHex(n: nat, width: nat)
    requires 0 < width && n < Pow16(width)
    ensures PadStart(ToHex(n), width) == HexDigits(n, width)
  {
    if n < 16 {
      OneDigit(n, width);
    } else {
      assert width > 1 by {
        assert Pow16(1) == 16;
      }
      assert n / 16 < Pow16(width - 1);
      PaddedHex(n / 16, width - 1);
      AppendPadded(ToHex(n / 16), HEX[n % 16], width);
    }
  }

  /** The 64 hexadecimal digits of H0 .. H7. */
  function HexDigest(d: Working): string {
    HexDigits(d.a, 8) + HexDigits(d.b, 8) + HexDigits(d.c, 8) + HexDigits(d.d, 8) +
    HexDigits(d.e, 8) + HexDigits(d.f, 8) + HexDigits(d.g, 8) + HexDigits(d.h, 8)
  }

  lemma {:induction false} HexDigitsInjective(m: nat, n: nat, width: nat)
    requires m < Pow16(width) && n < Pow16(width) && HexDigits(m, width) == HexDigits(n, width)
    ensures m == n
  {
    if width > 0 {
      var s, t := HexDigits(m, width), HexDigits(n, width);
      assert s[..width - 1] == HexDigits(m / 16, width - 1) && t[..width - 1] == HexDigits(n / 16, width - 1);
      assert s[width - 1] == HEX[m % 16] && t[width - 1] == HEX[n % 16];
      HexDigitsInjective(m / 16, n / 16, width - 1);
    }
  }

  lemma HexWordInjective(m: Word, n: Word)
    requires HexDigits(m, 8) == HexDigits(n, 8)
    ensures m == n
  {
    assert Pow16(4) == 0x1_0000;
    assert Pow16(8) == TWO32;
    HexDigitsInjective(m, n, 8);
  }

  lemma HexSlice(d: Working)
    ensures var s := HexDigest(d);
      && |s| == 64
      && s[..8] == HexDigits(d.a, 8) && s[8..16] == HexDigits(d.b, 8)
      && s[16..24] == HexDigits(d.c, 8) && s[24..32] == HexDigits(d.d, 8)
      && s[32..40] == HexDigits(d.e, 8) && s[40..48] == HexDigits(d.f, 8)
      && s[48..56] == HexDigits(d.g, 8) && s[56..] == HexDigits(d.h, 8)
  {
  }

  /** The printed digest determines the digest words. */
  lemma HexDigestInjective(d: Working, e: Working)
    requires HexDigest(d) == HexDigest(e)
    ensures d == e
  {
    HexSlice(d);
    HexSlice(e);
    HexWordInjective(d.a, e.a);
    HexWordInjective(d.b, e.b);
    HexWordInjective(d.c, e.c);
    HexWordInjective(d.d, e.d);
    HexWordInjective(d.e, e.e);
    HexWordInjective(d.f, e.f);
    HexWordInjective(d.g, e.g);
    HexWordInjective(d.h, e.h);
  }

  // ---------------------------------------------------------------- reading hexadecimal

  /** The value of a hexadecimal character, by its code; no other character has one. */
  function DigitValue(c: char): Option<nat> {
    if '0' <= c <= '9' then Some(c as int - '0' as int)
    else if 'a' <= c <= 'f' then Some(c as int - 'a' as int + 10)
    else None
  }

  /** The number that a string of hexadecimal characters stands for, the most significant first. */
  function ReadHex(s: string): Option<nat> {
    if s == "" then Some(0)
    else
      var high, low := ReadHex(s[..|s| - 1]), DigitValue(s[|s| - 1]);
      if high.Some? && low.Some? then Some(16 * high.value + low.value) else None
  }

  lemma {:induction false} HexReadsBack(n: nat, width: nat)
    requires n < Pow16(width)
    ensures ReadHex(HexDigits(n, width)) == Some(n)
  {
    if width > 0 {
      HexReadsBack(n / 16, width - 1);
      var s := HexDigits(n, width);
      assert s[..width - 1] == HexDigits(n / 16, width - 1) && s[width - 1] == HEX[n % 16];
      assert DigitValue(HEX[n % 16]) == Some(n % 16);
    }
  }

  lemma {:induction false} WordReadsBack(w: Word)
    ensures ReadHex(HexDigits(w, 8)) == Some(w)
  {
    assert Pow16(4) == 0x1_0000;
    assert Pow16(8) == TWO32;
    HexReadsBack(w, 8);
  }

  /** Sixty-four hexadecimal characters, each group of eight standing for one word of the digest. */
  ghost predicate IsHexOf(hex: string, d: Working) {
    && |hex| == 64
    && ReadHex(hex[..8]) == Some(d.a) && ReadHex(hex[8..16]) == Some(d.b)
    && ReadHex(hex[16..24]) == Some(d.c) && ReadHex(hex[24..32]) == Some(d.d)
    && ReadHex(hex[32..40]) == Some(d.e) && ReadHex(hex[40..48]) == Some(d.f)
    && ReadHex(hex[48..56]) == Some(d.g) && ReadHex(hex[56..]) == Some(d.h)
  }

  lemma HexDigestReads(d: Working)
    ensures IsHexOf(HexDigest(d), d)
  {
    hide ReadHex, HexDigits, HexDigest;
    HexSlice(d);
    WordReadsBack(d.a);
    WordReadsBack(d.b);
    WordReadsBack(d.c);
    WordReadsBack(d.d);
    WordReadsBack(d.e);
    WordReadsBack(d.f);
    WordReadsBack(d.g);
    WordReadsBack(d.h);
  }

  // ---------------------------------------------------------------- the whole function

  lemma OneMoreBlock(k: seq<Word>, start: Working, bytes: seq<Byte>, n: nat)
    requires |k| == 64 && 64 * (n + 1) <= |bytes|
    ensures HashBlocks(k, start, bytes, n + 1) == NextHash(k, HashBlocks(k, start, bytes, n), Schedule(bytes, 64 * n))
  {
  }

  /** One iteration of the loop over blocks; n counts the blocks before it. */
  method AbsorbBlock(k: seq<Word>, hash: array<Word>, schedule: array<Word>, bytes: seq<Byte>, offset: nat,
                     ghost start: Working, ghost n: nat)
    requires |k| == 64 && hash.Length == 8 && schedule.Length == 64 && hash != schedule
    requires offset == 64 * n && offset + 64 <= |bytes|
    requires FromWords(hash[..]) == HashBlocks(k, start, bytes, n)
    modifies hash, schedule
    ensures FromWords(hash[..]) == HashBlocks(k, start, bytes, n + 1)
  {
    FillSchedule(bytes, offset, schedule);
    CompressBlock(k, hash, schedule);
    OneMoreBlock(k, start, bytes, n);
  }

  /** The loop over the n blocks of the padded message, at offsets 0, 64, 128, ... */
  method AbsorbBlocks(k: seq<Word>, hash: array<Word>, bytes: seq<Byte>, n: nat)
    requires |k| == 64 && hash.Length == 8 && |bytes| == 64 * n
    modifies hash
    ensures FromWords(hash[..]) == HashBlocks(k, old(FromWords(hash[..])), bytes, n)
  {
    var schedule := new Word[64];
    ghost var start := FromWords(hash[..]);
    for block := 0 to n
      invariant FromWords(hash[..]) == HashBlocks(k, start, bytes, block)
    {
      AbsorbBlock(k, hash, schedule, bytes, 64 * block, start, block);
    }
  }

  /** The loop over blocks, with the two tables k and initial. */
  method HashWords(k: seq<Word>, initial: seq<Word>, encoded: seq<Byte>) returns (hash: array<Word>)
    requires |k| == 64 && |initial| == 8 && 8 * |encoded| < SAFE
    ensures hash.Length == 8 && FromWords(hash[..]) == Digest(k, initial, encoded)
  {
    hash := new Word[8](i requires 0 <= i < 8 => initial[i]);
    assert hash[..] == initial;
    var bytes := PadBytes(encoded);
    DivisionIsUnique(|bytes|, 64, PadBlocks(|encoded|), 0);
    AbsorbBlocks(k, hash, bytes, |bytes| / 64);
  }

  lemma HexPart(w: Word)
    ensures PadStart(ToHex(w), 8) == HexDigits(w, 8)
  {
    assert Pow16(4) == 0x1_0000;
    assert Pow16(8) == TWO32;
    PaddedHex(w, 8);
  }

  function HexOfWords(words: seq<Word>): string
  {
    if words == [] then "" else HexOfWords(words[..|words| - 1]) + HexDigits(words[|words| - 1], 8)
  }

  lemma HexOfEight(words: seq<Word>)
    requires |words| == 8
    ensures HexOfWords(words) == HexDigest(FromWords(words))
  {
    assert words[..1] == [words[0]];
    assert HexOfWords(words[..0]) == "";
    forall n | 0 <= n < 8 ensures HexOfWords(words[..n + 1]) == HexOfWords(words[..n]) + HexDigits(words[n], 8) {
      assert words[..n + 1][..n] == words[..n];
    }
    assert words[..8] == words;
  }

  /** hash.map(part => part.toString(16).padStart(8, '0')).join('') */
  method JoinHex(hash: array<Word>) returns (hex: string)
    requires hash.Length == 8
    ensures hex == HexDigest(FromWords(hash[..]))
  {
    hex := "";
    for i := 0 to 8
      invariant hex == HexOfWords(hash[..i])
    {
      HexPart(hash[i]);
      assert hash[..i + 1][..i] == hash[..i];
      hex := hex + PadStart(ToHex(hash[i]), 8);
    }
    assert hash[..8] == hash[..];
    HexOfEight(hash[..]);
  }

  /** sha256Hex, from the UTF-8 bytes of its argument. */
  method Sha256Hex(encoded: seq<Byte>) returns (hex: string)
    requires 8 * |encoded| < SAFE
    ensures exists d :: IsSha256(encoded, d) && hex == HexDigest(d) && IsHexOf(hex, d)
  {
    ConstantsAreRoots();
    var hash := HashWords(K, INITIAL, encoded);
    ghost var d := FromWords(hash[..]);
    assert IsSha256(encoded, d);
    hex := JoinHex(hash);
    HexDigestReads(d);
  }
}
