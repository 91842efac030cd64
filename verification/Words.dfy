/** 32-bit words as natural numbers, with the bitwise operations of section 2.2.2
    of FIPS 180-4 defined on binary digits, and the shifts and rotation of section 3.2. */
module Words {

  const TWO32 := 0x1_0000_0000

  type Byte = x: int | 0 <= x < 256
  type Word = x: int | 0 <= x < TWO32

  function Pow2(n: nat): (p: nat)
    ensures p >= 1
  {
    if n == 0 then 1 else 2 * Pow2(n - 1)
  }

  /** Binary digit i of x, counted from the least significant end. */
  function Bit(x: nat, i: nat): (b: nat)
    ensures b <= 1
  {
    if i == 0 then x % 2 else Bit(x / 2, i - 1)
  }

  function And(x: nat, y: nat): (r: nat)
    ensures r <= x && r <= y
  {
    if x == 0 || y == 0 then 0 else 2 * And(x / 2, y / 2) + (if x % 2 == 1 && y % 2 == 1 then 1 else 0)
  }

  function Or(x: nat, y: nat): (r: nat)
    decreases x + y
  {
    if x == 0 then y else if y == 0 then x
    else 2 * Or(x / 2, y / 2) + (if x % 2 == 1 || y % 2 == 1 then 1 else 0)
  }

  function Xor(x: nat, y: nat): (r: nat)
    decreases x + y
  {
    if x == 0 then y else if y == 0 then x
    else 2 * Xor(x / 2, y / 2) + (if x % 2 != y % 2 then 1 else 0)
  }

  /** Bitwise complement within 32 bits. */
  function Not(x: Word): Word {
    TWO32 - 1 - x
  }

  function AndW(x: Word, y: Word): Word { And(x, y) }

  lemma Pow2At32()
    ensures Pow2(32) == TWO32 && Pow2(8) == 256 && Pow2(16) == 0x1_0000 && Pow2(24) == 0x100_0000
  {
    assert Pow2(4) == 16;
    assert Pow2(8) == 256;
    assert Pow2(12) == 0x1000;
    assert Pow2(16) == 0x1_0000;
    assert Pow2(20) == 0x10_0000;
    assert Pow2(24) == 0x100_0000;
    assert Pow2(28) == 0x1000_0000;
  }

  lemma {:induction false} BelowPow2Any(x: nat, y: nat, n: nat)
    requires x < Pow2(n) && y < Pow2(n)
    ensures Or(x, y) < Pow2(n) && Xor(x, y) < Pow2(n)
  {
    if x != 0 && y != 0 {
      BelowPow2Any(x / 2, y / 2, n - 1);
    }
  }

  lemma BelowPow2(x: Word, y: Word, n: nat)
    requires n == 32
    ensures Or(x, y) < TWO32 && Xor(x, y) < TWO32
  {
    Pow2At32();
    BelowPow2Any(x, y, 32);
  }

  function OrW(x: Word, y: Word): Word {
    BelowPow2(x, y, 32);
    Or(x, y)
  }

  function XorW(x: Word, y: Word): Word {
    BelowPow2(x, y, 32);
    Xor(x, y)
  }

  /** Addition modulo 2^32, section 3.2(1) of FIPS 180-4. */
  function Plus(x: Word, y: Word): Word {
    if x + y < TWO32 then x + y else x + y - TWO32
  }

  /** SHR, section 3.2(3): the n low digits are lost. */
  function Shr(n: nat, x: Word): Word
    decreases n, x
  {
    if n == 0 then x else Shr(n - 1, x / 2)
  }

  /** The left shift that keeps 32 digits. */
  function Shl(n: nat, x: Word): Word
    decreases n, x
  {
    if n == 0 then x else Shl(n - 1, Plus(x, x))
  }

  /** ROTR, section 3.2(4): (x >> n) or (x << 32 - n). */
  function Rotr(n: nat, x: Word): Word
    requires n < 32
  {
    OrW(Shr(n, x), Shl(32 - n, x))
  }

  // ---------------------------------------------------------------- digit by digit

  lemma HalfAndLast(z: nat, q: nat, b: nat)
    requires z == 2 * q + b && b <= 1
    ensures z / 2 == q && z % 2 == b
  {
  }

  lemma {:induction false} LastDigits(x: nat, y: nat)
    ensures And(x, y) / 2 == And(x / 2, y / 2) && And(x, y) % 2 == (if x % 2 == 1 && y % 2 == 1 then 1 else 0)
    ensures Or(x, y) / 2 == Or(x / 2, y / 2) && Or(x, y) % 2 == (if x % 2 == 1 || y % 2 == 1 then 1 else 0)
    ensures Xor(x, y) / 2 == Xor(x / 2, y / 2) && Xor(x, y) % 2 == (if x % 2 != y % 2 then 1 else 0)
  {
    var m, n := x / 2, y / 2;
    if x != 0 && y != 0 {
      HalfAndLast(And(x, y), And(m, n), if x % 2 == 1 && y % 2 == 1 then 1 else 0);
      HalfAndLast(Or(x, y), Or(m, n), if x % 2 == 1 || y % 2 == 1 then 1 else 0);
      HalfAndLast(Xor(x, y), Xor(m, n), if x % 2 != y % 2 then 1 else 0);
    } else if x == 0 {
      assert And(x, y) == 0 && Or(x, y) == y && Xor(x, y) == y;
      assert And(0, n) == 0 && Or(0, n) == n && Xor(0, n) == n;
    } else {
      assert And(x, y) == 0 && Or(x, y) == x && Xor(x, y) == x;
      assert And(m, 0) == 0 && Or(m, 0) == m && Xor(m, 0) == m;
    }
  }

  /** And, Or and Xor are the bitwise operations: digit i of the result is the boolean
      operation on digit i of the arguments. */
  lemma {:induction false} BitwiseDigits(x: nat, y: nat, i: nat)
    ensures Bit(And(x, y), i) == (if Bit(x, i) == 1 && Bit(y, i) == 1 then 1 else 0)
    ensures Bit(Or(x, y), i) == (if Bit(x, i) == 1 || Bit(y, i) == 1 then 1 else 0)
    ensures Bit(Xor(x, y), i) == (if Bit(x, i) != Bit(y, i) then 1 else 0)
    decreases i
  {
    LastDigits(x, y);
    if i > 0 {
      BitwiseDigits(x / 2, y / 2, i - 1);
    }
  }

  lemma OnlyZeroMultiple(e: int, d: int)
    requires -d < e * d < d
    ensures e == 0
  {
  }

  lemma DivisionIsUnique(x: nat, d: nat, q: nat, r: nat)
    requires x == q * d + r && r < d
    ensures x / d == q && x % d == r
  {
    assert (x / d - q) * d == r - x % d;
    OnlyZeroMultiple(x / d - q, d);
  }

  lemma HalfThenDivide(x: nat, p: nat)
    requires p >= 1
    ensures x / (2 * p) == (x / 2) / p
    ensures x % (2 * p) == 2 * ((x / 2) % p) + x % 2
  {
    var q, r := (x / 2) / p, (x / 2) % p;
    assert x / 2 == q * p + r;
    assert x == q * (2 * p) + (2 * r + x % 2);
    DivisionIsUnique(x, 2 * p, q, 2 * r + x % 2);
  }

  lemma {:induction false} ShrDigits(n: nat, x: Word, i: nat)
    ensures Bit(Shr(n, x), i) == Bit(x, n + i)
    decreases n
  {
    if n > 0 {
      ShrDigits(n - 1, x / 2, i);
    }
  }

  lemma {:induction false} ShrDivides(n: nat, x: Word)
    ensures Shr(n, x) == x / Pow2(n)
    decreases n
  {
    if n > 0 {
      ShrDivides(n - 1, x / 2);
      HalfThenDivide(x, Pow2(n - 1));
    }
  }

  lemma MovePower(x: nat, n: nat)
    requires n > 0
    ensures x * Pow2(n) == (2 * x) * Pow2(n - 1) >= 2 * x
  {
    assert Pow2(n - 1) >= 1 && (2 * x) * (Pow2(n - 1) - 1) >= 0;
  }

  lemma {:induction false} ShlMultiplies(n: nat, x: Word)
    requires x * Pow2(n) < TWO32
    ensures Shl(n, x) == x * Pow2(n)
    decreases n
  {
    if n > 0 {
      MovePower(x, n);
      ShlMultiplies(n - 1, 2 * x);
    }
  }

  /** Dropping the carry out of position n leaves the digits below it alone. */
  lemma {:induction false} CarryDigits(y: nat, n: nat, i: nat)
    requires i < n && Pow2(n) <= y
    ensures Bit(y - Pow2(n), i) == Bit(y, i)
  {
    HalfAndLast(y - Pow2(n), y / 2 - Pow2(n - 1), y % 2);
    if i > 0 {
      CarryDigits(y / 2, n - 1, i - 1);
    }
  }

  lemma DoubleDigits(x: Word, i: nat)
    requires i < 32
    ensures Bit(Plus(x, x), i) == if i == 0 then 0 else Bit(x, i - 1)
  {
    HalfAndLast(2 * x, x, 0);
    Pow2At32();
    if 2 * x >= TWO32 {
      CarryDigits(2 * x, 32, i);
    }
  }

  lemma {:induction false} ShlDigits(m: nat, x: Word, i: nat)
    requires i < 32
    ensures Bit(Shl(m, x), i) == if i < m then 0 else Bit(x, i - m)
    decreases m
  {
    if m > 0 {
      ShlDigits(m - 1, Plus(x, x), i);
      if i >= m - 1 {
        DoubleDigits(x, i - (m - 1));
      }
    }
  }

  lemma {:induction false} HighDigitsVanish(x: nat, n: nat, i: nat)
    requires x < Pow2(n) && n <= i
    ensures Bit(x, i) == 0
    decreases i
  {
    if i > 0 {
      HighDigitsVanish(x / 2, if n == 0 then 0 else n - 1, i - 1);
    }
  }

  /** ROTR is the circular right shift: digit i of the result is digit i + n, taken
      around the 32 positions. */
  lemma RotrDigits(n: nat, x: Word, i: nat)
    requires 0 < n < 32 && i < 32
    ensures Bit(Rotr(n, x), i) == Bit(x, if i + n < 32 then i + n else i + n - 32)
  {
    BitwiseDigits(Shr(n, x), Shl(32 - n, x), i);
    ShrDigits(n, x, i);
    ShlDigits(32 - n, x, i);
    if i + n >= 32 {
      Pow2At32();
      HighDigitsVanish(x, 32, i + n);
    }
  }

  /** The disjunction of a multiple of 2^n and a number below 2^n is their sum. */
  lemma {:induction false} OrOfDisjoint(q: nat, r: nat, n: nat)
    requires r < Pow2(n)
    ensures Or(q * Pow2(n), r) == q * Pow2(n) + r
    decreases n
  {
    var x := q * Pow2(n);
    if n > 0 && x != 0 && r != 0 {
      assert x == 2 * (q * Pow2(n - 1));
      assert x / 2 == q * Pow2(n - 1) && x % 2 == 0;
      OrOfDisjoint(q, r / 2, n - 1);
    }
  }
}
