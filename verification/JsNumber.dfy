/** Integer-valued JavaScript Numbers. A bitwise operator takes its operands to 32-bit
    words (ToUint32) and yields a signed 32-bit value, except that `>>>` yields an unsigned
    one. Sums are exact as long as they stay within the safe integers. */
module JsNumber {
  import opened Words

  const SAFE := 0x20_0000_0000_0000 // 2^53

  /** ToUint32: the word a Number stands for under a bitwise operator. */
  function ToWord(x: int): Word
    decreases if x < 0 then -x + TWO32 else x
  {
    if x < 0 then ToWord(x + TWO32) else if x < TWO32 then x else ToWord(x - TWO32)
  }

  lemma {:induction false} ToWordIsModulo(x: int)
    ensures ToWord(x) == x % TWO32
    decreases if x < 0 then -x + TWO32 else x
  {
    if x < 0 {
      ToWordIsModulo(x + TWO32);
    } else if x >= TWO32 {
      ToWordIsModulo(x - TWO32);
    }
  }

  /** The signed Number with the given 32-bit pattern. */
  function Signed(w: Word): (x: int)
    ensures -0x8000_0000 <= x < 0x8000_0000
  {
    if w < 0x8000_0000 then w else w - TWO32
  }

  function BitAnd(x: int, y: int): int { Signed(AndW(ToWord(x), ToWord(y))) }
  function BitOr(x: int, y: int): int { Signed(OrW(ToWord(x), ToWord(y))) }
  function BitXor(x: int, y: int): int { Signed(XorW(ToWord(x), ToWord(y))) }
  function BitNot(x: int): int { Signed(Not(ToWord(x))) }

  /** x << n; the shift count is taken modulo 32. */
  function ShiftLeft(x: int, n: nat): int { Signed(Shl(n % 32, ToWord(x))) }

  /** x >>> n */
  function ShiftRightUnsigned(x: int, n: nat): int { Shr(n % 32, ToWord(x)) }

  /** x >>> 0 */
  function Unsigned(x: int): Word { ToWord(x) }

  /** x + y, where neither operand nor the sum is rounded. */
  function Add(x: int, y: int): int
    requires -SAFE <= x + y <= SAFE
  {
    x + y
  }

  lemma WordOfSigned(w: Word)
    ensures ToWord(Signed(w)) == w
  {
  }

  /** Machine addition and FIPS addition agree modulo 2^32, whatever the signs. */
  lemma WordOfSum(x: int, y: int)
    ensures ToWord(x + y) == Plus(ToWord(x), ToWord(y))
  {
    ToWordIsModulo(x);
    ToWordIsModulo(y);
    ToWordIsModulo(x + y);
  }

  lemma WordOfSelf(w: Word)
    ensures ToWord(w) == w
  {
  }

  /** Every bitwise operator commutes with the passage to words. */
  lemma WordOfOperators(x: int, y: int, n: nat)
    requires n < 32
    ensures ToWord(BitAnd(x, y)) == AndW(ToWord(x), ToWord(y))
    ensures ToWord(BitOr(x, y)) == OrW(ToWord(x), ToWord(y))
    ensures ToWord(BitXor(x, y)) == XorW(ToWord(x), ToWord(y))
    ensures ToWord(BitNot(x)) == Not(ToWord(x))
    ensures ToWord(ShiftLeft(x, n)) == Shl(n, ToWord(x))
    ensures ToWord(ShiftRightUnsigned(x, n)) == Shr(n, ToWord(x))
  {
    WordOfSigned(AndW(ToWord(x), ToWord(y)));
    WordOfSigned(OrW(ToWord(x), ToWord(y)));
    WordOfSigned(XorW(ToWord(x), ToWord(y)));
    WordOfSigned(Not(ToWord(x)));
    WordOfSigned(Shl(n, ToWord(x)));
    WordOfSelf(Shr(n, ToWord(x)));
  }
}
