// 32-bit words, their operations as FIPS 180-4 has them (sections 2.2.2 and
// 3.2), and the JavaScript number operators the page computes them with.
module Words {
  type Word = x: int | 0 <= x < 0x1_0000_0000

  type Byte = x: int | 0 <= x < 0x100

  const MODULUS := 0x1_0000_0000

  // ------------------------------------------------------------- bits

  datatype BitOp = AndBits | OrBits | XorBits

  function OnBits(op: BitOp, x: int, y: int): (r: nat)
    requires 0 <= x <= 1 && 0 <= y <= 1
    ensures r <= 1
  {
    match op
    case AndBits => x * y
    case OrBits => if x == 1 || y == 1 then 1 else 0
    case XorBits => if x == y then 0 else 1
  }

  function Pow2(n: nat): (r: nat)
    ensures r > 0
  {
    if n == 0 then 1 else 2 * Pow2(n - 1)
  }

  // The low n bits combined one by one.
  function Bitwise(op: BitOp, x: nat, y: nat, n: nat): (r: nat)
    ensures r < Pow2(n)
    decreases n, x, y
  {
    if n == 0 then 0 else 2 * Bitwise(op, x / 2, y / 2, n - 1) + OnBits(op, x % 2, y % 2)
  }

  lemma Pow2Of32()
    ensures Pow2(32) == MODULUS
  {
    assert Pow2(8) == 0x100;
    assert Pow2(16) == 0x1_0000;
    assert Pow2(24) == 0x100_0000;
  }

  function And(x: Word, y: Word): Word { Pow2Of32(); Bitwise(AndBits, x, y, 32) }

  function Or(x: Word, y: Word): Word { Pow2Of32(); Bitwise(OrBits, x, y, 32) }

  function Xor(x: Word, y: Word): Word { Pow2Of32(); Bitwise(XorBits, x, y, 32) }

  function Not(x: Word): Word { MODULUS - 1 - x }

  // SHR: the n lowest bits fall off.
  function Shr(x: nat, n: nat): (r: nat)
    ensures r <= x
    decreases n, x
  {
    if n == 0 then x else Shr(x / 2, n - 1)
  }

  // The left shift: the n highest bits fall off.
  function Shl(x: Word, n: nat): Word
    decreases n, x
  {
    if n == 0 then x else Shl(2 * x % MODULUS, n - 1)
  }

  // ROTR, in the standard's terms: SHR by n OR a left shift by 32 - n.
  function Rotr(x: Word, n: nat): Word
    requires n < 32
  {
    Or(Shr(x, n), Shl(x, 32 - n))
  }

  // Addition modulo 2^32.
  function Add(x: Word, y: Word): Word { (x + y) % MODULUS }

  function Bit(x: nat, k: nat): (b: nat)
    ensures b <= 1
  {
    Shr(x, k) % 2
  }

  lemma BitUnfolds(x: nat, k: nat)
    ensures Bit(x, 0) == x % 2 && Bit(x, k + 1) == Bit(x / 2, k)
  {
  }

  // The operations mean what they should, bit by bit.
  lemma {:induction false} BitOfBitwise(op: BitOp, x: nat, y: nat, n: nat, k: nat)
    requires k < n
    ensures Bit(Bitwise(op, x, y, n), k) == OnBits(op, Bit(x, k), Bit(y, k))
    decreases n
  {
    var rest := Bitwise(op, x / 2, y / 2, n - 1);
    var all := Bitwise(op, x, y, n);
    assert all / 2 == rest && all % 2 == OnBits(op, x % 2, y % 2);
    if k == 0 {
    } else {
      BitOfBitwise(op, x / 2, y / 2, n - 1, k - 1);
      BitUnfolds(all, k - 1);
      BitUnfolds(x, k - 1);
      BitUnfolds(y, k - 1);
    }
  }

  lemma {:induction false} BitOfShr(x: nat, n: nat, k: nat)
    ensures Bit(Shr(x, n), k) == Bit(x, k + n)
    decreases n
  {
    if n == 0 {
    } else {
      BitOfShr(x / 2, n - 1, k);
      BitUnfolds(x, k + n - 1);
    }
  }

  lemma {:induction false} NoHighBits(x: nat, n: nat, k: nat)
    requires x < Pow2(n) && k >= n
    ensures Bit(x, k) == 0
    decreases k
  {
    if k == 0 {
    } else {
      BitUnfolds(x, k - 1);
      if n > 0 {
        NoHighBits(x / 2, n - 1, k - 1);
      } else {
        NoHighBits(x / 2, 0, k - 1);
      }
    }
  }

  // The low bits are those of the number itself, whatever falls off above.
  lemma {:induction false} BitOfRemainder(x: nat, n: nat, k: nat)
    requires k < n
    ensures Bit(x % Pow2(n), k) == Bit(x, k)
    decreases k
  {
    HalfOfRemainder(x, n);
    if k == 0 {
    } else {
      BitUnfolds(x, k - 1);
      BitUnfolds(x % Pow2(n), k - 1);
      BitOfRemainder(x / 2, n - 1, k - 1);
    }
  }

  lemma HalfOfRemainder(x: nat, n: nat)
    requires n > 0
    ensures x % Pow2(n) / 2 == x / 2 % Pow2(n - 1) && x % Pow2(n) % 2 == x % 2
  {
    var p := Pow2(n - 1);
    var q, r := x / 2 / p, x / 2 % p;
    assert x == 2 * (q * p + r) + x % 2;
    assert x == q * (2 * p) + (2 * r + x % 2);
    RemainderIs(x, 2 * p, q, 2 * r + x % 2);
  }

  lemma AtLeastOne(e: int, d: int)
    requires d > 0
    ensures e >= 1 ==> e * d >= d
    ensures e <= -1 ==> e * d <= -d
  {
  }

  lemma RemainderIs(x: int, d: int, q: int, r: int)
    requires d > 0 && x == q * d + r && 0 <= r < d
    ensures x % d == r
  {
    var e := q - x / d;
    assert e * d == x % d - r;
    AtLeastOne(e, d);
  }

  lemma BitOfDoubled(x: Word, k: nat)
    requires k < 32
    ensures Bit(2 * x % MODULUS, k) == if k == 0 then 0 else Bit(x, k - 1)
  {
    Pow2Of32();
    BitOfRemainder(2 * x, 32, k);
    if k > 0 {
      BitUnfolds(2 * x, k - 1);
    }
  }

  lemma {:induction false} BitOfShl(x: Word, n: nat, k: nat)
    requires k < 32
    ensures Bit(Shl(x, n), k) == if k < n then 0 else Bit(x, k - n)
    decreases n
  {
    if n == 0 {
    } else {
      BitOfShl(2 * x % MODULUS, n - 1, k);
      if k >= n - 1 {
        BitOfDoubled(x, k - (n - 1));
      }
    }
  }

  lemma BitOfOr(x: Word, y: Word, k: nat)
    requires k < 32
    ensures Bit(Or(x, y), k) == OnBits(OrBits, Bit(x, k), Bit(y, k))
  {
    BitOfBitwise(OrBits, x, y, 32, k);
  }

  lemma NoBitAbove(x: Word, k: nat)
    requires k >= 32
    ensures Bit(x, k) == 0
  {
    Pow2Of32();
    NoHighBits(x, 32, k);
  }

  // Rotation: bit k comes from bit k + n, around the word.
  lemma BitOfRotr(x: Word, n: nat, k: nat)
    requires 0 < n < 32 && k < 32
    ensures Bit(Rotr(x, n), k) == Bit(x, (k + n) % 32)
  {
    RotrParts(x, n, k);
    if k + n >= 32 {
      NoBitAbove(x, k + n);
    }
  }

  lemma RotrParts(x: Word, n: nat, k: nat)
    requires 0 < n < 32 && k < 32
    ensures Bit(Rotr(x, n), k)
      == OnBits(OrBits, Bit(x, k + n), if k < 32 - n then 0 else Bit(x, k + n - 32))
  {
    var low, high := Shr(x, n), Shl(x, 32 - n);
    BitOfOr(low, high, k);
    BitOfShr(x, n, k);
    BitOfShl(x, 32 - n, k);
  }

  // ------------------------------------------------------------- JavaScript numbers

  // Integers of smaller magnitude are exact doubles, and so are their sums.
  const EXACT := 0x20_0000_0000_0000

  function ToUint32(x: int): Word { x % MODULUS }

  function ToInt32(x: int): int { if x % MODULUS >= 0x8000_0000 then x % MODULUS - MODULUS else x % MODULUS }

  // The + of numbers, where no rounding can happen.
  function JsAdd(x: int, y: int): int
    requires -EXACT < x + y < EXACT
  {
    x + y
  }

  function JsAnd(x: int, y: int): int { ToInt32(And(ToUint32(x), ToUint32(y))) }

  function JsOr(x: int, y: int): int { ToInt32(Or(ToUint32(x), ToUint32(y))) }

  function JsXor(x: int, y: int): int { ToInt32(Xor(ToUint32(x), ToUint32(y))) }

  function JsNot(x: int): int { ToInt32(Not(ToUint32(x))) }

  // x >>> n
  function JsShr(x: int, n: nat): Word
    requires n < 32
  {
    Shr(ToUint32(x), n)
  }

  // x << n
  function JsShl(x: int, n: nat): int
    requires n < 32
  {
    ToInt32(Shl(ToUint32(x), n))
  }

  // A signed 32-bit result.
  predicate IsInt32(x: int) { -0x8000_0000 <= x < 0x8000_0000 }

  // Reading a signed result as a word again gives the word it came from.
  lemma SignedAndBack(x: Word)
    ensures ToUint32(ToInt32(x)) == x && IsInt32(ToInt32(x))
  {
  }

  lemma WordIsItself(x: Word)
    ensures ToUint32(x) == x
  {
  }

  // A reduction may wait until the end of a sum.
  lemma DelayedReduction(x: int, y: int)
    ensures ToUint32(x + y) == Add(ToUint32(x), ToUint32(y))
  {
  }
}
