/** The machine word `teco_int_t`: 64 bits, two's complement. */
module Words {

  const MODULUS: int := 0x1_0000_0000_0000_0000
  const INT_MAX: int := 0x7FFF_FFFF_FFFF_FFFF
  const INT_MIN: int := -0x8000_0000_0000_0000

  /** Numbers are plain integers; every operation wraps its result into the range of words. */
  type Word = int

  predicate IsWord(x: int) {
    INT_MIN <= x <= INT_MAX
  }

  /** The word congruent to an integer modulo 2^64. */
  function Wrap(x: int): (w: Word)
    ensures IsWord(w)
    ensures IsWord(x) ==> w == x
  {
    (x - INT_MIN) % MODULUS + INT_MIN
  }

  /** How many times the modulus was removed. */
  function Carry(x: int): (k: int)
    ensures x == Wrap(x) + k * MODULUS
  {
    (x - INT_MIN) / MODULUS
  }

  /** A word is determined by its residue. */
  lemma WrapShift(x: int, k: int)
    ensures Wrap(x + k * MODULUS) == Wrap(x)
  {
    var y := x - INT_MIN;
    assert (y + k * MODULUS) % MODULUS == y % MODULUS;
  }

  /** Intermediate wrapping does not change a wrapped sum. */
  lemma WrapAdd(x: int, y: int)
    ensures Wrap(Wrap(x) + y) == Wrap(x + y)
  {
    WrapShift(Wrap(x) + y, Carry(x));
  }

  /** Intermediate wrapping does not change a wrapped product. */
  lemma WrapMul(x: int, y: int)
    ensures Wrap(Wrap(x) * y) == Wrap(x * y)
  {
    var k := Carry(x);
    assert x * y == Wrap(x) * y + (k * y) * MODULUS by {
      assert x * y == (Wrap(x) + k * MODULUS) * y;
    }
    WrapShift(Wrap(x) * y, k * y);
  }

  /** Quotient truncated towards zero, as in C. */
  function TruncDiv(x: int, y: int): int
    requires y != 0
  {
    if x >= 0 then x / y else -((-x) / y)
  }

  /** Remainder of the truncated quotient; it takes the sign of the dividend. */
  function TruncMod(x: int, y: int): int
    requires y != 0
  {
    x - y * TruncDiv(x, y)
  }

  function Abs(x: int): nat {
    if x < 0 then -x else x
  }

  /** The bit pattern of a word read as an unsigned number. */
  function Unsigned(x: Word): nat {
    x % MODULUS
  }

  /** Combines the lowest `n` bits of two bit patterns. */
  function Bitwise(f: (bool, bool) -> bool, x: nat, y: nat, n: nat): nat {
    if n == 0 then 0
    else (if f(x % 2 == 1, y % 2 == 1) then 1 else 0) + 2 * Bitwise(f, x / 2, y / 2, n - 1)
  }

  function BitAnd(x: Word, y: Word): Word {
    Wrap(Bitwise((a, b) => a && b, Unsigned(x), Unsigned(y), 64))
  }

  function BitXor(x: Word, y: Word): Word {
    Wrap(Bitwise((a, b) => a != b, Unsigned(x), Unsigned(y), 64))
  }

  function BitOr(x: Word, y: Word): Word {
    Wrap(Bitwise((a, b) => a || b, Unsigned(x), Unsigned(y), 64))
  }

  // Powers of two.

  function Pow2(n: nat): nat {
    if n == 0 then 1 else 2 * Pow2(n - 1)
  }

  lemma {:induction false} Pow2Mono(a: nat, b: nat)
    requires a <= b
    ensures Pow2(a) <= Pow2(b)
    decreases b - a
  {
    if a < b {
      Pow2Mono(a + 1, b);
    }
  }

  lemma {:induction false} Pow2Add(a: nat, b: nat)
    ensures Pow2(a + b) == Pow2(a) * Pow2(b)
  {
    if a > 0 {
      Pow2Add(a - 1, b);
      Doubled(Pow2(a - 1), Pow2(b));
    }
  }

  lemma PowerOf64()
    ensures Pow2(64) == MODULUS
  {
    assert Pow2(8) == 256;
    Pow2Add(8, 8);
    Pow2Add(16, 16);
    Pow2Add(32, 32);
  }

  lemma Doubled(x: int, y: int)
    ensures (2 * x) * y == 2 * (x * y)
  {
    assert (x + x) * y == x * y + x * y;
  }
}
