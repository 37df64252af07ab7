/**
 * 32-bit words as numbers below 2^32 (section 3 of FIPS 180-4) beside the numbers JavaScript
 * computes with: `^`, `&` and `~` give signed 32-bit values, `+` is exact, and `>>> 0`
 * reduces modulo 2^32.
 */
module Words {
  import opened Basics

  const MODULUS: nat := 0x1_0000_0000

  type Word = x: int | 0 <= x < 0x1_0000_0000

  /** Bit k of a number, the lowest being bit 0. */
  predicate Bit(x: nat, k: nat)
    decreases k, x
  {
    if k == 0 then x % 2 == 1 else Bit(x / 2, k - 1)
  }

  /** Applies `op` to each of the k lowest bits. */
  function Bitwise(op: (bool, bool) -> bool, x: nat, y: nat, k: nat): nat
    decreases k, x
  {
    if k == 0 then 0 else 2 * Bitwise(op, x / 2, y / 2, k - 1) + if op(x % 2 == 1, y % 2 == 1) then 1 else 0
  }

  lemma {:induction false} BitwiseIsBelow(op: (bool, bool) -> bool, x: nat, y: nat, k: nat)
    ensures Bitwise(op, x, y, k) < Pow2(k)
    decreases k
  {
    if k > 0 {
      BitwiseIsBelow(op, x / 2, y / 2, k - 1);
    }
  }

  lemma {:induction false} BitOfBitwise(op: (bool, bool) -> bool, x: nat, y: nat, k: nat, i: nat)
    requires i < k
    ensures Bit(Bitwise(op, x, y, k), i) == op(Bit(x, i), Bit(y, i))
    decreases k
  {
    if i > 0 {
      BitOfBitwise(op, x / 2, y / 2, k - 1, i - 1);
    }
  }

  lemma ModulusIsPow2()
    ensures Pow2(32) == MODULUS
  {
    assert Pow2(8) == 0x100;
    assert Pow2(16) == 0x1_0000;
    assert Pow2(24) == 0x100_0000;
  }

  function OnWords(op: (bool, bool) -> bool, x: Word, y: Word): Word {
    BitwiseIsBelow(op, x, y, 32);
    ModulusIsPow2();
    Bitwise(op, x, y, 32)
  }

  function Xor(x: Word, y: Word): Word { OnWords((a, b) => a != b, x, y) }
  function And(x: Word, y: Word): Word { OnWords((a, b) => a && b, x, y) }
  function Or(x: Word, y: Word): Word { OnWords((a, b) => a || b, x, y) }
  function Not(x: Word): Word { 0xffff_ffff - x }

  function Down(x: nat, n: nat): (r: nat)
    ensures r <= x
    decreases n, x
  {
    if n == 0 then x else Down(x / 2, n - 1)
  }

  function Up(x: nat, n: nat): nat
    decreases n, x
  {
    if n == 0 then x else 2 * Up(x, n - 1)
  }

  function Shr(x: Word, n: nat): Word { Down(x, n) }
  function Shl(x: Word, n: nat): Word { Up(x, n) % MODULUS }

  /** The circular shift (section 3.2 of FIPS 180-4). */
  function RotR(x: Word, n: nat): Word
    requires 0 < n < 32
  {
    Or(Shr(x, n), Shl(x, 32 - n))
  }

  /** Addition modulo 2^32 (section 3.2 of FIPS 180-4). */
  function Plus(x: Word, y: Word): Word { (x + y) % MODULUS }

  /** The number JavaScript sees when a bitwise operator made the word. */
  function Signed(x: Word): int { if x < 0x8000_0000 then x else x - MODULUS }

  /** `n >>> 0` */
  function Uint32(n: int): Word { n % MODULUS }

  // ---- RotR moves every bit n places down, and the lowest n to the top -----------

  lemma HalfOfRemainder(x: nat, p: nat)
    requires p > 0
    ensures x % (2 * p) == 2 * (x / 2 % p) + x % 2
  {
    var q, r := x / 2 / p, x / 2 % p;
    assert x / 2 == q * p + r;
    assert x == q * (2 * p) + (2 * r + x % 2);
    DivModUnique(x, 2 * p, q, 2 * r + x % 2);
  }

  lemma DivModUnique(x: int, d: nat, q: int, r: nat)
    requires d > 0 && r < d && x == q * d + r
    ensures x % d == r
  {
    var k := x / d - q;
    assert x == x / d * d + x % d;
    assert k * d == r - x % d;
    NoMultipleBetween(k, d);
  }

  lemma NoMultipleBetween(k: int, d: nat)
    ensures k >= 1 ==> k * d >= d
    ensures k <= -1 ==> k * d <= 0 - d
  {
  }

  lemma {:induction false} BitOfDown(x: nat, n: nat, k: nat)
    ensures Bit(Down(x, n), k) == Bit(x, k + n)
    decreases n
  {
    if n > 0 {
      BitOfDown(x / 2, n - 1, k);
    }
  }

  lemma {:induction false} BitOfRemainder(x: nat, n: nat, k: nat)
    requires k < n
    ensures Bit(x % Pow2(n), k) == Bit(x, k)
    decreases n
  {
    HalfOfRemainder(x, Pow2(n - 1));
    if k > 0 {
      BitOfRemainder(x / 2, n - 1, k - 1);
    }
  }

  lemma {:induction false} BitOfUp(x: nat, n: nat, k: nat)
    ensures Bit(Up(x, n), k) == (k >= n && Bit(x, k - n))
    decreases n
  {
    if n > 0 && k > 0 {
      BitOfUp(x, n - 1, k - 1);
    }
  }

  lemma {:induction false} NoBitBeyond(x: nat, n: nat, k: nat)
    requires x < Pow2(n) && k >= n
    ensures !Bit(x, k)
    decreases k
  {
    if k > 0 {
      NoBitBeyond(x / 2, if n == 0 then 0 else n - 1, k - 1);
    }
  }

  lemma BitOfShl(x: Word, n: nat, k: nat)
    requires k < 32
    ensures Bit(Shl(x, n), k) == (k >= n && Bit(x, k - n))
  {
    ModulusIsPow2();
    BitOfRemainder(Up(x, n), 32, k);
    BitOfUp(x, n, k);
  }

  lemma NoBitBeyondWord(x: Word, k: nat)
    requires k >= 32
    ensures !Bit(x, k)
  {
    ModulusIsPow2();
    NoBitBeyond(x, 32, k);
  }

  lemma {:induction false} BitOfComplement(x: nat, n: nat, k: nat)
    requires x < Pow2(n) && k < n
    ensures Bit(Pow2(n) - 1 - x, k) == !Bit(x, k)
    decreases n
  {
    var rest := Pow2(n - 1) - 1 - x / 2;
    assert Pow2(n) - 1 - x == 2 * rest + 1 - x % 2;
    if k > 0 { BitOfComplement(x / 2, n - 1, k - 1); }
  }

  lemma BitOfNot(x: Word, k: nat)
    requires k < 32
    ensures Bit(Not(x), k) == !Bit(x, k)
  {
    ModulusIsPow2();
    BitOfComplement(x, 32, k);
  }

  lemma RotRIsCircular(x: Word, n: nat, k: nat)
    requires 0 < n < 32 && k < 32
    ensures Bit(RotR(x, n), k) == Bit(x, if k + n < 32 then k + n else k + n - 32)
  {
    BitOfBitwise((a, b) => a || b, Shr(x, n), Shl(x, 32 - n), 32, k);
    BitOfDown(x, n, k);
    BitOfShl(x, 32 - n, k);
    if k + n >= 32 {
      NoBitBeyondWord(x, k + n);
    }
  }
}
