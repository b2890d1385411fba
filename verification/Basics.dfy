/** What the C types of the firmware stand for: unsigned integers of a given
    width, and bytes with exclusive or. */
module Basics {
  const UINT32_MAX: int := 0xFFFF_FFFF

  type uint32 = n: int | 0 <= n <= 0xFFFF_FFFF
  type uint16 = n: int | 0 <= n <= 0xFFFF
  type byte = n: int | 0 <= n < 256

  datatype Option<+T> = None | Some(value: T)

  /** Unsigned 32-bit arithmetic drops everything above bit 31. */
  function Wrap32(n: int): uint32 { n % 0x1_0000_0000 }

  /** The exclusive or of the low `n` bits of two numbers, bit by bit. */
  function XorBits(a: nat, b: nat, n: nat): nat {
    if n == 0 then 0 else (if a % 2 == b % 2 then 0 else 1) + 2 * XorBits(a / 2, b / 2, n - 1)
  }

  function Pow2(n: nat): (p: nat)
    ensures p > 0
  {
    if n == 0 then 1 else 2 * Pow2(n - 1)
  }

  lemma {:induction false} XorBitsCancels(a: nat, b: nat, n: nat)
    requires a < Pow2(n)
    ensures XorBits(a, b, n) < Pow2(n)
    ensures XorBits(XorBits(a, b, n), b, n) == a
  {
    if n > 0 {
      XorBitsCancels(a / 2, b / 2, n - 1);
      var x := XorBits(a, b, n);
      assert x / 2 == XorBits(a / 2, b / 2, n - 1) && (x % 2 == 0 <==> a % 2 == b % 2);
    }
  }

  lemma Pow2Of8()
    ensures Pow2(8) == 256
  {
    assert Pow2(4) == 16;
  }

  /** C's `^` on two bytes. */
  function Xor(a: byte, b: byte): byte {
    Pow2Of8();
    XorBitsCancels(a, b, 8);
    XorBits(a, b, 8)
  }

  lemma XorCancels(a: byte, k: byte)
    ensures Xor(Xor(a, k), k) == a
  {
    Pow2Of8();
    XorBitsCancels(a, k, 8);
  }

  lemma {:induction false} XorBitsAssociates(a: nat, b: nat, c: nat, n: nat)
    ensures XorBits(XorBits(a, b, n), c, n) == XorBits(a, XorBits(b, c, n), n)
    decreases n
  {
    if n > 0 {
      XorBitsAssociates(a / 2, b / 2, c / 2, n - 1);
      var x, y := XorBits(a, b, n), XorBits(b, c, n);
      assert x / 2 == XorBits(a / 2, b / 2, n - 1) && (x % 2 == 0 <==> a % 2 == b % 2);
      assert y / 2 == XorBits(b / 2, c / 2, n - 1) && (y % 2 == 0 <==> b % 2 == c % 2);
    }
  }

  lemma {:induction false} XorBitsCommutes(a: nat, b: nat, n: nat)
    ensures XorBits(a, b, n) == XorBits(b, a, n)
    decreases n
  {
    if n > 0 {
      XorBitsCommutes(a / 2, b / 2, n - 1);
    }
  }

  lemma XorAlgebra(a: byte, b: byte, c: byte)
    ensures Xor(a, b) == Xor(b, a)
    ensures Xor(Xor(a, b), c) == Xor(a, Xor(b, c))
  {
    XorBitsCommutes(a, b, 8);
    XorBitsAssociates(a, b, c, 8);
  }

  /** A byte folded into a sum equals that sum exactly when the rest of it is zero. */
  lemma XorSelfCancels(x: byte, b: byte, c: byte, d: byte)
    ensures Xor(Xor(Xor(x, b), c), d) == b <==> Xor(Xor(x, c), d) == 0
  {
    var rest := Xor(Xor(x, c), d);
    assert Xor(Xor(Xor(x, b), c), d) == Xor(rest, b) by {
      XorAlgebra(x, b, c);
      XorAlgebra(b, c, x);
      XorAlgebra(x, c, b);
      XorAlgebra(Xor(x, c), b, d);
      XorAlgebra(b, d, x);
      XorAlgebra(Xor(x, c), d, b);
    }
    XorCancels(rest, b);
    XorCancels(0, b);
    XorZero(b);
  }

  lemma XorZero(b: byte)
    ensures Xor(0, b) == b
  {
    XorBitsZero(b, 8);
    Pow2Of8();
  }

  lemma XorZeroRight(b: byte)
    ensures Xor(b, 0) == b
  {
    XorZero(b);
    XorBitsCommutes(b, 0, 8);
  }

  lemma {:induction false} XorBitsZero(b: nat, n: nat)
    requires b < Pow2(n)
    ensures XorBits(0, b, n) == b
    decreases n
  {
    if n > 0 {
      XorBitsZero(b / 2, n - 1);
    }
  }

  /** Bit `k` of a number. */
  function Bit(n: nat, k: nat): nat { if k == 0 then n % 2 else Bit(n / 2, k - 1) }

  /** Exclusive or, bit by bit: set exactly where the two bits differ. */
  lemma {:induction false} XorBitsAt(a: nat, b: nat, n: nat, k: nat)
    requires k < n
    ensures Bit(XorBits(a, b, n), k) == if Bit(a, k) == Bit(b, k) then 0 else 1
    decreases k
  {
    var x := XorBits(a, b, n);
    assert x / 2 == XorBits(a / 2, b / 2, n - 1) && x % 2 == if a % 2 == b % 2 then 0 else 1;
    if k > 0 {
      XorBitsAt(a / 2, b / 2, n - 1, k - 1);
    }
  }

  lemma XorAt(a: byte, b: byte, k: nat)
    requires k < 8
    ensures Bit(Xor(a, b), k) == if Bit(a, k) == Bit(b, k) then 0 else 1
  {
    XorBitsAt(a, b, 8, k);
  }
}
