/** Quotients and remainders by variable divisors, in the small steps the solver needs. */
module Arithmetic {
  import opened Basics

  lemma DivUnique(x: nat, y: nat, q: nat, r: nat)
    requires x == q * y + r && r < y
    ensures x / y == q && x % y == r
  {
    var d: int := x / y - q;
    assert d * y == x / y * y - q * y == r - x % y;
    assert d >= 1 ==> d * y >= y;
    assert d <= -1 ==> d * y <= 0 - y;
  }

  /** The byte above `p` is the low byte of the quotient by `p`. */
  lemma QuotientAndByte(x: nat, p: nat)
    requires p > 0
    ensures x / p == x / (256 * p) * 256 + x / p % 256
  {
    var y := x / p;
    assert x == y * p + x % p && y == 256 * (y / 256) + y % 256;
    HighPart(y / 256, y % 256, p, x % p);
  }

  lemma HighPart(h: nat, b: nat, p: nat, r: nat)
    requires b < 256 && r < p
    ensures ((256 * h + b) * p + r) / (256 * p) == h
  {
    assert (256 * h + b) * p + r == h * (256 * p) + (b * p + r);
    assert b * p <= 255 * p;
    DivUnique((256 * h + b) * p + r, 256 * p, h, b * p + r);
  }

  /** Dropping the bits above 31 leaves the byte above bit `k` alone. */
  lemma ByteOfWrapped(x: nat, k: nat)
    requires k <= 4
    ensures Wrap32(x) / Pow2(k) % 256 == x / Pow2(k) % 256
  {
    var low, high := x % 0x1_0000_0000, x / 0x1_0000_0000;
    match k {
      case 0 => SameByte(low, 0x100_0000 * high);
      case 1 =>
        assert x / 2 == 0x8000_0000 * high + low / 2;
        SameByte(low / 2, 0x80_0000 * high);
      case 2 =>
        assert x / 4 == 0x4000_0000 * high + low / 4;
        SameByte(low / 4, 0x40_0000 * high);
      case 3 =>
        assert x / 8 == 0x2000_0000 * high + low / 8;
        SameByte(low / 8, 0x20_0000 * high);
      case 4 =>
        assert x / 16 == 0x1000_0000 * high + low / 16;
        SameByte(low / 16, 0x10_0000 * high);
    }
  }

  lemma SameByte(y: nat, t: nat)
    ensures (256 * t + y) % 256 == y % 256
  {
  }

  lemma WrapsTo(k: nat, r: uint32)
    ensures Wrap32(0x1_0000_0000 * k + r) == r
  {
  }

  /** `(value << 5) | d` in 32 bits, for a value that is itself the low bits of `n`. */
  lemma ShiftIn(n: nat, d: nat)
    requires d < 32
    ensures Wrap32(Wrap32(n) * 32) + d == Wrap32(32 * n + d)
  {
    var a, b := n / 0x1_0000_0000, n % 0x1_0000_0000;
    var c, e := b / 0x800_0000, b % 0x800_0000;
    WrapsTo(c, 32 * e);
    WrapsTo(32 * a + c, 32 * e + d);
  }
}
