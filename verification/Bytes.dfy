/** Fixed-width unsigned integers, and exclusive-or on them. */
module Bytes {

  type u8 = x: int | 0 <= x < 0x100
  type u16 = x: int | 0 <= x < 0x1_0000
  type u32 = x: int | 0 <= x < 0x1_0000_0000
  type u64 = x: int | 0 <= x < 0x1_0000_0000_0000_0000

  /** The word whose low and high bytes these are. */
  function Le16(low: u8, high: u8): u16 {
    low as int + 0x100 * (high as int)
  }

  function Low8(v: nat): u8 { v % 0x100 }
  function High8(v: nat): u8 { v / 0x100 % 0x100 }

  function Pow2(n: nat): (p: nat)
    ensures p >= 1
  {
    if n == 0 then 1 else 2 * Pow2(n - 1)
  }

  /** a shifted left by n bits. */
  function Left(a: nat, n: nat): nat {
    if n == 0 then a else 2 * Left(a, n - 1)
  }

  lemma LeftFour(a: nat, n: nat)
    ensures Left(a, n + 4) == 16 * Left(a, n)
  {
    assert Left(a, n + 1) == 2 * Left(a, n);
    assert Left(a, n + 2) == 2 * Left(a, n + 1);
    assert Left(a, n + 3) == 2 * Left(a, n + 2);
  }

  lemma LeftByte(a: nat)
    ensures Left(a, 8) == 0x100 * a
  {
    LeftFour(a, 0);
    LeftFour(a, 4);
  }

  /** Bitwise exclusive-or of two non-negative integers, bit by bit. */
  function Xor(a: nat, b: nat): nat
    decreases a + b
  {
    if a == 0 && b == 0 then 0
    else 2 * Xor(a / 2, b / 2) + (if a % 2 == b % 2 then 0 else 1)
  }

  lemma {:induction false} XorZero(a: nat)
    ensures Xor(a, 0) == a
  {
    if a > 0 {
      XorZero(a / 2);
    }
  }

  lemma {:induction false} XorSelf(a: nat)
    ensures Xor(a, a) == 0
  {
    if a > 0 {
      XorSelf(a / 2);
    }
  }

  lemma {:induction false} XorCommutes(a: nat, b: nat)
    ensures Xor(a, b) == Xor(b, a)
    decreases a + b
  {
    if a + b > 0 {
      XorCommutes(a / 2, b / 2);
    }
  }

  lemma {:induction false} XorAssociates(a: nat, b: nat, c: nat)
    ensures Xor(Xor(a, b), c) == Xor(a, Xor(b, c))
    decreases a + b + c
  {
    if a + b + c > 0 {
      XorAssociates(a / 2, b / 2, c / 2);
      assert Xor(a, b) / 2 == Xor(a / 2, b / 2) && Xor(b, c) / 2 == Xor(b / 2, c / 2);
    }
  }

  lemma XorCancels(a: nat, b: nat, c: nat)
    requires Xor(a, c) == Xor(b, c)
    ensures a == b
  {
    XorAssociates(a, c, c);
    XorAssociates(b, c, c);
    XorSelf(c);
    XorZero(a);
    XorZero(b);
  }

  lemma {:induction false} XorBound(n: nat, a: nat, b: nat)
    requires a < Pow2(n) && b < Pow2(n)
    ensures Xor(a, b) < Pow2(n)
    decreases n
  {
    if n > 0 {
      XorBound(n - 1, a / 2, b / 2);
    }
  }

  lemma XorPrepend(u: nat, v: nat, w: nat, al: nat, bl: nat)
    requires Xor(u + al / 2, v + bl / 2) == w + Xor(al / 2, bl / 2)
    ensures Xor(2 * u + al, 2 * v + bl) == 2 * w + Xor(al, bl)
  {
    assert (2 * u + al) / 2 == u + al / 2 && (2 * v + bl) / 2 == v + bl / 2;
  }

  /** Exclusive-or acts on a high field and a low field of n bits independently. */
  lemma {:induction false} XorFields(n: nat, ah: nat, al: nat, bh: nat, bl: nat)
    requires al < Pow2(n) && bl < Pow2(n)
    ensures Xor(Left(ah, n) + al, Left(bh, n) + bl) == Left(Xor(ah, bh), n) + Xor(al, bl)
    decreases n
  {
    if n > 0 {
      XorFields(n - 1, ah, al / 2, bh, bl / 2);
      XorPrepend(Left(ah, n - 1), Left(bh, n - 1), Left(Xor(ah, bh), n - 1), al, bl);
    }
  }
}
