/** The field arithmetic of crypto/gcm.py: `_gf128_mul` is multiplication of polynomials
    over GF(2) modulo x^128 + x^7 + x^2 + x + 1, with the bits of a block reflected
    (section 6.3 of SP 800-38D). */
module Gf128 {
  import opened Bits

  const TWO128: int := 0x1_00000000_00000000_00000000_00000000
  const R: int := 0xE1000000_00000000_00000000_00000000

  /** A 128-bit block read as a big-endian integer. */
  type Elem = x: int | 0 <= x < 0x1_00000000_00000000_00000000_00000000

  /** The block with only its first bit set: the polynomial 1. */
  const ONE: Elem := 0x80000000_00000000_00000000_00000000

  lemma Pow2Of128()
    ensures Pow2(128) == TWO128 && Pow2(127) == ONE && Pow256(16) == TWO128
  {
    ShlByte(0);
    hide Pow256;
    Pow2Square(8, 0x100);
    Pow2Square(16, 0x10000);
    Pow2Square(32, 0x1_00000000);
    Pow2Square(64, 0x1_00000000_00000000);
    Pow256IsPow2(16);
  }

  function Add(a: Elem, b: Elem): (r: Elem) {
    Pow2Of128();
    XorBound(a, b, 128);
    Xor(a, b)
  }

  /** One step of the loop on `v`: multiply by x and reduce. */
  function MulX(v: Elem): (r: Elem) {
    if v % 2 == 1 then Add(v / 2, R) else v / 2
  }

  /** What the loop adds to `z` from iteration `i` on, when it holds `v` there. */
  function MulFrom(x: Elem, v: Elem, i: nat): (r: Elem)
    requires i <= 128
    decreases 128 - i
  {
    if i == 128 then 0
    else Add(if Bit(x, 127 - i) then v else 0, MulFrom(x, MulX(v), i + 1))
  }

  function Mul(x: Elem, y: Elem): (r: Elem) {
    MulFrom(x, y, 0)
  }

  /** `_gf128_mul`, the loop. */
  method Gf128Mul(x: Elem, y: Elem) returns (z: Elem)
    ensures z == Mul(x, y)
  {
    z := 0;
    var v := y;
    ZeroAdd(Mul(x, y));
    for i := 0 to 128
      invariant Add(z, MulFrom(x, v, i)) == Mul(x, y)
    {
      BitIsShift(x, 127 - i);
      AddAssoc(z, if Bit(x, 127 - i) then v else 0, MulFrom(x, MulX(v), i + 1));
      if Shr(x, 127 - i) % 2 == 1 {
        z := Add(z, v);
      } else {
        AddZero(z);
      }
      if v % 2 == 1 {
        v := Add(v / 2, R);
      } else {
        v := v / 2;
      }
    }
    AddZero(z);
  }

  // ---- Addition ---------------------------------------------------------

  lemma AddZero(a: Elem)
    ensures Add(a, 0) == a
  {
    XorZero(a);
  }

  lemma ZeroAdd(a: Elem)
    ensures Add(0, a) == a
  {
    XorZero(a);
  }

  lemma AddAssoc(a: Elem, b: Elem, c: Elem)
    ensures Add(Add(a, b), c) == Add(a, Add(b, c))
  {
    XorAssoc(a, b, c);
  }

  lemma AddSwap(a: Elem, b: Elem, c: Elem, d: Elem)
    ensures Add(Add(a, b), Add(c, d)) == Add(Add(a, c), Add(b, d))
  {
    XorSwap(a, b, c, d);
  }

  lemma AddSelf(a: Elem)
    ensures Add(a, a) == 0
  {
    XorSelf(a);
  }

  // ---- Linearity --------------------------------------------------------

  lemma AddHalf(a: Elem, b: Elem)
    ensures Add(a, b) / 2 == Add(a / 2, b / 2)
    ensures (Add(a, b) % 2 == 1) == ((a % 2 == 1) != (b % 2 == 1))
  {
    XorHalf(a, b);
  }

  lemma MulXAdd(a: Elem, b: Elem)
    ensures MulX(Add(a, b)) == Add(MulX(a), MulX(b))
  {
    hide Add;
    AddHalf(a, b);
    var p: Elem := if a % 2 == 1 then R else 0;
    var q: Elem := if b % 2 == 1 then R else 0;
    AddZero(a / 2);
    AddZero(b / 2);
    AddSwap(a / 2, p, b / 2, q);
    AddSelf(R);
    AddSelf(0);
    AddZero(R);
    ZeroAdd(R);
    AddZero(Add(a / 2, b / 2));
  }

  lemma {:induction false} MulFromMulX(x: Elem, v: Elem, i: nat)
    requires i <= 128
    ensures MulFrom(x, MulX(v), i) == MulX(MulFrom(x, v, i))
    decreases 128 - i
  {
    hide Add, MulX;
    if i < 128 {
      var t: Elem := if Bit(x, 127 - i) then v else 0;
      MulFromMulX(x, MulX(v), i + 1);
      MulXAdd(t, MulFrom(x, MulX(v), i + 1));
      MulXZero();
    } else {
      MulXZero();
    }
  }

  lemma MulXZero()
    ensures MulX(0) == 0
  {
  }

  lemma {:induction false} MulFromAddLeft(x: Elem, y: Elem, v: Elem, i: nat)
    requires i <= 128
    ensures MulFrom(Add(x, y), v, i) == Add(MulFrom(x, v, i), MulFrom(y, v, i))
    decreases 128 - i
  {
    AddSelf(0);
    if i < 128 {
      var p: Elem := if Bit(x, 127 - i) then v else 0;
      var q: Elem := if Bit(y, 127 - i) then v else 0;
      MulFromAddLeft(x, y, MulX(v), i + 1);
      AddSwap(p, MulFrom(x, MulX(v), i + 1), q, MulFrom(y, MulX(v), i + 1));
      XorBit(x, y, 127 - i);
      assert Bit(Add(x, y), 127 - i) == (Bit(x, 127 - i) != Bit(y, 127 - i));
      hide Add, MulX;
      AddSelf(v);
      AddZero(v);
      ZeroAdd(v);
    }
  }

  lemma {:induction false} MulFromAddRight(x: Elem, v: Elem, w: Elem, i: nat)
    requires i <= 128
    ensures MulFrom(x, Add(v, w), i) == Add(MulFrom(x, v, i), MulFrom(x, w, i))
    decreases 128 - i
  {
    hide Add, MulX;
    AddSelf(0);
    if i < 128 {
      var p: Elem := if Bit(x, 127 - i) then v else 0;
      var q: Elem := if Bit(x, 127 - i) then w else 0;
      MulXAdd(v, w);
      MulFromAddRight(x, MulX(v), MulX(w), i + 1);
      AddSwap(p, MulFrom(x, MulX(v), i + 1), q, MulFrom(x, MulX(w), i + 1));
    }
  }

  lemma {:induction false} MulFromZero(x: Elem, i: nat)
    requires i <= 128
    ensures MulFrom(x, 0, i) == 0
    decreases 128 - i
  {
    if i < 128 {
      MulXZero();
      MulFromZero(x, i + 1);
      AddSelf(0);
    }
  }

  /** Multiplying by `y` commutes with the loop. */
  lemma {:induction false} MulOfMulFrom(y: Elem, x: Elem, v: Elem, i: nat)
    requires i <= 128
    ensures Mul(y, MulFrom(x, v, i)) == MulFrom(x, Mul(y, v), i)
    decreases 128 - i
  {
    hide Add, MulX;
    MulFromZero(y, 0);
    if i < 128 {
      var p: Elem := if Bit(x, 127 - i) then v else 0;
      MulFromAddRight(y, p, MulFrom(x, MulX(v), i + 1), 0);
      MulOfMulFrom(y, x, MulX(v), i + 1);
      MulFromMulX(y, v, 0);
    }
  }

  // ---- The ring laws ----------------------------------------------------

  lemma {:induction false} LowBits(x: nat, n: nat)
    requires n > 0
    ensures x % Pow2(n) == (if Bit(x, n - 1) then Pow2(n - 1) else 0) + x % Pow2(n - 1)
  {
    if n > 1 {
      LowBits(x / 2, n - 1);
      ModHalf(x, Pow2(n - 1));
      ModHalf(x, Pow2(n - 2));
    }
  }

  lemma XorTopBit(n: nat, r: nat)
    requires r < Pow2(n)
    ensures Xor(Pow2(n), r) == Pow2(n) + r
  {
    hide Xor;
    XorSplit(n, 1, 0, 0, r);
    ShlIsMul(n);
    XorZero(1);
    XorZero(r);
  }

  lemma {:induction false} ShlIsMul(n: nat)
    ensures Shl(1, n) == Pow2(n) && Shl(0, n) == 0
  {
    if n > 0 {
      ShlIsMul(n - 1);
    }
  }

  lemma UnitStep(u: Elem, i: nat)
    requires i < 127 && u == Pow2(127 - i)
    ensures MulX(u) == Pow2(126 - i)
  {
    assert u % 2 == 0;
  }

  /** Started at x^i, the loop rebuilds the low bits of its first argument. */
  lemma {:induction false} MulFromUnit(x: Elem, i: nat, u: Elem)
    requires i <= 127 && u == Pow2(127 - i)
    ensures MulFrom(x, u, i) == x % Pow2(128 - i)
    decreases 128 - i
  {
    hide MulX, Bit, Xor;
    LowBits(x, 128 - i);
    var low := x % Pow2(127 - i);
    if i == 127 {
      assert MulFrom(x, MulX(u), 128) == 0;
      assert low == 0;
      AddSelf(0);
      AddZero(u);
    } else {
      UnitStep(u, i);
      MulFromUnit(x, i + 1, MulX(u));
      XorTopBit(127 - i, low);
      XorZero(low);
    }
  }

  lemma MulOne(x: Elem)
    ensures Mul(x, ONE) == x && Mul(ONE, x) == x
  {
    hide MulFrom;
    Pow2Of128();
    MulFromUnit(x, 0, ONE);
    MulComm(x, ONE);
  }

  lemma MulComm(x: Elem, y: Elem)
    ensures Mul(x, y) == Mul(y, x)
  {
    hide MulFrom;
    Pow2Of128();
    MulFromUnit(x, 0, ONE);
    MulFromUnit(y, 0, ONE);
    MulOfMulFrom(y, x, ONE, 0);
  }

  lemma MulAssoc(x: Elem, y: Elem, z: Elem)
    ensures Mul(Mul(x, y), z) == Mul(x, Mul(y, z))
  {
    hide MulFrom;
    MulComm(Mul(x, y), z);
    MulOfMulFrom(z, x, y, 0);
    MulComm(z, y);
  }

  lemma MulAdd(x: Elem, y: Elem, z: Elem)
    ensures Mul(x, Add(y, z)) == Add(Mul(x, y), Mul(x, z))
    ensures Mul(Add(y, z), x) == Add(Mul(y, x), Mul(z, x))
  {
    hide MulFrom;
    MulFromAddRight(x, y, z, 0);
    MulFromAddLeft(y, z, x, 0);
  }
}
