/** Polynomials over GF(2), the reference definition that crypto/gcm.py's multiplication
    is measured against. A polynomial is its coefficients, constant term first. */
module Polynomials {
  import opened Bits
  import opened Gf128

  type Poly = seq<bool>

  predicate Coef(p: Poly, i: nat) {
    i < |p| && p[i]
  }

  /** Equality of polynomials, whatever zeros are written at the high end. */
  ghost predicate Same(p: Poly, q: Poly) {
    forall i: nat :: Coef(p, i) == Coef(q, i)
  }

  function PolyAdd(p: Poly, q: Poly): (r: Poly)
    ensures forall i: nat :: Coef(r, i) == (Coef(p, i) != Coef(q, i))
  {
    seq(if |p| >= |q| then |p| else |q|, (i: nat) => Coef(p, i) != Coef(q, i))
  }

  /** Multiplication by x. */
  function Shift(p: Poly): Poly {
    [false] + p
  }

  /** Schoolbook multiplication. */
  function PolyMul(p: Poly, q: Poly): Poly {
    if p == [] then []
    else PolyAdd(if p[0] then q else [], Shift(PolyMul(p[1..], q)))
  }

  /** x^128 + x^7 + x^2 + x + 1. */
  const MODULUS: Poly := seq(129, i => i == 0 || i == 1 || i == 2 || i == 7 || i == 128)

  /** The polynomial a block stands for: its first bit is the constant term. */
  function Coeffs(x: Elem): (p: Poly)
    ensures |p| == 128
  {
    seq(128, i requires 0 <= i < 128 => Bit(x, 127 - i))
  }

  /** The remainder modulo MODULUS, by Horner's rule. */
  function Reduce(p: Poly): Elem {
    if p == [] then 0
    else Add(if p[0] then ONE else 0, MulX(Reduce(p[1..])))
  }

  function Quotient(p: Poly): Poly {
    if p == [] then [] else [Bit(Reduce(p[1..]), 0)] + Quotient(p[1..])
  }

  // ---- Bits of the constants --------------------------------------------

  lemma {:induction false} BitHigh(x: nat, n: nat, j: nat)
    requires x < Pow2(n) && n <= j
    ensures !Bit(x, j)
  {
    if n > 0 {
      BitHigh(x / 2, n - 1, j - 1);
    } else if j > 0 {
      BitHigh(0, 0, j - 1);
    }
  }

  lemma {:induction false} BitShl(a: nat, k: nat, j: nat)
    ensures Bit(Shl(a, k), j) == (j >= k && Bit(a, j - k))
  {
    if k > 0 && j > 0 {
      BitShl(a, k - 1, j - 1);
    }
  }

  lemma BitOfOne(j: nat)
    ensures Bit(ONE, j) == (j == 127)
  {
    Pow2Of128();
    ShlIsMul(127);
    BitShl(1, 127, j);
    if j > 127 {
      BitHigh(1, 1, j - 127);
    }
  }

  lemma {:induction false} ShlIsProduct(n: nat)
    ensures Shl(0xE1, n) == 0xE1 * Pow2(n)
  {
    if n > 0 {
      ShlIsProduct(n - 1);
    }
  }

  lemma BitsOfTopByte(j: nat)
    ensures Bit(0xE1, j) == (j == 0 || j == 5 || j == 6 || j == 7)
  {
    if j > 7 {
      ShlByte(0);
      BitHigh(0xE1, 8, j);
    } else {
      assert Bit(0xE1, 0) && !Bit(0xE1, 1) && Bit(0xE1, 2) == Bit(0x38, 0) && Bit(0xE1, 3) == Bit(0x38, 1);
      assert Bit(0xE1, 4) == Bit(0x38, 2) && Bit(0x38, 2) == Bit(0xE, 0);
      assert Bit(0xE1, 5) == Bit(0x38, 3) && Bit(0x38, 3) == Bit(0xE, 1);
      assert Bit(0xE1, 6) == Bit(0x38, 4) && Bit(0x38, 4) == Bit(0xE, 2) && Bit(0xE, 2) == Bit(3, 0);
      assert Bit(0xE1, 7) == Bit(0x38, 5) && Bit(0x38, 5) == Bit(0xE, 3) && Bit(0xE, 3) == Bit(3, 1);
    }
  }

  lemma BitsOfR(j: nat)
    ensures Bit(R, j) == (j == 120 || j == 125 || j == 126 || j == 127)
  {
    assert R == Shl(0xE1, 120) by {
      hide Bit;
      ShlByte(0);
      Pow2Add(8, 120);
      Pow2Of128();
      ShlIsProduct(120);
    }
    BitShl(0xE1, 120, j);
    if j >= 120 {
      BitsOfTopByte(j - 120);
    }
  }

  lemma AddBit(a: Elem, b: Elem, j: nat)
    ensures Bit(Add(a, b), j) == (Bit(a, j) != Bit(b, j))
  {
    XorBit(a, b, j);
  }

  lemma MulXBit(v: Elem, j: nat)
    ensures Bit(MulX(v), j) == (Bit(v, j + 1) != (Bit(v, 0) && Bit(R, j)))
  {
    hide Add;
    AddBit(v / 2, R, j);
  }

  // ---- Reduce is a ring homomorphism ------------------------------------

  lemma {:induction false} ReduceAdd(p: Poly, q: Poly)
    ensures Reduce(PolyAdd(p, q)) == Add(Reduce(p), Reduce(q))
    decreases |p|
  {
    var s := PolyAdd(p, q);
    if p == [] {
      ZeroAdd(Reduce(q));
      assert s == q by {
        assert forall i :: 0 <= i < |s| ==> s[i] == Coef(s, i) && q[i] == Coef(q, i);
      }
    } else if q == [] {
      AddZero(Reduce(p));
      assert s == p by {
        assert forall i :: 0 <= i < |s| ==> s[i] == Coef(s, i) && p[i] == Coef(p, i);
      }
    } else {
      assert s[1..] == PolyAdd(p[1..], q[1..]);
      hide Add, MulX;
      var a: Elem := if p[0] then ONE else 0;
      var b: Elem := if q[0] then ONE else 0;
      ReduceAdd(p[1..], q[1..]);
      MulXAdd(Reduce(p[1..]), Reduce(q[1..]));
      AddSwap(a, MulX(Reduce(p[1..])), b, MulX(Reduce(q[1..])));
      AddSelf(ONE);
      AddSelf(0);
      AddZero(ONE);
      ZeroAdd(ONE);
      assert s[0] == (p[0] != q[0]);
    }
  }

  lemma ReduceShift(p: Poly)
    ensures Reduce(Shift(p)) == MulX(Reduce(p))
  {
    assert Shift(p)[1..] == p;
    ZeroAdd(MulX(Reduce(p)));
  }

  lemma MulMulX(a: Elem, b: Elem)
    ensures Mul(MulX(a), b) == MulX(Mul(a, b))
  {
    hide MulX, MulFrom;
    MulComm(MulX(a), b);
    MulComm(a, b);
    MulFromMulX(b, a, 0);
  }

  lemma {:induction false} ReduceMul(p: Poly, q: Poly)
    ensures Reduce(PolyMul(p, q)) == Mul(Reduce(p), Reduce(q))
  {
    MulComm(0, Reduce(q));
    MulFromZero(Reduce(q), 0);
    if p != [] {
      hide Add, Mul, MulX;
      var c: Elem := if p[0] then ONE else 0;
      var t := Reduce(p[1..]);
      ReduceMul(p[1..], q);
      ReduceAdd(if p[0] then q else [], Shift(PolyMul(p[1..], q)));
      ReduceShift(PolyMul(p[1..], q));
      MulAdd(Reduce(q), c, MulX(t));
      MulMulX(t, Reduce(q));
      MulOne(Reduce(q));
    }
  }

  // ---- Reduce is the remainder ------------------------------------------

  /** Polynomials of degree below 128 are their own remainder. */
  lemma {:induction false} ReduceShort(p: Poly, i: nat)
    requires |p| <= 128 && i < 128
    ensures Bit(Reduce(p), 127 - i) == Coef(p, i)
    decreases |p|
  {
    if p == [] {
      BitOfZero(127 - i);
    } else {
      hide Bit, Add, MulX;
      ReduceShort(p[1..], 127);
      ReduceStep(p, i);
      if i > 0 {
        ReduceShort(p[1..], i - 1);
      }
    }
  }

  /** One step of Horner's rule on coefficient i, while the top coefficient of the rest is zero. */
  lemma ReduceStep(p: Poly, i: nat)
    requires p != [] && i < 128 && !Bit(Reduce(p[1..]), 0)
    ensures Bit(Reduce(p), 127 - i) == if i == 0 then p[0] else Bit(Reduce(p[1..]), 128 - i)
  {
    hide Bit, Add, MulX;
    var t := Reduce(p[1..]);
    MulXBit(t, 127 - i);
    AddBit(if p[0] then ONE else 0, MulX(t), 127 - i);
    BitOfZero(127 - i);
    BitOfOne(127 - i);
    if i == 0 {
      Pow2Of128();
      BitHigh(t, 128, 128);
    }
  }

  lemma ReduceCoeffs(x: Elem)
    ensures Reduce(Coeffs(x)) == x
  {
    var r := Reduce(Coeffs(x));
    forall j: nat ensures Bit(r, j) == Bit(x, j) {
      if j < 128 {
        ReduceShort(Coeffs(x), 127 - j);
      } else {
        Pow2Of128();
        BitHigh(r, 128, j);
        BitHigh(x, 128, j);
      }
    }
    BitsExtensional(r, x);
  }

  lemma CoeffsBit(x: Elem, i: nat)
    ensures Coef(Coeffs(x), i) == (i < 128 && Bit(x, 127 - i))
  {
  }

  lemma ShiftCoef(p: Poly, i: nat)
    ensures Coef(Shift(p), i) == (i > 0 && Coef(p, i - 1))
  {
  }

  /** Every polynomial is a multiple of MODULUS plus its reduction. */
  lemma {:induction false} ReduceIsRemainder(p: Poly)
    ensures Same(p, PolyAdd(PolyMul(Quotient(p), MODULUS), Coeffs(Reduce(p))))
  {
    forall i: nat ensures Coef(p, i) == Coef(PolyAdd(PolyMul(Quotient(p), MODULUS), Coeffs(Reduce(p))), i) {
      RemainderCoef(p, i);
    }
  }

  lemma ModulusCoef(i: nat)
    ensures i < 128 ==> Coef(MODULUS, i) == MODULUS[i]
    ensures i >= 128 ==> Coef(MODULUS, i) == (i == 128)
  {
  }

  lemma QuotientCoef(p: Poly, i: nat)
    requires p != []
    ensures Coef(PolyMul(Quotient(p), MODULUS), i)
         == ((Bit(Reduce(p[1..]), 0) && Coef(MODULUS, i))
             != (i > 0 && Coef(PolyMul(Quotient(p[1..]), MODULUS), i - 1)))
  {
    hide Bit, Reduce, MODULUS;
    var q := Quotient(p[1..]);
    assert Quotient(p)[1..] == q && Quotient(p)[0] == Bit(Reduce(p[1..]), 0);
    ShiftCoef(PolyMul(q, MODULUS), i);
  }

  lemma RemainderStep(p: Poly, i: nat)
    requires p != []
    requires i > 0 ==> Coef(p[1..], i - 1) == (Coef(PolyMul(Quotient(p[1..]), MODULUS), i - 1)
                                               != Coef(Coeffs(Reduce(p[1..])), i - 1))
    ensures Coef(p, i) == (Coef(PolyMul(Quotient(p), MODULUS), i) != Coef(Coeffs(Reduce(p)), i))
  {
    hide Bit, Reduce, Coeffs, Quotient, PolyMul, MODULUS;
    CoeffsBit(Reduce(p), i);
    QuotientCoef(p, i);
    ModulusCoef(i);
    if i > 0 {
      CoeffsBit(Reduce(p[1..]), i - 1);
      assert Coef(p, i) == Coef(p[1..], i - 1);
    }
    if i < 128 {
      RemainderLowCoef(p, i);
    }
  }

  lemma {:induction false} RemainderCoef(p: Poly, i: nat)
    ensures Coef(p, i) == (Coef(PolyMul(Quotient(p), MODULUS), i) != Coef(Coeffs(Reduce(p)), i))
    decreases |p|
  {
    if p == [] {
      CoeffsBit(Reduce(p), i);
      if i < 128 {
        BitOfZero(127 - i);
      }
    } else {
      hide Bit, Reduce, Coeffs, Quotient, PolyMul, MODULUS;
      if i > 0 {
        RemainderCoef(p[1..], i - 1);
      }
      RemainderStep(p, i);
    }
  }

  lemma ModulusIsR(i: nat)
    requires i < 128
    ensures MODULUS[i] == Bit(R, 127 - i)
  {
    hide Bit;
    BitsOfR(127 - i);
  }

  lemma RemainderLowCoef(p: Poly, i: nat)
    requires p != [] && i < 128
    ensures Bit(Reduce(p), 127 - i)
         == ((p[0] && i == 0) != ((i > 0 && Bit(Reduce(p[1..]), 128 - i)) != (Bit(Reduce(p[1..]), 0) && MODULUS[i])))
  {
    var t := Reduce(p[1..]);
    hide Bit, Add, MulX, MODULUS;
    MulXBit(t, 127 - i);
    AddBit(if p[0] then ONE else 0, MulX(t), 127 - i);
    BitOfZero(127 - i);
    BitOfOne(127 - i);
    ModulusIsR(i);
    if i == 0 {
      Pow2Of128();
      BitHigh(t, 128, 128);
    }
  }

  // ---- The specification of the multiplication --------------------------

  /** Multiplying blocks is multiplying their polynomials modulo MODULUS. */
  lemma MulIsPolynomialProduct(x: Elem, y: Elem)
    ensures Mul(x, y) == Reduce(PolyMul(Coeffs(x), Coeffs(y)))
    ensures exists q: Poly ::
      Same(PolyMul(Coeffs(x), Coeffs(y)), PolyAdd(PolyMul(q, MODULUS), Coeffs(Mul(x, y))))
  {
    ReduceMul(Coeffs(x), Coeffs(y));
    ReduceCoeffs(x);
    ReduceCoeffs(y);
    ReduceIsRemainder(PolyMul(Coeffs(x), Coeffs(y)));
  }
}
